# Blog post catalogue and search, modelled in Dafny

This project models the two pieces of logic in the blog front-end that do more than render pages:

- **The post catalogue** (`src/lib/mdxUtils.ts`). `getAllPosts` keeps the `.mdx` files of the posts directory and turns each file name into a slug. It builds a post record with defaults for the optional front-matter fields and sorts the posts newest first by comparing their raw `date` strings. `getPostBySlug` looks one post up and answers `null` when it is missing or cannot be read. `getAllTags` counts tags in a dictionary, in place, with nested `forEach` loops. `getPostsByTag` filters the posts by exact tag.
- **The search endpoint** (`src/app/api/search/route.ts`). `GET` answers an empty list for an absent or empty `q`. Otherwise it keeps the posts whose lower-cased title, description or one of whose lower-cased tags contains the lower-cased query. It projects each kept post to `{slug, title, description, tags, date}`, and answers status 500 when the posts cannot be loaded.

The posts directory is a sequence of entries in listing order: a file name and what reading the file yields. That is either the parsed front-matter, the body and the reading-time estimate, or `Unreadable` when reading or parsing throws. The front-matter parser, the reading-time library and the filesystem are therefore parameters of the model.

Files:

- `wrappers.dfy`: `Option` (JavaScript's `null`) and `Result` (a rejected promise).
- `js_strings.dfy`: `endsWith`, `includes`, `toLowerCase` (ASCII) and the string `<` operator, with the order lemmas the sort needs.
- `collections.dfy`: `filter`, `map`, the subsequence relation a filter produces, and the sum of a dictionary's values.
- `mdx_utils.dfy`: module `MdxUtils`, the catalogue. Everything except the tag counting is expression code and is modelled by functions. `getAllTags` is modelled by the methods `CountTags` and `CountPostTags` (nested loops over a `map` variable) and `GetAllTags`. `CountTags` and `GetAllTags` are proved equal to the specification function `TagIndex`, the inner loop `CountPostTags` is proved equal to `TagCounts` of the tags counted so far followed by one post's tags, and the tag-index lemmas are proved about `TagIndex`.
- `search_route.dfy`: module `SearchRoute`, the endpoint, all functions and lemmas.

`src/lib/mdxUtils.ts` has no date parser, draft filter, slug de-duplication or preview truncation, and neither has the model. Posts are ordered by comparing their raw `date` strings (`src/lib/mdxUtils.ts:61`).

## Model

| member | source | states |
|---|---|---|
| `JsStrings.EndsWith` | src/lib/mdxUtils.ts:30 | a name that passes the `.mdx` test is at least as long as the suffix and is its own prefix followed by the suffix |
| `JsStrings.EndsWithAppended` | src/lib/mdxUtils.ts:30 | a name formed as `slug + suffix` passes the `endsWith` test |
| `JsStrings.Includes` | src/app/api/search/route.ts:17-19 | the empty query is included in every string; a string only includes what is no longer than itself |
| `JsStrings.IncludesSplit` | src/app/api/search/route.ts:17-19 | `includes` holds exactly when the string splits as `before + sub + after` |
| `JsStrings.Less` | src/lib/mdxUtils.ts:61 | `a < b` implies the strings differ; a proper prefix is smaller than the string it begins |
| `JsStrings.LessIrreflexive` | src/lib/mdxUtils.ts:61 | no date string is `<` itself |
| `JsStrings.LessTransitive` | src/lib/mdxUtils.ts:61 | string `<` is transitive |
| `JsStrings.LessTotal` | src/lib/mdxUtils.ts:61 | any two distinct strings are ordered one way or the other by `<` |
| `JsStrings.LessAsymmetric` | src/lib/mdxUtils.ts:61 | `a < b` and `b < a` never both hold |
| `JsStrings.NotLessTransitive` | src/lib/mdxUtils.ts:61-65 | "not smaller than" is transitive, the ordering the descending sort produces |
| `JsStrings.Lower` | src/app/api/search/route.ts:17-19 | `toLowerCase` keeps the length, lowers each character and leaves no upper-case ASCII letter |
| `JsStrings.LowerIdempotent` | src/app/api/search/route.ts:17-19 | lowering a lowered string changes nothing |
| `JsStrings.LowerEmpty` | src/app/api/search/route.ts:8-19 | the lowered query is empty exactly when the query is |
| `Collections.Filter` | src/lib/mdxUtils.ts:122 | `filter` keeps exactly the elements that pass, each as often as in the input, and never grows the list |
| `Collections.Map` | src/app/api/search/route.ts:26-32 | `map` keeps the length and puts the image of each element at its position |
| `Collections.FilterIsSubsequence` | src/app/api/search/route.ts:16 | a filter's result is a subsequence of its input, so the relative order is kept |
| `Collections.FilterPairwise` | src/lib/mdxUtils.ts:122 | a relation between every element and every later one survives filtering, so a filtered newest-first list stays newest first |
| `Collections.MapFilterMembers` | src/app/api/search/route.ts:16-32 | `filter` then `map` holds exactly the images of the kept elements |
| `Collections.FilterExtensional` | src/app/api/search/route.ts:16-22 | two predicates that agree on every element filter alike |
| `MdxUtils.Slug` | src/lib/mdxUtils.ts:33 | for a name ending in `.mdx`, slug + `.mdx` is the name; any other name is returned unchanged |
| `MdxUtils.SlugOfMdxName` | src/lib/mdxUtils.ts:33-71 | `<slug>.mdx` is an `.mdx` name whose slug is `slug`, so slug derivation inverts the path `getPostBySlug` builds |
| `MdxUtils.MakePost` | src/lib/mdxUtils.ts:46-55 | slug, title, date, body and reading time are copied; a missing or falsy description or image becomes `""`, missing tags become `[]` |
| `MdxUtils.PostOf` | src/lib/mdxUtils.ts:31-55 | the record built from one readable file: its slug followed by `.mdx` is the file name, title, date, body and reading time are the file's, and a missing description, image or tag list becomes `""`, `""` or `[]` |
| `MdxUtils.ReadAll` | src/lib/mdxUtils.ts:28-57 | reading succeeds exactly when every file is readable, and then yields one post per file in order; otherwise the error names the first unreadable file |
| `MdxUtils.PrependPost` | src/lib/mdxUtils.ts:28-57 | a readable first file followed by files that each yield their post gives, in order, one post per file |
| `MdxUtils.LoadPosts` | src/lib/mdxUtils.ts:28-57 | loading fails exactly when some `.mdx` entry is unreadable, and names such an entry; an unreadable file not ending in `.mdx` never causes a failure; otherwise one post per `.mdx` entry |
| `MdxUtils.LoadPostsFromMdxFiles` | src/lib/mdxUtils.ts:29-55 | every loaded post comes from a readable entry named `<slug>.mdx`, and every `.mdx` entry yields its post |
| `MdxUtils.CompareDates` | src/lib/mdxUtils.ts:60-66 | the comparator answers only 1 or -1, answers -1 on equal dates, and answers 1 only for distinct dates |
| `MdxUtils.CompareDatesTie` | src/lib/mdxUtils.ts:60-66 | on equal dates the comparator answers -1 both ways, so the tie order is not determined |
| `MdxUtils.CompareDatesDistinct` | src/lib/mdxUtils.ts:60-66 | on distinct dates the comparator is antisymmetric and puts the greater date string first |
| `MdxUtils.InsertPermutes` | src/lib/mdxUtils.ts:60-66 | inserting a post adds exactly that post |
| `MdxUtils.InsertNewestFirst` | src/lib/mdxUtils.ts:60-66 | inserting into a newest-first list keeps it newest first |
| `MdxUtils.SortByDate` | src/lib/mdxUtils.ts:60-66 | the date sort returns a permutation of its input in which no post precedes one with a greater date string |
| `MdxUtils.GetAllPosts` | src/lib/mdxUtils.ts:20-67 | fails exactly when loading fails, with the same error; otherwise returns a permutation of the loaded posts, newest first |
| `MdxUtils.FindFile` | src/lib/mdxUtils.ts:71-75 | finds an entry of that name exactly when one exists |
| `MdxUtils.GetPostBySlug` | src/lib/mdxUtils.ts:69-97 | null when no `<slug>.mdx` exists; when file names are distinct, a post is found exactly when a readable `<slug>.mdx` exists; a found post has the requested slug and is the record of a readable `<slug>.mdx`; no error escapes |
| `MdxUtils.GetPostBySlugAgrees` | src/lib/mdxUtils.ts:69-97 | in a directory with distinct file names, looking up a slug returns exactly the post of that slug that `getAllPosts` lists |
| `MdxUtils.TagCounts` | src/lib/mdxUtils.ts:102-114 | the counted dictionary's keys are exactly the tags in the list, each with a count of at least 1 |
| `MdxUtils.TagCountsSnoc` | src/lib/mdxUtils.ts:107-111 | counting one more tag bumps its count when present and sets it to 1 otherwise |
| `MdxUtils.TagCountsLast` | src/lib/mdxUtils.ts:107-111 | the counts of a non-empty tag list are those of all but its last tag, with the last tag bumped or set to 1 |
| `MdxUtils.CountStep` | src/lib/mdxUtils.ts:107-111 | the truthiness test on the stored count is the membership test, so one loop step counts one more tag |
| `MdxUtils.TagListAppend` | src/lib/mdxUtils.ts:104-106 | the tags of two post lists in a row are the tags of the first followed by those of the second |
| `MdxUtils.TagListPrefix` | src/lib/mdxUtils.ts:104-106 | the tags of one more post extend the tags seen so far by that post's tags |
| `MdxUtils.CountPostTags` | src/lib/mdxUtils.ts:106-112 | the inner loop over one post's tags extends the dictionary to count those tags too |
| `MdxUtils.CountTags` | src/lib/mdxUtils.ts:102-116 | the nested loops build exactly the tag index of the posts |
| `MdxUtils.GetAllTags` | src/lib/mdxUtils.ts:99-117 | the tag index of `getAllPosts`, or its error |
| `MdxUtils.TagListMembers` | src/lib/mdxUtils.ts:104-106 | a tag is among all posts' tags exactly when some post carries it |
| `MdxUtils.TagListCounts` | src/lib/mdxUtils.ts:104-112 | a tag occurs in all posts' tags as often as in the posts one by one |
| `MdxUtils.TagListLength` | src/lib/mdxUtils.ts:104-106 | all posts' tags together are as many as the total of the posts' tag-list lengths |
| `MdxUtils.TagIndexKeys` | src/lib/mdxUtils.ts:104-114 | the keys of the tag index are exactly the tags that some post carries |
| `MdxUtils.TagIndexCounts` | src/lib/mdxUtils.ts:106-112 | each count is the number of occurrences of its tag across all posts' tag lists, hence at least 1 |
| `MdxUtils.TagCountsSum` | src/lib/mdxUtils.ts:106-112 | the counts of a tag list add up to its length |
| `MdxUtils.TagIndexTotal` | src/lib/mdxUtils.ts:104-114 | the counts of the tag index add up to the total length of all posts' tag lists |
| `MdxUtils.GetPostsByTag` | src/lib/mdxUtils.ts:119-123 | fails when `getAllPosts` does; otherwise holds exactly the posts whose tags contain the tag (exact, case-sensitive), as a subsequence of `getAllPosts`, newest first |
| `SearchRoute.Matches` | src/app/api/search/route.ts:16-22 | a post matches exactly when its lower-cased title, description or one of its lower-cased tags includes the lower-cased query; every post matches the empty query |
| `SearchRoute.Matching` | src/app/api/search/route.ts:16-22 | the filter keeps exactly the matching posts, each as often as in the input, and never grows the list |
| `SearchRoute.Project` | src/app/api/search/route.ts:26-32 | a hit carries the post's slug, title, description, tags and date unchanged |
| `SearchRoute.Results` | src/app/api/search/route.ts:16-32 | the filtered and projected list is never longer than the posts |
| `SearchRoute.Search` | src/app/api/search/route.ts:4-38 | an absent or empty query answers `[]` whatever the directory holds; a failed load answers status 500 with the fixed message `Failed to search posts`; otherwise the results for the posts of `getAllPosts` |
| `SearchRoute.ResultsAreMatches` | src/app/api/search/route.ts:16-32 | a result is the projection of a post matching in title, description or a tag, and every such post gives a result |
| `SearchRoute.ResultsKeepOrder` | src/app/api/search/route.ts:16-32 | the results are the projections of a subsequence of the posts, so they keep the posts' order, newest first when the posts are |
| `SearchRoute.TagOnlyMatchFound` | src/app/api/search/route.ts:19-21 | a post whose only match is one of its tags is still returned |
| `SearchRoute.ResultsIgnoreQueryCase` | src/app/api/search/route.ts:17-19 | the results for a query and for its lower-cased form are the same |
| `SearchRoute.SearchIgnoresQueryCase` | src/app/api/search/route.ts:8-19 | searching for a query and for its lower-cased form gives the same response |

## Left out

- Filesystem I/O (`existsSync`, `mkdirSync`, `readdirSync`, `readFileSync`). The directory is a given sequence of entries, and creating a missing directory is not modelled. A failure of the directory listing itself is not modelled; only a file that cannot be read or parsed is.
- `gray-matter` and `reading-time` are libraries whose behaviour is not part of this model. Front-matter arrives already parsed and the reading time as an opaque string. The `Math.ceil(minutes)` rounding of a floating-point estimate is not modelled.
- Front-matter values that are not strings: a YAML date that the parser turns into a `Date` object (compared numerically by `<`), a tag list given as a single string, or a missing `title`. The model types `title` and `date` as strings and the optional fields as `Option` of the expected type. `None` stands for any missing or falsy value.
- Search: a post whose field is not a string would make the filter throw, and the response would be the 500 error. With string fields this cannot happen in the model.
- `Promise.all` and `async`: the loaders are modelled as sequential functions. When several `.mdx` files are unreadable, the error reported is the first one in listing order.
- `MdxUtils.SortByDate`: `Array.prototype.sort` is modelled as an insertion sort that uses the same comparator. Its order for posts with equal dates is the model's choice. The JavaScript engine's order for such ties is not modelled, because the comparator is inconsistent on ties.
- `JsStrings.Less`: compares Dafny characters (Unicode scalar values) where JavaScript compares UTF-16 code units. The two orders differ only for characters outside the Basic Multilingual Plane.
- `JsStrings.Lower`: lowers ASCII letters only, with no Unicode case mapping.
- The tag dictionary is a Dafny `map`. JavaScript's inherited object properties (a tag named `constructor` or `__proto__`) are not modelled.
- `getPostBySlug` joins the slug into a path. Path normalisation of a slug containing `/` or `..` is not modelled; the slug is matched against file names directly.
- `console.error` logging, Next.js request parsing and JSON encoding of responses.
- The React components and pages, the theme provider, the HTML attribute fix-up fed to DOMPurify, the end-to-end tests and the configuration files. These are UI, browser state or foreign libraries.
