/**
 * The post catalogue of the blog (src/lib/mdxUtils.ts): posts are read from
 * the `.mdx` files of the posts directory, given defaults for the optional
 * front-matter fields, ordered newest first by their `date` string, indexed
 * by tag and filtered by tag.
 *
 * The directory is a sequence of entries in listing order. Reading a file,
 * parsing its front-matter and estimating its reading time are done outside
 * the model; an entry carries their outcome.
 */
module MdxUtils {
  import opened Wrappers
  import opened JsStrings
  import opened Collections

  /**
   * Front-matter as parsed from a post file. `None` stands for a field that is
   * missing or holds a falsy value.
   */
  datatype FrontMatter = FrontMatter(
    title: string,
    date: string,
    description: Option<string>,
    image: Option<string>,
    tags: Option<seq<string>>)

  /** The outcome of reading and parsing one file; `Unreadable` when reading or parsing throws. */
  datatype FileRead =
    | Parsed(data: FrontMatter, content: string, readingTime: string)
    | Unreadable

  /** One directory entry: a file name and what reading that file yields. */
  datatype Entry = Entry(fileName: string, file: FileRead)

  datatype Post = Post(
    slug: string,
    title: string,
    date: string,
    description: string,
    image: string,
    tags: seq<string>,
    readingTime: string,
    content: string)

  /** The rejection of `getAllPosts`: the first `.mdx` file that could not be read. */
  datatype LoadError = ReadFailed(fileName: string)

  const MdxExtension: string := ".mdx"

  // ---------------------------------------------------------------------------
  // Slugs and post records
  // ---------------------------------------------------------------------------

  predicate IsMdx(fileName: string) {
    EndsWith(fileName, MdxExtension)
  }

  predicate IsMdxEntry(e: Entry) {
    IsMdx(e.fileName)
  }

  /** `fileName.replace(/\.mdx$/, '')`: drops a trailing `.mdx`, leaves any other name alone. */
  function Slug(fileName: string): (slug: string)
    ensures IsMdx(fileName) ==> slug + MdxExtension == fileName
    ensures !IsMdx(fileName) ==> slug == fileName
  {
    if IsMdx(fileName) then fileName[..|fileName| - |MdxExtension|] else fileName
  }

  /** Deriving the slug undoes appending `.mdx`, the name `getPostBySlug` looks up. */
  lemma SlugOfMdxName(slug: string)
    ensures IsMdx(slug + MdxExtension)
    ensures Slug(slug + MdxExtension) == slug
  {
    EndsWithAppended(slug, MdxExtension);
  }

  /** `value || fallback` for a front-matter field. */
  function OrElse<T>(value: Option<T>, fallback: T): T {
    match value
    case Some(v) => v
    case None => fallback
  }

  /** The record both loaders build from a slug and a parsed file. */
  function MakePost(slug: string, data: FrontMatter, content: string, readingTime: string): (p: Post)
    ensures p.slug == slug && p.title == data.title && p.date == data.date
    ensures p.content == content && p.readingTime == readingTime
    ensures data.description.None? ==> p.description == ""
    ensures data.description.Some? ==> p.description == data.description.value
    ensures data.image.None? ==> p.image == ""
    ensures data.image.Some? ==> p.image == data.image.value
    ensures data.tags.None? ==> p.tags == []
    ensures data.tags.Some? ==> p.tags == data.tags.value
  {
    Post(slug, data.title, data.date, OrElse(data.description, ""), OrElse(data.image, ""),
         OrElse(data.tags, []), readingTime, content)
  }

  /** The post `getAllPosts` builds from a readable `.mdx` entry. */
  function PostOf(e: Entry): (p: Post)
    requires e.file.Parsed?
    ensures IsMdx(e.fileName) ==> p.slug + MdxExtension == e.fileName
    ensures !IsMdx(e.fileName) ==> p.slug == e.fileName
    ensures p.title == e.file.data.title && p.date == e.file.data.date
    ensures p.content == e.file.content && p.readingTime == e.file.readingTime
    ensures p.description == OrElse(e.file.data.description, "")
    ensures p.image == OrElse(e.file.data.image, "")
    ensures p.tags == OrElse(e.file.data.tags, [])
  {
    MakePost(Slug(e.fileName), e.file.data, e.file.content, e.file.readingTime)
  }

  // ---------------------------------------------------------------------------
  // getAllPosts
  // ---------------------------------------------------------------------------

  /** Reads the given files in order; the first unreadable one rejects the whole batch. */
  function ReadAll(files: seq<Entry>): (r: Result<seq<Post>, LoadError>)
    ensures r.Ok? <==> forall i :: 0 <= i < |files| ==> files[i].file.Parsed?
    ensures r.Ok? ==> |r.value| == |files|
    ensures r.Ok? ==> forall i :: 0 <= i < |files| ==> r.value[i] == PostOf(files[i])
    ensures r.Err? ==>
      exists i :: 0 <= i < |files| && files[i].file.Unreadable? && r.error == ReadFailed(files[i].fileName) &&
        forall k :: 0 <= k < i ==> files[k].file.Parsed?
  {
    if files == [] then Ok([])
    else
      match files[0].file
      case Unreadable => Err(ReadFailed(files[0].fileName))
      case Parsed(_, _, _) =>
        var tail := files[1..];
        assert forall i :: 1 <= i < |files| ==> files[i] == tail[i - 1];
        match ReadAll(tail)
        case Err(e) =>
          var j :| 0 <= j < |tail| && tail[j].file.Unreadable? && e == ReadFailed(tail[j].fileName) &&
            forall k :: 0 <= k < j ==> tail[k].file.Parsed?;
          assert files[j + 1] == tail[j];
          Err(e)
        case Ok(rest) =>
          PrependPost(files, rest);
          Ok([PostOf(files[0])] + rest)
  }

  /** The step of `ReadAll` that puts the first file's post in front of the others'. */
  lemma PrependPost(files: seq<Entry>, rest: seq<Post>)
    requires files != [] && files[0].file.Parsed?
    requires forall i :: 0 <= i < |files[1..]| ==> files[1..][i].file.Parsed?
    requires |rest| == |files[1..]|
    requires forall i :: 0 <= i < |files[1..]| ==> rest[i] == PostOf(files[1..][i])
    ensures forall i :: 0 <= i < |files| ==> files[i].file.Parsed?
    ensures forall i :: 0 <= i < |files| ==> ([PostOf(files[0])] + rest)[i] == PostOf(files[i])
  {
    var tail := files[1..];
    forall i | 0 < i < |files|
      ensures files[i].file.Parsed? && ([PostOf(files[0])] + rest)[i] == PostOf(files[i])
    {
      assert files[i] == tail[i - 1];
    }
  }

  /**
   * The posts of the `.mdx` files, in listing order, before sorting. Loading
   * fails exactly when some `.mdx` entry cannot be read, and the error names
   * such an entry; files with any other name are never read.
   */
  function LoadPosts(dir: seq<Entry>): (r: Result<seq<Post>, LoadError>)
    ensures r.Err? <==> exists e :: e in dir && IsMdx(e.fileName) && e.file.Unreadable?
    ensures r.Err? ==>
      exists e :: e in dir && IsMdx(e.fileName) && e.file.Unreadable? && r.error == ReadFailed(e.fileName)
    ensures r.Ok? ==> |r.value| == |Filter(dir, IsMdxEntry)|
  {
    var files := Filter(dir, IsMdxEntry);
    assert forall i :: 0 <= i < |files| ==> files[i] in files;
    ReadAll(files)
  }

  /**
   * Every loaded post comes from a readable `.mdx` entry whose name is the
   * post's slug followed by `.mdx`, and every `.mdx` entry yields its post.
   */
  lemma LoadPostsFromMdxFiles(dir: seq<Entry>)
    requires LoadPosts(dir).Ok?
    ensures forall p :: p in LoadPosts(dir).value ==>
      exists e :: e in dir && e.fileName == p.slug + MdxExtension && e.file.Parsed? && p == PostOf(e)
    ensures forall e :: e in dir && IsMdx(e.fileName) ==> e.file.Parsed? && PostOf(e) in LoadPosts(dir).value
  {
    var files := Filter(dir, IsMdxEntry);
    var posts := LoadPosts(dir).value;
    forall p | p in posts
      ensures exists e :: e in dir && e.fileName == p.slug + MdxExtension && e.file.Parsed? && p == PostOf(e)
    {
      var i :| 0 <= i < |posts| && posts[i] == p;
      var e := files[i];
      assert e in files;
      assert p == PostOf(e) && p.slug == Slug(e.fileName);
    }
    forall e | e in dir && IsMdx(e.fileName)
      ensures e.file.Parsed? && PostOf(e) in posts
    {
      assert e in files;
      var i :| 0 <= i < |files| && files[i] == e;
      assert posts[i] == PostOf(e);
    }
  }

  /** The comparator of the date sort: a negative answer puts `a` before `b`. */
  function CompareDates(a: Post, b: Post): (r: int)
    ensures r == 1 || r == -1
    ensures a.date == b.date ==> r == -1
    ensures r == 1 ==> a.date != b.date
  {
    LessIrreflexive(a.date);
    if Less(a.date, b.date) then 1 else -1
  }

  /** Equal dates make the comparator answer -1 both ways, so their order is left open. */
  lemma CompareDatesTie(a: Post, b: Post)
    requires a.date == b.date
    ensures CompareDates(a, b) == -1 && CompareDates(b, a) == -1
  {
    LessIrreflexive(a.date);
  }

  /** On distinct dates the comparator is antisymmetric: the later date goes first. */
  lemma CompareDatesDistinct(a: Post, b: Post)
    requires a.date != b.date
    ensures CompareDates(a, b) == -CompareDates(b, a)
    ensures CompareDates(a, b) < 0 <==> Less(b.date, a.date)
  {
    LessTotal(a.date, b.date);
    if Less(a.date, b.date) {
      LessAsymmetric(a.date, b.date);
    } else {
      LessAsymmetric(b.date, a.date);
    }
  }

  /** `a` may precede `b`: its date string is not smaller. */
  predicate NotOlder(a: Post, b: Post) {
    !Less(a.date, b.date)
  }

  /** No post is placed before one whose date string is greater. */
  ghost predicate NewestFirst(posts: seq<Post>) {
    Pairwise(posts, NotOlder)
  }

  /** Places `p` into a list sorted by `CompareDates`, in front of the first post it may precede. */
  function Insert(p: Post, sorted: seq<Post>): seq<Post> {
    if sorted == [] then [p]
    else if CompareDates(p, sorted[0]) < 0 then [p] + sorted
    else [sorted[0]] + Insert(p, sorted[1..])
  }


  lemma {:induction false} InsertPermutes(p: Post, sorted: seq<Post>)
    ensures multiset(Insert(p, sorted)) == multiset(sorted) + multiset{p}
  {
    if sorted != [] && CompareDates(p, sorted[0]) >= 0 {
      InsertPermutes(p, sorted[1..]);
      assert sorted == [sorted[0]] + sorted[1..];
    }
  }

  lemma {:induction false} InsertNewestFirst(p: Post, sorted: seq<Post>)
    requires NewestFirst(sorted)
    ensures NewestFirst(Insert(p, sorted))
  {
    if sorted == [] {
    } else if CompareDates(p, sorted[0]) < 0 {
      forall y | y in sorted
        ensures NotOlder(p, y)
      {
        var k :| 0 <= k < |sorted| && sorted[k] == y;
        if k > 0 {
          NotLessTransitive(p.date, sorted[0].date, y.date);
        }
      }
      PairwiseCons(p, sorted, NotOlder);
    } else {
      var tail := sorted[1..];
      assert NewestFirst(tail);
      InsertNewestFirst(p, tail);
      InsertPermutes(p, tail);
      forall y | y in Insert(p, tail)
        ensures NotOlder(sorted[0], y)
      {
        assert y in multiset(Insert(p, tail));
        if y == p {
          LessAsymmetric(p.date, sorted[0].date);
        } else {
          assert y in multiset(tail);
          var k :| 0 <= k < |tail| && tail[k] == y;
          assert sorted[k + 1] == y;
        }
      }
      PairwiseCons(sorted[0], Insert(p, tail), NotOlder);
    }
  }

  lemma MultisetOfCons(posts: seq<Post>)
    requires posts != []
    ensures multiset(posts) == multiset(posts[1..]) + multiset{posts[0]}
  {
    assert posts == [posts[0]] + posts[1..];
  }

  /**
   * `posts.sort(CompareDates)`, as an insertion sort: a permutation of the
   * posts in which no post precedes one with a greater date string.
   */
  function SortByDate(posts: seq<Post>): (sorted: seq<Post>)
    ensures multiset(sorted) == multiset(posts)
    ensures NewestFirst(sorted)
  {
    if posts == [] then []
    else
      var rest := SortByDate(posts[1..]);
      InsertPermutes(posts[0], rest);
      InsertNewestFirst(posts[0], rest);
      MultisetOfCons(posts);
      Insert(posts[0], rest)
  }

  /**
   * `getAllPosts`: the `.mdx` posts ordered newest first. It fails when loading
   * does; otherwise it is a permutation of the loaded posts.
   */
  function GetAllPosts(dir: seq<Entry>): (r: Result<seq<Post>, LoadError>)
    ensures r.Err? <==> LoadPosts(dir).Err?
    ensures r.Err? ==> r.error == LoadPosts(dir).error
    ensures r.Ok? ==> multiset(r.value) == multiset(LoadPosts(dir).value)
    ensures r.Ok? ==> NewestFirst(r.value)
  {
    match LoadPosts(dir)
    case Err(e) => Err(e)
    case Ok(posts) => Ok(SortByDate(posts))
  }

  // ---------------------------------------------------------------------------
  // getPostBySlug
  // ---------------------------------------------------------------------------

  /** The entry named `name`, as a file-existence check finds it. */
  function FindFile(dir: seq<Entry>, name: string): (r: Option<Entry>)
    ensures r.None? <==> forall e :: e in dir ==> e.fileName != name
    ensures r.Some? ==> r.value in dir && r.value.fileName == name
  {
    if dir == [] then None
    else if dir[0].fileName == name then Some(dir[0])
    else FindFile(dir[1..], name)
  }

  /** `getPostBySlug`: null for a missing or unreadable `<slug>.mdx`, never an error. */
  function GetPostBySlug(dir: seq<Entry>, slug: string): (r: Option<Post>)
    ensures (forall e :: e in dir ==> e.fileName != slug + MdxExtension) ==> r.None?
    ensures r.Some? ==> r.value.slug == slug
    ensures r.Some? ==>
      exists e :: e in dir && e.fileName == slug + MdxExtension && e.file.Parsed? && r.value == PostOf(e)
    ensures DistinctNames(dir) ==>
      (r.Some? <==> exists e :: e in dir && e.fileName == slug + MdxExtension && e.file.Parsed?)
  {
    match FindFile(dir, slug + MdxExtension)
    case None => None
    case Some(e) =>
      match e.file
      case Unreadable => None
      case Parsed(data, content, readingTime) =>
        SlugOfMdxName(slug);
        Some(MakePost(slug, data, content, readingTime))
  }

  /** File names in a directory listing are distinct. */
  predicate DistinctNames(dir: seq<Entry>) {
    forall i, j :: 0 <= i < j < |dir| ==> dir[i].fileName != dir[j].fileName
  }

  /**
   * Looking a slug up finds exactly the post of that slug that `getAllPosts` lists.
   */
  lemma GetPostBySlugAgrees(dir: seq<Entry>, slug: string, p: Post)
    requires DistinctNames(dir)
    requires GetAllPosts(dir).Ok?
    ensures GetPostBySlug(dir, slug) == Some(p) <==> p in GetAllPosts(dir).value && p.slug == slug
  {
    var all := GetAllPosts(dir).value;
    var loaded := LoadPosts(dir).value;
    assert forall q :: q in all <==> q in loaded by {
      forall q ensures q in all <==> q in loaded {
        assert q in all <==> q in multiset(all);
      }
    }
    LoadPostsFromMdxFiles(dir);
    if GetPostBySlug(dir, slug) == Some(p) {
      var e :| e in dir && e.fileName == slug + MdxExtension && e.file.Parsed? && p == PostOf(e);
      SlugOfMdxName(slug);
      assert PostOf(e) in loaded;
    }
    if p in all && p.slug == slug {
      var e :| e in dir && e.fileName == p.slug + MdxExtension && e.file.Parsed? && p == PostOf(e);
      var found := FindFile(dir, slug + MdxExtension);
      assert found.Some?;
      var i :| 0 <= i < |dir| && dir[i] == e;
      var j :| 0 <= j < |dir| && dir[j] == found.value;
      assert i == j;
      SlugOfMdxName(slug);
    }
  }

  // ---------------------------------------------------------------------------
  // getAllTags
  // ---------------------------------------------------------------------------

  /** All posts' tag lists, one after another. */
  function TagList(posts: seq<Post>): seq<string> {
    if posts == [] then [] else posts[0].tags + TagList(posts[1..])
  }

  /** How often `tag` occurs across all posts' tag lists. */
  function TagOccurrences(posts: seq<Post>, tag: string): nat {
    if posts == [] then 0 else multiset(posts[0].tags)[tag] + TagOccurrences(posts[1..], tag)
  }

  /** The total length of all posts' tag lists. */
  function TotalTags(posts: seq<Post>): nat {
    if posts == [] then 0 else |posts[0].tags| + TotalTags(posts[1..])
  }

  /** For each tag of `tags`, how often it occurs there. */
  function TagCounts(tags: seq<string>): (m: map<string, int>)
    ensures m.Keys == set t | t in tags
    ensures forall t :: t in m ==> m[t] >= 1
  {
    map t | t in tags :: multiset(tags)[t]
  }

  /** The dictionary `getAllTags` builds from `posts`. */
  function TagIndex(posts: seq<Post>): map<string, int> {
    TagCounts(TagList(posts))
  }

  /** Counting one more tag bumps its count, or starts it at 1. */
  lemma TagCountsSnoc(tags: seq<string>, t: string)
    ensures TagCounts(tags + [t]) ==
      if t in TagCounts(tags) then TagCounts(tags)[t := TagCounts(tags)[t] + 1]
      else TagCounts(tags)[t := 1]
  {
    var m := TagCounts(tags);
    var m' := TagCounts(tags + [t]);
    assert multiset(tags + [t]) == multiset(tags) + multiset{t};
    if t in m {
      assert m' == m[t := m[t] + 1];
    } else {
      assert m' == m[t := 1];
    }
  }

  /** One step of the loop in `CountTags`: the truthiness test is the membership test. */
  lemma CountStep(tags: map<string, int>, counted: seq<string>, t: string)
    requires tags == TagCounts(counted)
    ensures (if t in tags && tags[t] != 0 then tags[t := tags[t] + 1] else tags[t := 1])
      == TagCounts(counted + [t])
  {
    TagCountsSnoc(counted, t);
  }

  lemma {:induction false} TagListAppend(a: seq<Post>, b: seq<Post>)
    ensures TagList(a + b) == TagList(a) + TagList(b)
  {
    if a == [] {
      assert a + b == b;
    } else {
      var ab := a + b;
      assert ab[0] == a[0] && ab[1..] == a[1..] + b;
      TagListAppend(a[1..], b);
      assert TagList(ab) == a[0].tags + (TagList(a[1..]) + TagList(b));
    }
  }

  /** The tags of the first `i + 1` posts are those of the first `i` followed by post `i`'s. */
  lemma TagListPrefix(posts: seq<Post>, i: nat)
    requires i < |posts|
    ensures TagList(posts[..i + 1]) == TagList(posts[..i]) + posts[i].tags
  {
    assert posts[..i + 1] == posts[..i] + [posts[i]];
    TagListAppend(posts[..i], [posts[i]]);
    assert TagList([posts[i]]) == posts[i].tags + TagList([]);
  }

  /**
   * The inner `forEach` of `getAllTags`: for each tag of one post, bump its
   * count when the dictionary holds a truthy count for it, otherwise set it to 1.
   */
  method CountPostTags(tags: map<string, int>, ghost counted: seq<string>, postTags: seq<string>)
    returns (updated: map<string, int>)
    requires tags == TagCounts(counted)
    ensures updated == TagCounts(counted + postTags)
  {
    updated := tags;
    var j := 0;
    while j < |postTags|
      invariant 0 <= j <= |postTags|
      invariant updated == TagCounts(counted + postTags[..j])
    {
      var tag := postTags[j];
      CountStep(updated, counted + postTags[..j], tag);
      if tag in updated && updated[tag] != 0 {
        updated := updated[tag := updated[tag] + 1];
      } else {
        updated := updated[tag := 1];
      }
      assert counted + postTags[..j + 1] == counted + postTags[..j] + [tag];
      j := j + 1;
    }
    assert postTags[..j] == postTags;
  }

  /** `getAllTags`' outer `forEach`: counts the tags of every post, starting from an empty dictionary. */
  method CountTags(posts: seq<Post>) returns (tags: map<string, int>)
    ensures tags == TagIndex(posts)
  {
    tags := map[];
    var i := 0;
    while i < |posts|
      invariant 0 <= i <= |posts|
      invariant tags == TagCounts(TagList(posts[..i]))
    {
      tags := CountPostTags(tags, TagList(posts[..i]), posts[i].tags);
      TagListPrefix(posts, i);
      i := i + 1;
    }
    assert posts[..i] == posts;
  }

  /** `getAllTags`: the tag index of `getAllPosts`, or its error. */
  method GetAllTags(dir: seq<Entry>) returns (r: Result<map<string, int>, LoadError>)
    ensures GetAllPosts(dir).Err? ==> r == Err(GetAllPosts(dir).error)
    ensures GetAllPosts(dir).Ok? ==> r == Ok(TagIndex(GetAllPosts(dir).value))
  {
    match GetAllPosts(dir)
    case Err(e) =>
      r := Err(e);
    case Ok(posts) =>
      var tags := CountTags(posts);
      r := Ok(tags);
  }

  lemma {:induction false} TagListMembers(posts: seq<Post>, tag: string)
    ensures tag in TagList(posts) <==> exists p :: p in posts && tag in p.tags
  {
    if posts != [] {
      TagListMembers(posts[1..], tag);
      assert posts == [posts[0]] + posts[1..];
    }
  }

  lemma {:induction false} TagListCounts(posts: seq<Post>, tag: string)
    ensures multiset(TagList(posts))[tag] == TagOccurrences(posts, tag)
  {
    if posts != [] {
      TagListCounts(posts[1..], tag);
    }
  }

  /** All posts' tags together are as many as the posts' tag lists hold one by one. */
  lemma {:induction false} TagListLength(posts: seq<Post>)
    ensures |TagList(posts)| == TotalTags(posts)
  {
    if posts != [] {
      TagListLength(posts[1..]);
    }
  }

  /** The keys of the tag index are exactly the tags some post carries. */
  lemma TagIndexKeys(posts: seq<Post>, tag: string)
    ensures tag in TagIndex(posts) <==> exists p :: p in posts && tag in p.tags
  {
    TagListMembers(posts, tag);
  }

  /** Each count is the number of occurrences of its tag across all posts, hence at least 1. */
  lemma TagIndexCounts(posts: seq<Post>, tag: string)
    requires tag in TagIndex(posts)
    ensures TagIndex(posts)[tag] == TagOccurrences(posts, tag)
    ensures TagOccurrences(posts, tag) >= 1
  {
    TagListCounts(posts, tag);
  }

  lemma {:induction false} TagCountsSum(tags: seq<string>)
    ensures SumValues(TagCounts(tags)) == |tags|
  {
    if tags == [] {
      assert TagCounts(tags).Keys == {};
    } else {
      var init, t := tags[..|tags| - 1], tags[|tags| - 1];
      TagCountsSum(init);
      TagCountsLast(tags);
      SumValuesBump(TagCounts(init), t);
    }
  }

  /** `TagCountsSnoc` for the last element of a nonempty list. */
  lemma TagCountsLast(tags: seq<string>)
    requires tags != []
    ensures var init, t := tags[..|tags| - 1], tags[|tags| - 1];
      TagCounts(tags) == if t in TagCounts(init) then TagCounts(init)[t := TagCounts(init)[t] + 1] else TagCounts(init)[t := 1]
  {
    var init, t := tags[..|tags| - 1], tags[|tags| - 1];
    assert tags == init + [t];
    TagCountsSnoc(init, t);
  }

  /** The counts add up to the total length of all posts' tag lists. */
  lemma TagIndexTotal(posts: seq<Post>)
    ensures SumValues(TagIndex(posts)) == TotalTags(posts)
  {
    TagCountsSum(TagList(posts));
    TagListLength(posts);
  }

  // ---------------------------------------------------------------------------
  // getPostsByTag
  // ---------------------------------------------------------------------------

  /**
   * `getPostsByTag`: the posts of `getAllPosts` whose tags contain `tag`
   * exactly, in the same order.
   */
  function GetPostsByTag(dir: seq<Entry>, tag: string): (r: Result<seq<Post>, LoadError>)
    ensures r.Err? <==> GetAllPosts(dir).Err?
    ensures r.Err? ==> r.error == GetAllPosts(dir).error
    ensures r.Ok? ==> forall p :: p in r.value <==> p in GetAllPosts(dir).value && tag in p.tags
    ensures r.Ok? ==> Subsequence(r.value, GetAllPosts(dir).value)
    ensures r.Ok? ==> NewestFirst(r.value)
  {
    match GetAllPosts(dir)
    case Err(e) => Err(e)
    case Ok(posts) =>
      var hasTag := (p: Post) => tag in p.tags;
      FilterIsSubsequence(posts, hasTag);
      FilterPairwise(posts, hasTag, NotOlder);
      Ok(Filter(posts, hasTag))
  }
}
