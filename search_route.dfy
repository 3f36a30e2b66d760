/**
 * The search endpoint (src/app/api/search/route.ts): the `q` parameter is
 * matched case-insensitively against each post's title, description and tags,
 * and the matching posts come back without their body.
 */
module SearchRoute {
  import opened Wrappers
  import opened JsStrings
  import opened Collections
  import opened MdxUtils

  /** The fields of a post a search result carries; the body is not among them. */
  datatype SearchHit = SearchHit(slug: string, title: string, description: string, tags: seq<string>, date: string)

  /** The JSON body of the response: a list of hits, or an error object with its status. */
  datatype Response =
    | Hits(hits: seq<SearchHit>)
    | Failure(status: int, error: string)

  const FailureStatus: int := 500
  const FailureMessage: string := "Failed to search posts"

  /** A post matches when the lowered query occurs in its lowered title, description or any lowered tag. */
  predicate Matches(query: string, p: Post)
    ensures query == "" ==> Matches(query, p)
    ensures Matches(query, p) <==>
      exists field :: field in [p.title, p.description] + p.tags && Includes(Lower(field), Lower(query))
  {
    var q := Lower(query);
    FieldsOfPost(q, p);
    Includes(Lower(p.title), q)
      || Includes(Lower(p.description), q)
      || exists tag | tag in p.tags :: Includes(Lower(tag), q)
  }

  /** Title, then description, then any tag: the fields the search looks at, as one list. */
  lemma FieldsOfPost(q: string, p: Post)
    ensures (Includes(Lower(p.title), q)
      || Includes(Lower(p.description), q)
      || exists tag | tag in p.tags :: Includes(Lower(tag), q)) <==>
      exists field :: field in [p.title, p.description] + p.tags && Includes(Lower(field), q)
  {
    var fields := [p.title, p.description] + p.tags;
    assert fields[0] == p.title && fields[1] == p.description;
    assert forall tag :: tag in p.tags ==> tag in fields;
    if exists field :: field in fields && Includes(Lower(field), q) {
      var field :| field in fields && Includes(Lower(field), q);
      assert field == p.title || field == p.description || field in p.tags;
    }
  }

  /** The projection of a post to the fields of a search result. */
  function Project(p: Post): (h: SearchHit)
    ensures h.slug == p.slug && h.title == p.title && h.description == p.description
    ensures h.tags == p.tags && h.date == p.date
  {
    SearchHit(p.slug, p.title, p.description, p.tags, p.date)
  }

  /** The posts of `posts` that match `query`, in order. */
  function Matching(posts: seq<Post>, query: string): (kept: seq<Post>)
    ensures |kept| <= |posts|
    ensures forall p :: p in kept <==> p in posts && Matches(query, p)
    ensures forall p :: multiset(kept)[p] == if Matches(query, p) then multiset(posts)[p] else 0
  {
    Filter(posts, p => Matches(query, p))
  }

  /** The `filter` and `map` of the handler: the projections of the matching posts. */
  function Results(query: string, posts: seq<Post>): (hits: seq<SearchHit>)
    ensures |hits| <= |posts|
  {
    Map(Matching(posts, query), Project)
  }

  /**
   * `GET /api/search?q=...`: an absent or empty query answers an empty list
   * without loading any post; a failed load answers status 500; otherwise the
   * results for the posts of `getAllPosts`.
   */
  function Search(query: Option<string>, dir: seq<Entry>): (r: Response)
    ensures query.None? || query == Some("") ==> r == Hits([])
    ensures query.Some? && query.value != "" && GetAllPosts(dir).Err? ==>
      r == Failure(FailureStatus, FailureMessage)
    ensures query.Some? && query.value != "" && GetAllPosts(dir).Ok? ==>
      r == Hits(Results(query.value, GetAllPosts(dir).value))
  {
    match query
    case None => Hits([])
    case Some(q) =>
      if q == "" then Hits([])
      else
        match GetAllPosts(dir)
        case Err(_) => Failure(FailureStatus, FailureMessage)
        case Ok(posts) => Hits(Results(q, posts))
  }

  /** A result is the projection of a post that matches in title, description or a tag, and every such post gives a result. */
  lemma ResultsAreMatches(q: string, posts: seq<Post>, h: SearchHit)
    ensures h in Results(q, posts) <==> exists p :: p in posts && Matches(q, p) && h == Project(p)
  {
    MapFilterMembers(posts, p => Matches(q, p), Project, h);
  }

  /**
   * The results are the projections of a subsequence of the posts, so they
   * keep the posts' order; from a newest-first list they come newest first.
   */
  lemma ResultsKeepOrder(q: string, posts: seq<Post>)
    ensures exists kept: seq<Post> ::
      Subsequence(kept, posts) && (NewestFirst(posts) ==> NewestFirst(kept)) &&
      Results(q, posts) == Map(kept, Project)
  {
    var kept := Matching(posts, q);
    FilterIsSubsequence(posts, p => Matches(q, p));
    if NewestFirst(posts) {
      FilterPairwise(posts, p => Matches(q, p), NotOlder);
    }
    assert Subsequence(kept, posts) && (NewestFirst(posts) ==> NewestFirst(kept)) &&
      Results(q, posts) == Map(kept, Project);
  }

  /** A post whose tag alone contains the query is still found. */
  lemma TagOnlyMatchFound(q: string, posts: seq<Post>, p: Post, tag: string)
    requires p in posts
    requires !Includes(Lower(p.title), Lower(q)) && !Includes(Lower(p.description), Lower(q))
    requires tag in p.tags && Includes(Lower(tag), Lower(q))
    ensures Project(p) in Results(q, posts)
  {
    ResultsAreMatches(q, posts, Project(p));
  }

  /** Only the lowered query matters to the match. */
  lemma ResultsIgnoreQueryCase(q: string, posts: seq<Post>)
    ensures Results(q, posts) == Results(Lower(q), posts)
  {
    LowerIdempotent(q);
    FilterExtensional(posts, p => Matches(q, p), p => Matches(Lower(q), p));
  }

  /** Searching for a query and for its lower-case form gives the same response. */
  lemma SearchIgnoresQueryCase(q: string, dir: seq<Entry>)
    ensures Search(Some(q), dir) == Search(Some(Lower(q)), dir)
  {
    LowerEmpty(q);
    if q != "" && GetAllPosts(dir).Ok? {
      ResultsIgnoreQueryCase(q, GetAllPosts(dir).value);
    }
  }
}
