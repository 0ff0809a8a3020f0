/** The records that flow through the keyword search pipeline, and its fixed configuration. */
module Posts {

  datatype Option<T> = None | Some(value: T)

  /** One hit returned by the subreddit search for a keyword: the fields the pipeline reads. */
  datatype SearchResult = SearchResult(
    permalink: string,
    createdUtc: int,      // seconds since the epoch, UTC
    title: string,
    selftext: string,
    subreddit: string,
    score: int,
    numComments: int)

  /** The labels the context classifier can produce: its five categories and the fallback. */
  datatype Context = Question | Complaint | RecommendationRequest | Praise | Other | Unknown
  {
    /** The label as the classifier spells it. */
    function Name(): (s: string)
      ensures s in Categories + [UnknownLabel]
      ensures s == UnknownLabel <==> this == Unknown
      ensures this != Unknown ==> s == Categories[Index()]
    {
      match this
      case Question => "question"
      case Complaint => "complaint"
      case RecommendationRequest => "recommendation request"
      case Praise => "praise"
      case Other => "other"
      case Unknown => UnknownLabel
    }

    /** Position of a real category in the candidate label list. */
    function Index(): nat
      requires this != Unknown
    {
      match this
      case Question => 0
      case Complaint => 1
      case RecommendationRequest => 2
      case Praise => 3
      case Other => 4
    }
  }

  const Categories: seq<string> := ["question", "complaint", "recommendation request", "praise", "other"]
  const UnknownLabel: string := "unknown"

  /** A kept post, as the dictionary built for `raw_posts`, plus the optional context label. */
  datatype Post = Post(
    title: string,
    content: string,
    url: string,
    subreddit: string,
    upvotes: int,
    comments: int,
    createdUtc: int,
    fullText: string,
    context: Option<Context>)

  const UrlPrefix: string := "https://www.reddit.com"
  const SecondsPerDay: int := 86400

  /** The deduplication key of a search hit. */
  function Url(permalink: string): string
  {
    UrlPrefix + permalink
  }

  /** Two hits share a key exactly when they share a permalink. */
  lemma UrlInjective(a: string, b: string)
    ensures Url(a) == Url(b) <==> a == b
  {
    if Url(a) == Url(b) {
      assert a == Url(a)[|UrlPrefix|..];
    }
  }

  /** The earliest creation time that survives: `now - days_back` days, in seconds. */
  function Cutoff(now: int, daysBack: int): int
  {
    now - daysBack * SecondsPerDay
  }

  /** The record appended to `raw_posts` for a hit that is kept. */
  function ToPost(r: SearchResult): Post
  {
    Post(r.title, r.selftext, Url(r.permalink), r.subreddit, r.score, r.numComments,
         r.createdUtc, r.title + " " + r.selftext, None)
  }

  /** The set of URLs of a list of posts. */
  function Urls(ps: seq<Post>): set<string>
  {
    set p | p in ps :: p.url
  }

  lemma UrlsAppend(ps: seq<Post>, p: Post)
    ensures Urls(ps + [p]) == Urls(ps) + {p.url}
  {
    assert forall q :: q in ps + [p] <==> q in ps || q == p;
  }

  /** No two posts of the list share a URL. */
  predicate UniqueUrls(ps: seq<Post>)
  {
    forall i, j :: 0 <= i < j < |ps| ==> ps[i].url != ps[j].url
  }
}
