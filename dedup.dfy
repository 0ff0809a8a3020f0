/** Stage one of the keyword search: drop repeated URLs and hits older than the cutoff. */
module Deduplication {
  import opened Posts
  import opened Subsequence

  /** The hits of all keywords, keyword by keyword, in the order the searches return them. */
  function Flatten(batches: seq<seq<SearchResult>>): seq<SearchResult>
    decreases |batches|
  {
    if batches == [] then []
    else Flatten(batches[..|batches| - 1]) + batches[|batches| - 1]
  }

  lemma FlattenSnoc(batches: seq<seq<SearchResult>>, i: nat)
    requires i < |batches|
    ensures Flatten(batches[..i + 1]) == Flatten(batches[..i]) + batches[i]
  {
    assert batches[..i + 1][..i] == batches[..i];
  }

  predicate IsRecent(r: SearchResult, cutoff: int)
  {
    r.createdUtc >= cutoff
  }

  /**
   * Reference definition of the loop: each hit, in stream order, is appended unless its
   * URL was already kept or it is older than the cutoff.
   */
  function Dedup(s: seq<SearchResult>, cutoff: int): seq<Post>
    decreases |s|
  {
    if s == [] then []
    else
      var kept := Dedup(s[..|s| - 1], cutoff);
      var r := s[|s| - 1];
      if Url(r.permalink) in Urls(kept) || r.createdUtc < cutoff then kept
      else kept + [ToPost(r)]
  }

  /** One step of the loop: the hit `r` that follows the stream `s`. */
  lemma DedupStep(s: seq<SearchResult>, r: SearchResult, cutoff: int)
    ensures Dedup(s + [r], cutoff)
         == if Url(r.permalink) in Urls(Dedup(s, cutoff)) || r.createdUtc < cutoff
            then Dedup(s, cutoff) else Dedup(s, cutoff) + [ToPost(r)]
  {
    assert (s + [r])[..|s|] == s;
  }

  /** The URLs of the recent hits of a stream. */
  function RecentUrls(s: seq<SearchResult>, cutoff: int): set<string>
  {
    set k | 0 <= k < |s| && IsRecent(s[k], cutoff) :: Url(s[k].permalink)
  }

  /** Hit `k` is recent and no earlier recent hit has its URL: the occurrence that wins. */
  ghost predicate FirstRecent(s: seq<SearchResult>, k: nat, cutoff: int)
    requires k < |s|
  {
    && IsRecent(s[k], cutoff)
    && forall m :: 0 <= m < k && IsRecent(s[m], cutoff) ==> Url(s[m].permalink) != Url(s[k].permalink)
  }

  ghost function FirstRecentMask(s: seq<SearchResult>, cutoff: int): (mask: seq<bool>)
    ensures |mask| == |s|
    ensures forall k :: 0 <= k < |s| ==> mask[k] == FirstRecent(s, k, cutoff)
  {
    seq(|s|, k requires 0 <= k < |s| => FirstRecent(s, k, cutoff))
  }

  /** The positions of the stream whose hits end up in `raw_posts`. */
  ghost function KeptPositions(s: seq<SearchResult>, cutoff: int): seq<nat>
  {
    Select(FirstRecentMask(s, cutoff))
  }

  /**
   * The set of URLs kept (the `seen_urls` set after the loop) is exactly the set of URLs
   * of recent hits: a hit rejected for its age contributes nothing, and no recent URL is lost.
   */
  lemma {:induction false} KeptUrlsAreRecentUrls(s: seq<SearchResult>, cutoff: int)
    ensures Urls(Dedup(s, cutoff)) == RecentUrls(s, cutoff)
    decreases |s|
  {
    if s != [] {
      var n := |s| - 1;
      var p, r := s[..n], s[n];
      var kept := Dedup(p, cutoff);
      KeptUrlsAreRecentUrls(p, cutoff);
      assert RecentUrls(s, cutoff) == RecentUrls(p, cutoff) + (if IsRecent(r, cutoff) then {Url(r.permalink)} else {}) by {
        forall u | u in RecentUrls(s, cutoff)
          ensures u in RecentUrls(p, cutoff) + (if IsRecent(r, cutoff) then {Url(r.permalink)} else {})
        {
          var k :| 0 <= k < |s| && IsRecent(s[k], cutoff) && u == Url(s[k].permalink);
          if k < n { assert p[k] == s[k]; }
        }
        forall u | u in RecentUrls(p, cutoff) ensures u in RecentUrls(s, cutoff) {
          var k :| 0 <= k < |p| && IsRecent(p[k], cutoff) && u == Url(p[k].permalink);
          assert s[k] == p[k];
        }
      }
      if !(Url(r.permalink) in Urls(kept) || r.createdUtc < cutoff) {
        UrlsAppend(kept, ToPost(r));
      }
    }
  }

  lemma FirstRecentMaskSnoc(s: seq<SearchResult>, cutoff: int)
    requires s != []
    ensures FirstRecentMask(s, cutoff)
         == FirstRecentMask(s[..|s| - 1], cutoff) + [FirstRecent(s, |s| - 1, cutoff)]
  {
    var n := |s| - 1;
    var p := s[..n];
    forall k | 0 <= k < n ensures FirstRecent(s, k, cutoff) == FirstRecent(p, k, cutoff) {
      assert forall m :: 0 <= m <= k ==> s[m] == p[m];
    }
  }

  /** The last hit of a stream wins exactly when it is recent and its URL is not yet kept. */
  lemma FirstRecentLast(s: seq<SearchResult>, cutoff: int)
    requires s != []
    ensures var r := s[|s| - 1];
      FirstRecent(s, |s| - 1, cutoff) <==>
        IsRecent(r, cutoff) && Url(r.permalink) !in RecentUrls(s[..|s| - 1], cutoff)
  {
    var n := |s| - 1;
    var p, r := s[..n], s[n];
    if Url(r.permalink) in RecentUrls(p, cutoff) {
      var m :| 0 <= m < |p| && IsRecent(p[m], cutoff) && Url(r.permalink) == Url(p[m].permalink);
      assert s[m] == p[m];
    }
    if IsRecent(r, cutoff) && !FirstRecent(s, n, cutoff) {
      var m :| 0 <= m < n && IsRecent(s[m], cutoff) && Url(s[m].permalink) == Url(r.permalink);
      assert p[m] == s[m];
      assert Url(r.permalink) in RecentUrls(p, cutoff);
    }
  }

  /** The stage appends the last hit of a stream exactly when that hit is the winning occurrence. */
  lemma DedupSnocFirstRecent(s: seq<SearchResult>, cutoff: int)
    requires s != []
    ensures Dedup(s, cutoff) == Dedup(s[..|s| - 1], cutoff)
      + if FirstRecent(s, |s| - 1, cutoff) then [ToPost(s[|s| - 1])] else []
  {
    KeptUrlsAreRecentUrls(s[..|s| - 1], cutoff);
    FirstRecentLast(s, cutoff);
  }

  /** The kept positions ascend, and a position is kept exactly when its hit is the winning occurrence. */
  lemma KeptPositionsAreFirstRecent(s: seq<SearchResult>, cutoff: int)
    ensures var ix := KeptPositions(s, cutoff);
      && Increasing(ix)
      && (forall i :: 0 <= i < |ix| ==> ix[i] < |s|)
      && (forall k :: 0 <= k < |s| ==> (k in ix <==> FirstRecent(s, k, cutoff)))
  {
  }

  /** The output of the stage is the record of the hit at each kept position, in order. */
  lemma {:induction false} DedupAtKeptPositions(s: seq<SearchResult>, cutoff: int)
    ensures var ix := KeptPositions(s, cutoff);
      && |Dedup(s, cutoff)| == |ix|
      && forall i :: 0 <= i < |ix| ==> ix[i] < |s| && Dedup(s, cutoff)[i] == ToPost(s[ix[i]])
    decreases |s|
  {
    if s != [] {
      var n := |s| - 1;
      var p := s[..n];
      var first := FirstRecent(s, n, cutoff);
      DedupAtKeptPositions(p, cutoff);
      DedupSnocFirstRecent(s, cutoff);
      FirstRecentMaskSnoc(s, cutoff);
      SelectSnoc(FirstRecentMask(p, cutoff), first);
      var ixp, ix := KeptPositions(p, cutoff), KeptPositions(s, cutoff);
      var out := Dedup(s, cutoff);
      forall i | 0 <= i < |ix| ensures ix[i] < |s| && out[i] == ToPost(s[ix[i]]) {
        if i < |ixp| {
          assert p[ixp[i]] == s[ixp[i]];
        }
      }
    }
  }

  /**
   * The stage keeps exactly the first recent occurrence of every URL, in stream order:
   * `Dedup` is the record of each hit at `KeptPositions`, an ascending list of positions that
   * contains a position if and only if the hit there is the first recent one with its URL.
   */
  lemma DedupKeepsFirstRecent(s: seq<SearchResult>, cutoff: int)
    ensures var ix := KeptPositions(s, cutoff);
      && Increasing(ix)
      && (forall k :: 0 <= k < |s| ==> (k in ix <==> FirstRecent(s, k, cutoff)))
      && |Dedup(s, cutoff)| == |ix|
      && forall i :: 0 <= i < |ix| ==> ix[i] < |s| && Dedup(s, cutoff)[i] == ToPost(s[ix[i]])
  {
    KeptPositionsAreFirstRecent(s, cutoff);
    DedupAtKeptPositions(s, cutoff);
  }

  /** No two records of the stage's output share a URL. */
  lemma DedupUniqueUrls(s: seq<SearchResult>, cutoff: int)
    ensures UniqueUrls(Dedup(s, cutoff))
  {
    DedupKeepsFirstRecent(s, cutoff);
    var out, ix := Dedup(s, cutoff), KeptPositions(s, cutoff);
    forall i, j | 0 <= i < j < |out| ensures out[i].url != out[j].url {
      assert ix[i] < ix[j];
      assert ix[j] in ix;
      assert FirstRecent(s, ix[j], cutoff);
      assert ix[i] in ix;
      assert IsRecent(s[ix[i]], cutoff);
    }
  }

  /**
   * Every record of the stage's output is no older than the cutoff (a hit exactly at the
   * cutoff is kept), carries `title + " " + content` as its full text and has no context yet.
   */
  lemma DedupRecentAndWellFormed(s: seq<SearchResult>, cutoff: int)
    ensures forall p :: p in Dedup(s, cutoff) ==>
      && p.createdUtc >= cutoff
      && p.fullText == p.title + " " + p.content
      && p.context == None
  {
    DedupKeepsFirstRecent(s, cutoff);
    var out, ix := Dedup(s, cutoff), KeptPositions(s, cutoff);
    forall p | p in out
      ensures p.createdUtc >= cutoff && p.fullText == p.title + " " + p.content && p.context == None
    {
      var i :| 0 <= i < |out| && out[i] == p;
      assert ix[i] in ix;
    }
  }

  /**
   * The inner loop, over the hits returned for one keyword: skip a hit when its URL is in
   * `seen` or it is older than the cutoff; otherwise record the URL and append the post.
   * `before` is the stream of hits of the keywords already searched.
   */
  method CollectBatch(results: seq<SearchResult>, cutoff: int, raw0: seq<Post>, seen0: set<string>,
                      ghost before: seq<SearchResult>)
    returns (raw: seq<Post>, seen: set<string>)
    requires raw0 == Dedup(before, cutoff) && seen0 == Urls(raw0)
    ensures raw == Dedup(before + results, cutoff) && seen == Urls(raw)
  {
    raw, seen := raw0, seen0;
    assert before + results[..0] == before;
    for j := 0 to |results|
      invariant seen == Urls(raw)
      invariant raw == Dedup(before + results[..j], cutoff)
    {
      var post := results[j];
      var url := Url(post.permalink);
      assert before + results[..j + 1] == (before + results[..j]) + [post];
      DedupStep(before + results[..j], post, cutoff);
      if url in seen || post.createdUtc < cutoff {
        continue;
      }
      seen := seen + {url};
      UrlsAppend(raw, ToPost(post));
      raw := raw + [ToPost(post)];
    }
    assert results[..|results|] == results;
  }

  /**
   * The loop of the search function over the keywords. `seen` and `raw` start empty and
   * persist across keywords.
   */
  method CollectRecent(batches: seq<seq<SearchResult>>, now: int, daysBack: int) returns (raw: seq<Post>)
    ensures raw == Dedup(Flatten(batches), Cutoff(now, daysBack))
    ensures UniqueUrls(raw)
    ensures forall p :: p in raw ==> p.createdUtc >= Cutoff(now, daysBack)
  {
    raw := [];
    var cutoff := Cutoff(now, daysBack);
    var seen: set<string> := {};
    for i := 0 to |batches|
      invariant seen == Urls(raw)
      invariant raw == Dedup(Flatten(batches[..i]), cutoff)
    {
      raw, seen := CollectBatch(batches[i], cutoff, raw, seen, Flatten(batches[..i]));
      FlattenSnoc(batches, i);
    }
    assert batches[..|batches|] == batches;
    DedupUniqueUrls(Flatten(batches), cutoff);
    DedupRecentAndWellFormed(Flatten(batches), cutoff);
  }
}
