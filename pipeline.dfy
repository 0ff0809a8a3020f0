/**
 * The whole keyword search: collect the recent, deduplicated hits of every keyword, score
 * each post's full text against the keywords, keep the posts above the threshold and label them.
 */
module Pipeline {
  import opened Posts
  import opened Deduplication
  import opened Relevance

  /**
   * The similarity matrix, one row per post: `similarity` gives the cosine similarities of a
   * text's embedding with each keyword's embedding.
   */
  function ScoreMatrix(raw: seq<Post>, similarity: string -> seq<real>): seq<seq<real>>
  {
    seq(|raw|, i requires 0 <= i < |raw| => similarity(raw[i].fullText))
  }

  /** Reference definition of the search: stage one, then stage two on its output. */
  function Search(batches: seq<seq<SearchResult>>, now: int, daysBack: int,
                  similarity: string -> seq<real>, classify: string -> Context): seq<Post>
  {
    var raw := Dedup(Flatten(batches), Cutoff(now, daysBack));
    Relevant(raw, ScoreMatrix(raw, similarity), classify)
  }

  /**
   * What the search promises of every post it returns: distinct URLs, no older than the cutoff,
   * full text built from title and content, a similarity strictly above the threshold to some keyword,
   * and a context label that is the classifier's answer on the full text.
   */
  lemma SearchResultsAreRelevant(batches: seq<seq<SearchResult>>, now: int, daysBack: int,
                                 similarity: string -> seq<real>, classify: string -> Context)
    ensures var out := Search(batches, now, daysBack, similarity, classify);
      && UniqueUrls(out)
      && forall p :: p in out ==>
           && p.createdUtc >= Cutoff(now, daysBack)
           && p.fullText == p.title + " " + p.content
           && p.context == Some(classify(p.fullText))
           && exists j :: 0 <= j < |similarity(p.fullText)| && similarity(p.fullText)[j] > Threshold
  {
    var cutoff := Cutoff(now, daysBack);
    var raw := Dedup(Flatten(batches), cutoff);
    var scores := ScoreMatrix(raw, similarity);
    var out := Relevant(raw, scores, classify);
    DedupUniqueUrls(Flatten(batches), cutoff);
    DedupRecentAndWellFormed(Flatten(batches), cutoff);
    RelevantKeepsUniqueUrls(raw, scores, classify);
    RelevantKeepsPassingRows(raw, scores, classify);
    var ix := RelevantPositions(raw, scores);
    forall p | p in out
      ensures && p.createdUtc >= cutoff
              && p.fullText == p.title + " " + p.content
              && p.context == Some(classify(p.fullText))
              && exists j :: 0 <= j < |similarity(p.fullText)| && similarity(p.fullText)[j] > Threshold
    {
      var i :| 0 <= i < |out| && out[i] == p;
      var k := ix[i];
      assert k in ix;
      assert raw[k] in raw;
      assert IsRelevant(similarity(raw[k].fullText));
    }
  }

  /**
   * `search_reddit_by_keywords`: `batches[i]` holds the hits returned for the `i`-th keyword,
   * `now` is the current time in seconds, `similarity` stands for the embedding model with the
   * keyword embeddings and `classify` for the context classifier.
   */
  method SearchRedditByKeywords(batches: seq<seq<SearchResult>>, now: int, daysBack: int,
                                similarity: string -> seq<real>, classify: string -> Context)
    returns (relevant: seq<Post>)
    ensures relevant == Search(batches, now, daysBack, similarity, classify)
    ensures UniqueUrls(relevant)
    ensures forall p :: p in relevant ==>
      && p.createdUtc >= Cutoff(now, daysBack)
      && p.context == Some(classify(p.fullText))
      && exists j :: 0 <= j < |similarity(p.fullText)| && similarity(p.fullText)[j] > Threshold
  {
    var raw := CollectRecent(batches, now, daysBack);
    var scores := ScoreMatrix(raw, similarity);
    ghost var asked;
    relevant, asked := SelectRelevant(raw, scores, classify);
    SearchResultsAreRelevant(batches, now, daysBack, similarity, classify);
  }

  /** A post returned for two keywords is kept once, as first returned. */
  lemma DuplicateAcrossKeywordsKeptOnce(r: SearchResult, r': SearchResult, cutoff: int)
    requires r.permalink == r'.permalink
    requires IsRecent(r, cutoff)
    ensures Dedup(Flatten([[r], [r']]), cutoff) == [ToPost(r)]
  {
    var b := [[r], [r']];
    assert b[..0] == [] && b[..2] == b;
    FlattenSnoc(b, 0);
    FlattenSnoc(b, 1);
    assert Flatten(b) == [r] + [r'];
    DedupStep([], r, cutoff);
    assert [] + [r] == [r];
    UrlsAppend([], ToPost(r));
    DedupStep([r], r', cutoff);
  }

  /** A hit exactly at the cutoff is kept; one a second older is dropped. */
  lemma CutoffIsInclusive(r: SearchResult, now: int, daysBack: int)
    ensures r.createdUtc == Cutoff(now, daysBack) ==> Dedup([r], Cutoff(now, daysBack)) == [ToPost(r)]
    ensures r.createdUtc == Cutoff(now, daysBack) - 1 ==> Dedup([r], Cutoff(now, daysBack)) == []
  {
    assert [r][..0] == [];
  }

  /** A hit older than the cutoff is not returned, whatever its similarity to the keywords. */
  lemma OldHitNeverReturned(r: SearchResult, now: int, daysBack: int,
                            similarity: string -> seq<real>, classify: string -> Context)
    requires r.createdUtc < Cutoff(now, daysBack)
    ensures Search([[r]], now, daysBack, similarity, classify) == []
  {
    var b := [[r]];
    assert b[..0] == [] && b[..1] == b;
    FlattenSnoc(b, 0);
    DedupStep([], r, Cutoff(now, daysBack));
    assert [] + [r] == [r];
  }
}
