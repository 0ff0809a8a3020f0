/** Stage two of the keyword search: keep the posts similar enough to some keyword, and label them. */
module Relevance {
  import opened Posts
  import opened Subsequence

  /**
   * A post is relevant when some cosine similarity is strictly above this. The scores are
   * float32 tensor elements and the comparison with the literal `0.6` runs in float32, so the
   * literal is rounded first: this is float32(0.6), exactly 5033165 / 2^23.
   */
  const Threshold: real := 0.60000002384185791015625

  /** The `any(score > 0.6 ...)` test over one post's row of the similarity matrix. */
  function IsRelevant(row: seq<real>): (r: bool)
    ensures r <==> exists j :: 0 <= j < |row| && row[j] > Threshold
    decreases |row|
  {
    if row == [] then false
    else row[0] > Threshold || IsRelevant(row[1..])
  }

  /** The largest similarity of a non-empty row. */
  function MaxScore(row: seq<real>): (m: real)
    requires row != []
    ensures m in row
    ensures forall j :: 0 <= j < |row| ==> row[j] <= m
    decreases |row|
  {
    if |row| == 1 then row[0]
    else
      var rest := MaxScore(row[1..]);
      if row[0] >= rest then row[0] else rest
  }

  /**
   * The boundary in float32 terms: a score equal to float32(0.6) fails the test, and the next
   * float32 above it, 10066331 / 2^24, passes.
   */
  lemma ThresholdIsFloat32Boundary(row: seq<real>)
    requires forall j :: 0 <= j < |row| ==> row[j] <= 0.60000002384185791015625
    ensures !IsRelevant(row)
    ensures IsRelevant(row + [0.600000083446502685546875])
  {
    assert (row + [0.600000083446502685546875])[|row|] > Threshold;
  }

  /** The threshold test is a test on the row's maximum; a maximum equal to the threshold fails it. */
  lemma RelevantIffMaxAboveThreshold(row: seq<real>)
    requires row != []
    ensures IsRelevant(row) <==> MaxScore(row) > Threshold
  {
    if MaxScore(row) > Threshold {
      var j :| 0 <= j < |row| && row[j] == MaxScore(row);
    }
  }

  /** The post with its context label set from the classifier's answer on its full text. */
  function Labelled(p: Post, classify: string -> Context): Post
  {
    p.(context := Some(classify(p.fullText)))
  }

  /**
   * Reference definition of the threshold loop over `raw` with its matrix rows `scores`:
   * each post, in order, is labelled and appended when its row passes the test.
   */
  function Relevant(raw: seq<Post>, scores: seq<seq<real>>, classify: string -> Context): seq<Post>
    requires |raw| <= |scores|
    decreases |raw|
  {
    if raw == [] then []
    else
      var n := |raw| - 1;
      var kept := Relevant(raw[..n], scores, classify);
      if IsRelevant(scores[n]) then kept + [Labelled(raw[n], classify)] else kept
  }

  ghost function RelevanceMask(raw: seq<Post>, scores: seq<seq<real>>): (mask: seq<bool>)
    requires |raw| <= |scores|
    ensures |mask| == |raw|
    ensures forall k :: 0 <= k < |raw| ==> mask[k] == IsRelevant(scores[k])
  {
    seq(|raw|, k requires 0 <= k < |raw| => IsRelevant(scores[k]))
  }

  /** The positions of `raw` whose posts end up in `relevant_posts`. */
  ghost function RelevantPositions(raw: seq<Post>, scores: seq<seq<real>>): seq<nat>
    requires |raw| <= |scores|
  {
    Select(RelevanceMask(raw, scores))
  }

  lemma RelevantSnoc(raw: seq<Post>, scores: seq<seq<real>>, classify: string -> Context)
    requires raw != [] && |raw| <= |scores|
    ensures var n := |raw| - 1;
      && RelevantPositions(raw, scores)
         == RelevantPositions(raw[..n], scores) + (if IsRelevant(scores[n]) then [n] else [])
  {
    var n := |raw| - 1;
    assert RelevanceMask(raw, scores) == RelevanceMask(raw[..n], scores) + [IsRelevant(scores[n])];
    SelectSnoc(RelevanceMask(raw[..n], scores), IsRelevant(scores[n]));
  }

  /**
   * The stage keeps, in order, exactly the posts whose row has a score above the threshold,
   * and changes nothing about a kept post but its context, which is the classifier's label
   * of its full text.
   */
  lemma {:induction false} RelevantKeepsPassingRows(raw: seq<Post>, scores: seq<seq<real>>, classify: string -> Context)
    requires |raw| <= |scores|
    ensures var ix := RelevantPositions(raw, scores);
      && Increasing(ix)
      && (forall k :: 0 <= k < |raw| ==> (k in ix <==> IsRelevant(scores[k])))
      && |Relevant(raw, scores, classify)| == |ix|
      && forall i :: 0 <= i < |ix| ==>
           ix[i] < |raw| && Relevant(raw, scores, classify)[i] == Labelled(raw[ix[i]], classify)
    decreases |raw|
  {
    if raw != [] {
      var n := |raw| - 1;
      var p := raw[..n];
      RelevantKeepsPassingRows(p, scores, classify);
      RelevantSnoc(raw, scores, classify);
      var ixp, ix := RelevantPositions(p, scores), RelevantPositions(raw, scores);
      var out := Relevant(raw, scores, classify);
      forall i | 0 <= i < |ix| ensures ix[i] < |raw| && out[i] == Labelled(raw[ix[i]], classify) {
        if i < |ixp| {
          assert p[ixp[i]] == raw[ixp[i]];
        }
      }
    }
  }

  /**
   * Soundness both ways: every kept post has a score strictly above the threshold in its row,
   * and every post left out has all its scores at or below it.
   */
  lemma RelevantSoundAndComplete(raw: seq<Post>, scores: seq<seq<real>>, classify: string -> Context)
    requires |raw| <= |scores|
    ensures forall k :: k in RelevantPositions(raw, scores) ==>
      k < |raw| && exists j :: 0 <= j < |scores[k]| && scores[k][j] > Threshold
    ensures forall k :: 0 <= k < |raw| && k !in RelevantPositions(raw, scores) ==>
      forall j :: 0 <= j < |scores[k]| ==> scores[k][j] <= Threshold
  {
    RelevantKeepsPassingRows(raw, scores, classify);
    forall k | k in RelevantPositions(raw, scores)
      ensures k < |raw| && exists j :: 0 <= j < |scores[k]| && scores[k][j] > Threshold
    {
      assert IsRelevant(scores[k]);
    }
  }

  /** Keeping a subsequence and relabelling keeps the URLs pairwise distinct. */
  lemma RelevantKeepsUniqueUrls(raw: seq<Post>, scores: seq<seq<real>>, classify: string -> Context)
    requires |raw| <= |scores|
    requires UniqueUrls(raw)
    ensures UniqueUrls(Relevant(raw, scores, classify))
  {
    RelevantKeepsPassingRows(raw, scores, classify);
    var ix := RelevantPositions(raw, scores);
    var out := Relevant(raw, scores, classify);
    forall i, j | 0 <= i < j < |out| ensures out[i].url != out[j].url {
      assert ix[i] < ix[j];
    }
  }

  /**
   * The threshold loop: for each post of `raw` in order, when its row passes the test, the
   * classifier is asked for its full text and the labelled post is appended. `asked` records
   * the classifier's inputs: one call per kept post, on that post's text, and no other call.
   */
  method SelectRelevant(raw: seq<Post>, scores: seq<seq<real>>, classify: string -> Context)
    returns (relevant: seq<Post>, ghost asked: seq<string>)
    requires |raw| <= |scores|
    ensures relevant == Relevant(raw, scores, classify)
    ensures |asked| == |relevant|
    ensures forall i :: 0 <= i < |relevant| ==>
      asked[i] == relevant[i].fullText && relevant[i].context == Some(classify(asked[i]))
  {
    relevant, asked := [], [];
    for idx := 0 to |raw|
      invariant relevant == Relevant(raw[..idx], scores, classify)
      invariant |asked| == |relevant|
      invariant forall i :: 0 <= i < |relevant| ==>
        asked[i] == relevant[i].fullText && relevant[i].context == Some(classify(asked[i]))
    {
      var post := raw[idx];
      var similarities := scores[idx];
      assert raw[..idx + 1][..idx] == raw[..idx];
      if IsRelevant(similarities) {
        asked := asked + [post.fullText];
        var context := classify(post.fullText);
        relevant := relevant + [post.(context := Some(context))];
      }
    }
    assert raw[..|raw|] == raw;
  }
}
