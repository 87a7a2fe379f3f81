/** The byte limit on an upload stream. */
module SizeLimit {

  type Chunk = seq<bv8>

  datatype Passed = Forward(chunk: Chunk) | TooLarge(seen: nat, max: int)

  function Total(chunks: seq<Chunk>): nat {
    if chunks == [] then 0 else Total(chunks[..|chunks| - 1]) + |chunks[|chunks| - 1]|
  }

  class SizeCountingTransform {
    const max: int
    var seen: nat

    constructor (max: int)
      ensures this.max == max && seen == 0
    {
      this.max, seen := max, 0;
    }

    method Transform(chunk: Chunk) returns (r: Passed)
      modifies this
      ensures seen == old(seen) + |chunk|
      ensures r == if seen > max then TooLarge(seen, max) else Forward(chunk)
    {
      seen := seen + |chunk|;
      if seen > max {
        return TooLarge(seen, max);
      }
      return Forward(chunk);
    }
  }

  /** What the filter answers to the chunk at `i`, as a function of the chunks
      so far. */
  function Answer(chunks: seq<Chunk>, max: int, i: nat): Passed
    requires i < |chunks|
  {
    if Total(chunks[..i + 1]) > max then TooLarge(Total(chunks[..i + 1]), max) else Forward(chunks[i])
  }

  /** Feeding a stream to a fresh filter, chunk by chunk, for as long as it is
      fed. */
  method Feed(chunks: seq<Chunk>, max: int) returns (answers: seq<Passed>)
    ensures |answers| == |chunks|
    ensures forall i :: 0 <= i < |chunks| ==> answers[i] == Answer(chunks, max, i)
  {
    var t := new SizeCountingTransform(max);
    answers := [];
    for i := 0 to |chunks|
      invariant t.max == max && t.seen == Total(chunks[..i])
      invariant |answers| == i
      invariant forall j :: 0 <= j < i ==> answers[j] == Answer(chunks, max, j)
    {
      assert chunks[..i + 1][..i] == chunks[..i];
      var r := t.Transform(chunks[i]);
      answers := answers + [r];
    }
    assert chunks[..|chunks|] == chunks;
  }

  lemma {:induction false} TotalGrows(chunks: seq<Chunk>, i: nat, j: nat)
    requires i <= j <= |chunks|
    ensures Total(chunks[..i]) <= Total(chunks[..j])
    decreases j
  {
    if i < j {
      assert chunks[..j][..j - 1] == chunks[..j - 1];
      TotalGrows(chunks, i, j - 1);
    }
  }

  /** How many chunks are forwarded: all those before the first refusal. */
  function Forwarded(chunks: seq<Chunk>, max: int): nat {
    if chunks == [] then 0
    else
      var front := Forwarded(chunks[..|chunks| - 1], max);
      if front == |chunks| - 1 && Total(chunks) <= max then |chunks| else front
  }

  /** The cut: what is forwarded fits, one chunk more does not. */
  lemma {:induction false} ForwardedCut(chunks: seq<Chunk>, max: int)
    ensures var k := Forwarded(chunks, max);
            && k <= |chunks|
            && (k > 0 ==> Total(chunks[..k]) <= max)
            && (k < |chunks| ==> Total(chunks[..k + 1]) > max)
    decreases |chunks|
  {
    if chunks != [] {
      var n, front := |chunks|, chunks[..|chunks| - 1];
      var k := Forwarded(front, max);
      ForwardedCut(front, max);
      assert chunks[..n] == chunks && front[..k] == chunks[..k];
      if k < n - 1 {
        assert front[..k + 1] == chunks[..k + 1];
      }
    }
  }

  /** Conservation and limit: the chunks forwarded are exactly the longest prefix
      within the limit, each unchanged and in order; one chunk refused means
      every later chunk refused; and a chunk is refused exactly when the stream's
      total exceeds the limit. */
  lemma ForwardsLongestPrefix(chunks: seq<Chunk>, max: int)
    ensures var k := Forwarded(chunks, max);
            && k <= |chunks|
            && (forall i: nat :: i < |chunks| ==>
                  Answer(chunks, max, i) == if i < k then Forward(chunks[i]) else TooLarge(Total(chunks[..i + 1]), max))
            && (k > 0 ==> Total(chunks[..k]) <= max)
            && (forall j :: k < j <= |chunks| ==> Total(chunks[..j]) > max)
            && (k < |chunks| <==> chunks != [] && Total(chunks) > max)
  {
    var k := Forwarded(chunks, max);
    ForwardedCut(chunks, max);
    forall j | k < j <= |chunks| ensures Total(chunks[..j]) > max {
      TotalGrows(chunks, k + 1, j);
    }
    forall i | 1 <= i <= k ensures Total(chunks[..i]) <= max {
      TotalGrows(chunks, i, k);
    }
    assert chunks[..|chunks|] == chunks;
  }
}
