/**
 The batcher of `LensFlarePass.render`: the activity filter, the slicing of
 the filtered flares into windows of at most four, and the padding of the
 two four-slot uniform arrays that carry a batch to the shaders.
 */
module Batching {
  import opened Common
  import opened Flares

  /** Width of a batch: one flare per RGBA channel of the coverage target. */
  const BatchWidth: nat := 4

  /** `flares.filter(flare => flare.enabled && flare.visible && flare.opacity > 0)`. */
  function Filter(fs: seq<Flare>): (r: seq<Flare>)
    ensures |r| <= |fs|
    ensures forall i :: 0 <= i < |r| ==> Active(r[i])
  {
    if |fs| == 0 then []
    else if Active(fs[0]) then [fs[0]] + Filter(fs[1..])
    else Filter(fs[1..])
  }

  /** A flare survives the filter exactly when it is in the registry and active. */
  lemma {:induction false} FilterMembership(fs: seq<Flare>, f: Flare)
    ensures f in Filter(fs) <==> f in fs && Active(f)
  {
    if |fs| > 0 {
      FilterMembership(fs[1..], f);
      assert fs == [fs[0]] + fs[1..];
    }
  }

  /** Filtering distributes over concatenation, so registry order is kept. */
  lemma {:induction false} FilterAppend(a: seq<Flare>, b: seq<Flare>)
    ensures Filter(a + b) == Filter(a) + Filter(b)
  {
    if |a| == 0 {
      assert a + b == b;
    } else {
      assert (a + b)[1..] == a[1..] + b;
      FilterAppend(a[1..], b);
    }
  }

  /** Projection leaves the activity flags alone, so projecting before or after filtering agrees. */
  lemma {:induction false} FilterProjectCommute(fs: seq<Flare>, ndcOf: Vec3 -> Vec3)
    ensures Filter(ProjectAll(fs, ndcOf)) == ProjectAll(Filter(fs), ndcOf)
  {
    if |fs| > 0 {
      assert ProjectAll(fs, ndcOf)[1..] == ProjectAll(fs[1..], ndcOf);
      FilterProjectCommute(fs[1..], ndcOf);
      if Active(fs[0]) {
        assert ProjectAll(Filter(fs), ndcOf) == [Project(fs[0], ndcOf)] + ProjectAll(Filter(fs[1..]), ndcOf);
      }
    }
  }

  /** Number of loop iterations of `for (i = 0; i < n; i += 4)`: ceil(n / 4). */
  function NumBatches(n: nat): nat {
    (n + BatchWidth - 1) / BatchWidth
  }

  /** End index of `slice(i, i + 4)`, which stops at the end of the array. */
  function WindowEnd(n: nat, i: nat): nat {
    if i + BatchWidth <= n then i + BatchWidth else n
  }

  /** The batches produced from loop index `i` onwards. */
  function BatchesFrom(s: seq<Flare>, i: nat): (bs: seq<seq<Flare>>)
    requires i <= |s|
    ensures |bs| == NumBatches(|s| - i)
    ensures forall k :: 0 <= k < |bs| ==> i + BatchWidth * k < |s|
    ensures forall k :: 0 <= k < |bs| ==>
      bs[k] == s[i + BatchWidth * k .. WindowEnd(|s|, i + BatchWidth * k)]
    decreases |s| - i
  {
    if i == |s| then []
    else [s[i .. WindowEnd(|s|, i)]] + BatchesFrom(s, WindowEnd(|s|, i))
  }

  /** The batches of one frame. */
  function Batches(s: seq<Flare>): seq<seq<Flare>> {
    BatchesFrom(s, 0)
  }

  /** Concatenation of a sequence of batches. */
  function Flatten(bs: seq<seq<Flare>>): seq<Flare> {
    if |bs| == 0 then [] else bs[0] + Flatten(bs[1..])
  }

  /** Every batch holds one to four flares and all but the last hold exactly four. */
  lemma BatchSizes(s: seq<Flare>)
    ensures forall k :: 0 <= k < |Batches(s)| ==> 1 <= |Batches(s)[k]| <= BatchWidth
    ensures forall k :: 0 <= k && k + 1 < |Batches(s)| ==> |Batches(s)[k]| == BatchWidth
  {
    var bs := Batches(s);
    forall k | 0 <= k && k + 1 < |bs|
      ensures |bs[k]| == BatchWidth
    {
      assert BatchWidth * (k + 1) < |s|;
    }
  }

  lemma {:induction false} FlattenBatchesFrom(s: seq<Flare>, i: nat)
    requires i <= |s|
    ensures Flatten(BatchesFrom(s, i)) == s[i..]
    decreases |s| - i
  {
    if i < |s| {
      var e := WindowEnd(|s|, i);
      var bs := BatchesFrom(s, i);
      assert bs[1..] == BatchesFrom(s, e);
      FlattenBatchesFrom(s, e);
      assert s[i..] == s[i..e] + s[e..];
    }
  }

  /** The batches, concatenated, give back the filtered list in its original order. */
  lemma BatchesPartition(s: seq<Flare>)
    ensures Flatten(Batches(s)) == s
  {
    FlattenBatchesFrom(s, 0);
  }

  /** The scenario of ten active flares: three batches of four, four and two. */
  lemma TenActiveFlares(fs: seq<Flare>)
    requires |Filter(fs)| == 10
    ensures |Batches(Filter(fs))| == 3
    ensures |Batches(Filter(fs))[0]| == 4 && |Batches(Filter(fs))[1]| == 4 && |Batches(Filter(fs))[2]| == 2
  {
  }

  /** Slot `j` of the coverage pass's `lensPosition` array: the flare's world
      position, or the zero vector in a padding slot. */
  function PaddedPositions(batch: seq<Flare>): seq<Vec3>
  {
    seq(BatchWidth, j requires 0 <= j < BatchWidth => if j < |batch| then batch[j].position else Origin)
  }

  /** Slot `j` of the flare pass's `flare` array: the flare, or the dummy flare. */
  function PaddedFlares(batch: seq<Flare>): seq<Flare>
  {
    seq(BatchWidth, j requires 0 <= j < BatchWidth => if j < |batch| then batch[j] else DefaultFlare)
  }

  /** Slot `j` of the flare pass's `lensPosition` array: the screen position, or zero. */
  function PaddedLens(batch: seq<Flare>): seq<Vec3>
  {
    seq(BatchWidth, j requires 0 <= j < BatchWidth => if j < |batch| then batch[j].lensPosition else Origin)
  }

  /** Fills the coverage pass's uniform array as `render` does: the batch's
      positions by index, then the zero vector in every remaining slot. The
      previous batch's values (`stale`) never survive. */
  method CoverageUniforms(stale: seq<Vec3>, batch: seq<Flare>) returns (slots: seq<Vec3>)
    requires |stale| == BatchWidth && |batch| <= BatchWidth
    ensures slots == PaddedPositions(batch)
  {
    slots := stale;
    var index := 0;
    while index < |batch|
      invariant index <= |batch| && |slots| == BatchWidth
      invariant forall j :: 0 <= j < index ==> slots[j] == batch[j].position
    {
      slots := slots[index := batch[index].position];
      index := index + 1;
    }
    if |batch| < BatchWidth {
      var j := |batch|;
      while j < BatchWidth
        invariant |batch| <= j <= BatchWidth && |slots| == BatchWidth
        invariant forall m :: 0 <= m < |batch| ==> slots[m] == batch[m].position
        invariant forall m :: |batch| <= m < j ==> slots[m] == Origin
      {
        slots := slots[j := Origin];
        j := j + 1;
      }
    }
  }

  /** Fills the flare pass's uniforms as `render` does: each flare and its
      screen position by index, the dummy flare and the zero vector in every
      remaining slot, and `numFlares` set to the batch length. */
  method FlareUniforms(staleFlares: seq<Flare>, staleLens: seq<Vec3>, batch: seq<Flare>)
    returns (flareSlots: seq<Flare>, lensSlots: seq<Vec3>, numFlares: nat)
    requires |staleFlares| == BatchWidth && |staleLens| == BatchWidth && |batch| <= BatchWidth
    ensures flareSlots == PaddedFlares(batch) && lensSlots == PaddedLens(batch)
    ensures numFlares == |batch|
  {
    flareSlots, lensSlots := staleFlares, staleLens;
    var index := 0;
    while index < |batch|
      invariant index <= |batch| && |flareSlots| == BatchWidth && |lensSlots| == BatchWidth
      invariant forall j :: 0 <= j < index ==> flareSlots[j] == batch[j] && lensSlots[j] == batch[j].lensPosition
    {
      flareSlots := flareSlots[index := batch[index]];
      lensSlots := lensSlots[index := batch[index].lensPosition];
      index := index + 1;
    }
    if |batch| < BatchWidth {
      var j := |batch|;
      while j < BatchWidth
        invariant |batch| <= j <= BatchWidth && |flareSlots| == BatchWidth && |lensSlots| == BatchWidth
        invariant forall m :: 0 <= m < |batch| ==> flareSlots[m] == batch[m] && lensSlots[m] == batch[m].lensPosition
        invariant forall m :: |batch| <= m < j ==> flareSlots[m] == DefaultFlare && lensSlots[m] == Origin
      {
        flareSlots := flareSlots[j := DefaultFlare];
        lensSlots := lensSlots[j := Origin];
        j := j + 1;
      }
    }
    numFlares := |batch|;
  }
}
