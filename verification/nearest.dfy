/** The coarse charge levels a discharging battery is shown at, and the
    choice of the level nearest to the current percentage. */
module Nearest {

  /** The levels, in the order the choice scans them. */
  const Buckets: seq<nat> := [10, 25, 50, 80, 100]

  function Abs(x: real): (a: real)
    ensures a >= 0.0 && (a == x || a == -x)
  {
    if x < 0.0 then -x else x
  }

  /** How far level `b` is from percentage `p`: the key the choice minimises. */
  function Distance(b: nat, p: real): real {
    Abs(b as real - p)
  }

  /** `k` is the index Python's `min(cands, key=...)` returns: its key is
      minimal, and every candidate before it has a strictly larger key, since
      `min` replaces its running best only on a strictly smaller key. */
  predicate IsFirstNearest(cands: seq<nat>, p: real, k: nat) {
    && k < |cands|
    && (forall j :: 0 <= j < |cands| ==> Distance(cands[k], p) <= Distance(cands[j], p))
    && (forall j :: 0 <= j < k ==> Distance(cands[k], p) < Distance(cands[j], p))
  }

  /** One step of `min`'s scan: `best` is the running answer over the
      candidates before `i`. */
  function ScanFrom(cands: seq<nat>, p: real, i: nat, best: nat): (k: nat)
    requires best < i <= |cands|
    requires forall j :: 0 <= j < i ==> Distance(cands[best], p) <= Distance(cands[j], p)
    requires forall j :: 0 <= j < best ==> Distance(cands[best], p) < Distance(cands[j], p)
    ensures IsFirstNearest(cands, p, k)
    decreases |cands| - i
  {
    if i == |cands| then best
    else if Distance(cands[i], p) < Distance(cands[best], p) then ScanFrom(cands, p, i + 1, i)
    else ScanFrom(cands, p, i + 1, best)
  }

  /** The index of the first candidate nearest to `p`. */
  function FirstNearest(cands: seq<nat>, p: real): (k: nat)
    requires cands != []
    ensures IsFirstNearest(cands, p, k)
  {
    ScanFrom(cands, p, 1, 0)
  }

  /** "First nearest" pins down a single index. */
  lemma FirstNearestUnique(cands: seq<nat>, p: real, k: nat, k': nat)
    requires IsFirstNearest(cands, p, k) && IsFirstNearest(cands, p, k')
    ensures k == k'
  {
    var d, d' := Distance(cands[k], p), Distance(cands[k'], p);
    assert d <= d' && d' <= d;
    assert k < k' ==> d' < d;
    assert k' < k ==> d < d';
  }

  predicate Ascending(cands: seq<nat>) {
    forall a, b :: 0 <= a < b < |cands| ==> cands[a] < cands[b]
  }

  /** Each candidate above its predecessor is enough for the whole sequence to ascend. */
  lemma {:induction false} StepsAscend(cands: seq<nat>)
    requires forall a :: 0 < a < |cands| ==> cands[a - 1] < cands[a]
    ensures Ascending(cands)
    decreases |cands|
  {
    if |cands| > 1 {
      var init := cands[..|cands| - 1];
      assert forall a :: 0 < a < |init| ==> init[a - 1] < init[a];
      StepsAscend(init);
      forall a, b | 0 <= a < b < |cands| ensures cands[a] < cands[b] {
        if b < |cands| - 1 {
          assert init[a] < init[b];
        } else if a < b - 1 {
          assert init[a] < init[b - 1];
        }
      }
    }
  }

  /** On candidates in ascending order, a tie between equally near
      candidates goes to the lowest of them. */
  lemma TieGoesLower(cands: seq<nat>, p: real, j: nat)
    requires Ascending(cands)
    requires j < |cands|
    requires cands != [] && Distance(cands[j], p) == Distance(cands[FirstNearest(cands, p)], p)
    ensures cands[FirstNearest(cands, p)] <= cands[j]
  {
  }

  /** The level shown for percentage `p`: the nearest one, the lower one on a tie. */
  function Bucket(p: real): (b: nat)
    ensures b in Buckets
    ensures forall j :: 0 <= j < |Buckets| ==> Distance(b, p) <= Distance(Buckets[j], p)
    ensures forall j :: 0 <= j < |Buckets| && Distance(Buckets[j], p) == Distance(b, p) ==> b <= Buckets[j]
  {
    var k := FirstNearest(Buckets, p);
    StepsAscend(Buckets);
    forall j | 0 <= j < |Buckets| && Distance(Buckets[j], p) == Distance(Buckets[k], p)
      ensures Buckets[k] <= Buckets[j]
    {
      TieGoesLower(Buckets, p, j);
    }
    Buckets[k]
  }

  /** The same choice by midpoints: each boundary sits halfway between two
      neighbouring levels, and a percentage exactly on it takes the lower level. */
  function ByMidpoints(p: real): nat {
    if p <= 17.5 then 10
    else if p <= 37.5 then 25
    else if p <= 65.0 then 50
    else if p <= 90.0 then 80
    else 100
  }

  /** The scan and the midpoint rule agree everywhere. */
  lemma BucketByMidpoints(p: real)
    ensures Bucket(p) == ByMidpoints(p)
  {
    var b := Bucket(p);
    assert Distance(b, p) <= Distance(Buckets[0], p);
    assert Distance(b, p) <= Distance(Buckets[1], p);
    assert Distance(b, p) <= Distance(Buckets[2], p);
    assert Distance(b, p) <= Distance(Buckets[3], p);
    assert Distance(b, p) <= Distance(Buckets[4], p);
  }

  /** The worked cases: 62 is nearer 50; 65 ties between 50 and 80 and
      takes 50; 90 ties between 80 and 100 and takes 80. */
  lemma BucketExamples()
    ensures Bucket(62.0) == 50
    ensures Bucket(65.0) == 50
    ensures Bucket(90.0) == 80
    ensures Bucket(5.0) == 10
  {
    BucketByMidpoints(62.0);
    BucketByMidpoints(65.0);
    BucketByMidpoints(90.0);
    BucketByMidpoints(5.0);
  }
}
