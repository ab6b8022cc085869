/** `merge_black_holes`: every pair of black holes closer than MergeDistance
    is scheduled for a merge, and each scheduled merge despawns both black
    holes and spawns a replacement at their midpoint carrying their summed
    mass. The commands are returned as lists; the engine applies them after
    the system has run. */
module Merge {
  import opened Bodies

  const MergeDistance: real := 30.0

  function DistanceSquared(p: Vec2, q: Vec2): (r: real)
    ensures r >= 0.0
  {
    (p.x - q.x) * (p.x - q.x) + (p.y - q.y) * (p.y - q.y)
  }

  /** The merge test `distance < 30`, compared squared so that no square root
      is needed. */
  predicate Close(a: BlackHole, b: BlackHole)
  {
    DistanceSquared(a.pos, b.pos) < MergeDistance * MergeDistance
  }

  /** `(p + q) / 2`: the point halfway between `p` and `q`. */
  function Midpoint(p: Vec2, q: Vec2): (r: Vec2)
    ensures DistanceSquared(r, p) == DistanceSquared(r, q)
    ensures 4.0 * DistanceSquared(r, p) == DistanceSquared(p, q)
  {
    Vec2((p.x + q.x) / 2.0, (p.y + q.y) / 2.0)
  }

  /** One entry of `to_merge`: the two black holes (by query index), the
      position and the mass of the black hole that replaces them. */
  datatype Merge = Merge(first: nat, second: nat, pos: Vec2, mass: real)

  /** The entry the scan records for the pair `(i, j)`. */
  function MergeOf(holes: seq<BlackHole>, i: nat, j: nat): Merge
    requires i < j < |holes|
  {
    Merge(i, j, Midpoint(holes[i].pos, holes[j].pos), holes[i].mass + holes[j].mass)
  }

  /** The entries for the pairs `(i, j')` with `i < j' < j`, in order of `j'`. */
  function Row(holes: seq<BlackHole>, i: nat, j: nat): seq<Merge>
    requires i < j <= |holes|
    decreases j
  {
    if j == i + 1 then []
    else Row(holes, i, j - 1) + (if Close(holes[i], holes[j - 1]) then [MergeOf(holes, i, j - 1)] else [])
  }

  /** The entries for all pairs whose first index is below `i`, row by row. */
  function Rows(holes: seq<BlackHole>, i: nat): seq<Merge>
    requires i <= |holes|
  {
    if i == 0 then [] else Rows(holes, i - 1) + Row(holes, i - 1, |holes|)
  }

  /** The complete `to_merge` list. */
  function Schedule(holes: seq<BlackHole>): seq<Merge>
  {
    Rows(holes, |holes|)
  }

  /** The scan of `merge_black_holes`: pairs `i < j` in nested loops, each
      close pair appended to `to_merge`. */
  method CollectMerges(holes: seq<BlackHole>) returns (toMerge: seq<Merge>)
    ensures toMerge == Schedule(holes)
  {
    toMerge := [];
    for i := 0 to |holes|
      invariant toMerge == Rows(holes, i)
    {
      for j := i + 1 to |holes|
        invariant toMerge == Rows(holes, i) + Row(holes, i, j)
      {
        if DistanceSquared(holes[i].pos, holes[j].pos) < MergeDistance * MergeDistance {
          toMerge := toMerge + [Merge(i, j, Midpoint(holes[i].pos, holes[j].pos), holes[i].mass + holes[j].mass)];
        }
      }
    }
  }

  /** The black hole spawned for one entry: its position and mass, and the
      horizon derived from that mass. */
  function Replacement(m: Merge, eh: real -> real): (h: BlackHole)
    ensures h.pos == m.pos && h.mass == m.mass
    ensures HorizonMatchesMass(h, eh)
  {
    BlackHole(m.pos, m.mass, eh(m.mass))
  }

  /** `merge_black_holes` as the commands it issues: for each scheduled pair
      in order, despawn both black holes and spawn the replacement. A black
      hole in several pairs is despawned once per pair, and every pair spawns
      its own replacement. */
  method MergeBlackHoles(holes: seq<BlackHole>, eh: real -> real) returns (despawned: seq<nat>, spawned: seq<BlackHole>)
    ensures |spawned| == |Schedule(holes)| && |despawned| == 2 * |spawned|
    ensures forall k :: 0 <= k < |spawned| ==>
      && spawned[k] == Replacement(Schedule(holes)[k], eh)
      && despawned[2 * k] == Schedule(holes)[k].first
      && despawned[2 * k + 1] == Schedule(holes)[k].second
  {
    var toMerge := CollectMerges(holes);
    despawned, spawned := [], [];
    for k := 0 to |toMerge|
      invariant |spawned| == k && |despawned| == 2 * k
      invariant forall l :: 0 <= l < k ==>
        && spawned[l] == Replacement(toMerge[l], eh)
        && despawned[2 * l] == toMerge[l].first
        && despawned[2 * l + 1] == toMerge[l].second
    {
      var m := toMerge[k];
      despawned := despawned + [m.first, m.second];
      spawned := spawned + [BlackHole(m.pos, m.mass, eh(m.mass))];
    }
  }

  /** Strict lexicographic order on the pairs of two entries. */
  predicate Before(a: Merge, b: Merge)
  {
    a.first < b.first || (a.first == b.first && a.second < b.second)
  }

  /** Every entry of a row is a close pair `(i, j')` with `i < j' < j`,
      recorded as MergeOf records it. */
  lemma {:induction false} RowSound(holes: seq<BlackHole>, i: nat, j: nat, k: nat)
    requires i < j <= |holes| && k < |Row(holes, i, j)|
    ensures var m := Row(holes, i, j)[k];
      && m.first == i && i < m.second < j
      && Close(holes[i], holes[m.second])
      && m == MergeOf(holes, i, m.second)
    decreases j
  {
    if j > i + 1 && k < |Row(holes, i, j - 1)| {
      RowSound(holes, i, j - 1, k);
    }
  }

  lemma {:induction false} RowsSound(holes: seq<BlackHole>, i: nat, k: nat)
    requires i <= |holes| && k < |Rows(holes, i)|
    ensures var m := Rows(holes, i)[k];
      && m.first < m.second < |holes| && m.first < i
      && Close(holes[m.first], holes[m.second])
      && m == MergeOf(holes, m.first, m.second)
  {
    var prev := Rows(holes, i - 1);
    if k < |prev| {
      RowsSound(holes, i - 1, k);
    } else {
      RowSound(holes, i - 1, |holes|, k - |prev|);
    }
  }

  lemma {:induction false} RowComplete(holes: seq<BlackHole>, i: nat, j: nat, j': nat) returns (k: nat)
    requires i < j' < j <= |holes| && Close(holes[i], holes[j'])
    ensures k < |Row(holes, i, j)| && Row(holes, i, j)[k] == MergeOf(holes, i, j')
    decreases j
  {
    var prev := Row(holes, i, j - 1);
    var last := if Close(holes[i], holes[j - 1]) then [MergeOf(holes, i, j - 1)] else [];
    assert Row(holes, i, j) == prev + last;
    if j' < j - 1 {
      k := RowComplete(holes, i, j - 1, j');
      assert (prev + last)[k] == prev[k];
    } else {
      k := |prev|;
    }
  }

  lemma {:induction false} RowsComplete(holes: seq<BlackHole>, i: nat, i': nat, j': nat) returns (k: nat)
    requires i' < i <= |holes| && i' < j' < |holes| && Close(holes[i'], holes[j'])
    ensures k < |Rows(holes, i)| && Rows(holes, i)[k] == MergeOf(holes, i', j')
  {
    var prev, row := Rows(holes, i - 1), Row(holes, i - 1, |holes|);
    assert Rows(holes, i) == prev + row;
    if i' < i - 1 {
      k := RowsComplete(holes, i - 1, i', j');
      assert (prev + row)[k] == prev[k];
    } else {
      var r := RowComplete(holes, i', |holes|, j');
      k := |prev| + r;
      assert (prev + row)[k] == row[r];
    }
  }

  /** Every entry of the schedule is a close pair `i < j < n` carrying the
      midpoint and the summed mass. */
  lemma ScheduleSound(holes: seq<BlackHole>, k: nat)
    requires k < |Schedule(holes)|
    ensures var m := Schedule(holes)[k];
      && m.first < m.second < |holes|
      && Close(holes[m.first], holes[m.second])
      && m.pos == Midpoint(holes[m.first].pos, holes[m.second].pos)
      && m.mass == holes[m.first].mass + holes[m.second].mass
  {
    RowsSound(holes, |holes|, k);
  }

  /** A pair `i < j` is scheduled exactly when it is close. */
  lemma ScheduledIffClose(holes: seq<BlackHole>, i: nat, j: nat)
    requires i < j < |holes|
    ensures MergeOf(holes, i, j) in Schedule(holes) <==> Close(holes[i], holes[j])
  {
    if Close(holes[i], holes[j]) {
      var k := RowsComplete(holes, |holes|, i, j);
    } else if MergeOf(holes, i, j) in Schedule(holes) {
      var k :| 0 <= k < |Schedule(holes)| && Schedule(holes)[k] == MergeOf(holes, i, j);
      RowsSound(holes, |holes|, k);
    }
  }

  lemma {:induction false} RowOrdered(holes: seq<BlackHole>, i: nat, j: nat, k1: nat, k2: nat)
    requires i < j <= |holes| && k1 < k2 < |Row(holes, i, j)|
    ensures Row(holes, i, j)[k1].second < Row(holes, i, j)[k2].second
    decreases j
  {
    var prev := Row(holes, i, j - 1);
    if k2 < |prev| {
      RowOrdered(holes, i, j - 1, k1, k2);
    } else {
      RowSound(holes, i, j - 1, k1);
    }
  }

  lemma {:induction false} RowsOrdered(holes: seq<BlackHole>, i: nat, k1: nat, k2: nat)
    requires i <= |holes| && k1 < k2 < |Rows(holes, i)|
    ensures Before(Rows(holes, i)[k1], Rows(holes, i)[k2])
  {
    var prev, row := Rows(holes, i - 1), Row(holes, i - 1, |holes|);
    var all := Rows(holes, i);
    assert all == prev + row;
    if k2 < |prev| {
      RowsOrdered(holes, i - 1, k1, k2);
      assert all[k1] == prev[k1] && all[k2] == prev[k2];
    } else if k1 < |prev| {
      RowsSound(holes, i - 1, k1);
      RowSound(holes, i - 1, |holes|, k2 - |prev|);
      assert all[k1] == prev[k1] && all[k2] == row[k2 - |prev|];
    } else {
      RowOrdered(holes, i - 1, |holes|, k1 - |prev|, k2 - |prev|);
      RowSound(holes, i - 1, |holes|, k1 - |prev|);
      RowSound(holes, i - 1, |holes|, k2 - |prev|);
      assert all[k1] == row[k1 - |prev|] && all[k2] == row[k2 - |prev|];
    }
  }

  /** The schedule lists its pairs in strictly increasing lexicographic
      `(i, j)` order, so no pair appears twice. */
  lemma ScheduleOrdered(holes: seq<BlackHole>, k1: nat, k2: nat)
    requires k1 < k2 < |Schedule(holes)|
    ensures Before(Schedule(holes)[k1], Schedule(holes)[k2])
  {
    RowsOrdered(holes, |holes|, k1, k2);
  }

  lemma {:induction false} RowSize(holes: seq<BlackHole>, i: nat, j: nat)
    requires i < j <= |holes|
    ensures |Row(holes, i, j)| <= j - i - 1
    decreases j
  {
    if j > i + 1 {
      RowSize(holes, i, j - 1);
    }
  }

  lemma {:induction false} RowsSize(holes: seq<BlackHole>, i: nat)
    requires i <= |holes|
    ensures 2 * |Rows(holes, i)| <= i * (2 * |holes| - i - 1)
  {
    if i > 0 {
      var n := |holes|;
      RowsSize(holes, i - 1);
      RowSize(holes, i - 1, n);
      assert (i - 1) * (2 * n - (i - 1) - 1) + 2 * (n - i) == i * (2 * n - i - 1);
    }
  }

  /** At most `n (n - 1) / 2` merges are scheduled. */
  lemma ScheduleSize(holes: seq<BlackHole>)
    ensures 2 * |Schedule(holes)| <= |holes| * (|holes| - 1)
  {
    RowsSize(holes, |holes|);
  }

  /** The replacement for a scheduled pair carries their summed mass and sits
      halfway between them; when their masses are nonnegative its horizon is
      at least each of theirs under the horizon law. */
  lemma ReplacementOfPair(holes: seq<BlackHole>, i: nat, j: nat, eh: real -> real)
    requires i < j < |holes|
    requires IsHorizonLaw(eh) && 0.0 <= holes[i].mass && 0.0 <= holes[j].mass
    ensures var h := Replacement(MergeOf(holes, i, j), eh);
      && h.mass == holes[i].mass + holes[j].mass
      && 4.0 * DistanceSquared(h.pos, holes[i].pos) == DistanceSquared(holes[i].pos, holes[j].pos)
      && DistanceSquared(h.pos, holes[i].pos) == DistanceSquared(h.pos, holes[j].pos)
      && h.eventHorizon >= eh(holes[i].mass) && h.eventHorizon >= eh(holes[j].mass)
  {
    var sum := holes[i].mass + holes[j].mass;
    HorizonMonotone(eh, holes[i].mass, sum);
    HorizonMonotone(eh, holes[j].mass, sum);
  }

  /** Two black holes of masses 400 and 600 at the same place: exactly one
      merge is scheduled, at that place, and its replacement has mass 1000 and
      horizon 15. */
  lemma MergeOfTwoCoincident(p: Vec2, eh: real -> real)
    requires IsHorizonLaw(eh)
    ensures var holes := [BlackHole(p, 400.0, eh(400.0)), BlackHole(p, 600.0, eh(600.0))];
      && Schedule(holes) == [Merge(0, 1, p, 1000.0)]
      && Replacement(Schedule(holes)[0], eh) == BlackHole(p, 1000.0, 15.0)
  {
    var holes := [BlackHole(p, 400.0, eh(400.0)), BlackHole(p, 600.0, eh(600.0))];
    assert DistanceSquared(p, p) == 0.0;
    assert Row(holes, 1, 2) == [];
    assert Row(holes, 0, 2) == [MergeOf(holes, 0, 1)];
    assert Rows(holes, 2) == Rows(holes, 1) + Row(holes, 1, 2);
    HorizonAtReferenceMass(eh);
  }
}
