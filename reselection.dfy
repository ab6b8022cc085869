/** The selection across a merge. `merge_black_holes` shrinks the set of black
    holes but never touches `SimulationState`, so a selection that was in
    range before the merge can be past the end afterwards, and the next Delete
    indexes the query with it. */
module Reselection {
  import opened Bodies
  import opened Control
  import opened Merge

  /** Three black holes, the first two at one place and the third at least
      MergeDistance away from them. The scan schedules the first pair only, so
      once the commands are applied two black holes remain (three, minus two
      despawned, plus one replacement). A selection of 2, the third black hole,
      was in range before; kept as it is, it makes a Delete-only frame index
      past the end of the two survivors. */
  lemma MergeLeavesSelectionOutOfRange(p: Vec2, q: Vec2, a: real, b: real, c: real, eh: real -> real)
    requires DistanceSquared(p, q) >= MergeDistance * MergeDistance
    ensures var holes := [BlackHole(p, a, eh(a)), BlackHole(p, b, eh(b)), BlackHole(q, c, eh(c))];
      && Schedule(holes) == [MergeOf(holes, 0, 1)]
      && 2 < |holes|
      && |holes| - 2 * |Schedule(holes)| + |Schedule(holes)| == 2
    ensures var delete := Keys(false, false, false, true, false, false);
      && Deletes(2, delete)
      && !(SelectionAfterTab(2, 2, delete) < 2)
  {
    var holes := [BlackHole(p, a, eh(a)), BlackHole(p, b, eh(b)), BlackHole(q, c, eh(c))];
    assert DistanceSquared(p, p) == 0.0;
    assert !Close(holes[1], holes[2]) && !Close(holes[0], holes[2]);
    assert Row(holes, 2, 3) == [];
    assert Row(holes, 1, 3) == Row(holes, 1, 2) == [];
    assert Row(holes, 0, 2) == [MergeOf(holes, 0, 1)];
    assert Row(holes, 0, 3) == Row(holes, 0, 2);
    assert Rows(holes, 3) == Rows(holes, 2) + Row(holes, 2, 3);
    assert Rows(holes, 2) == Rows(holes, 1) + Row(holes, 1, 3);
  }

  /** Whatever the keys, once the selection is brought back into range of the
      survivors, the index Delete despawns is in range. */
  lemma ReselectedDeleteInRange(selected: nat, count: nat, keys: Keys)
    ensures Deletes(count, keys) ==> SelectionAfterTab(SelectionAfterMerge(selected, count), count, keys) < count
    ensures selected < count ==> SelectionAfterMerge(selected, count) == selected
  {
  }

  /** A frame of input after a merge has left `survivors`: the selection is
      first brought back into range, after which `handle_input` can run with
      any keys and leaves a selection in range of its own result. */
  method InputAfterMerge(state: SimulationState, survivors: seq<BlackHole>, keys: Keys, spawnAt: Vec2, eh: real -> real) returns (holes': seq<BlackHole>)
    requires state.Valid()
    modifies state
    ensures state.Valid()
    ensures |survivors| > 0 ==> state.selected < |holes'|
    ensures holes' == HolesAfterInput(survivors, SelectionAfterMerge(old(state.selected), |survivors|), keys, spawnAt, eh)
  {
    state.Reselect(|survivors|);
    ReselectedDeleteInRange(old(state.selected), |survivors|, keys);
    holes' := state.HandleInput(keys, spawnAt, survivors, eh);
  }
}
