/** The discrete control layer: the `SimulationState` resource, what the
    keyboard does to it (`handle_input`), and what the cursor, the mouse button and the arrow
    keys do to the selected black hole (`update_black_holes`).

    Black holes are the sequence the systems see when they query them, in
    query order; an index into it is what `selected_black_hole` means. */
module Control {
  import opened Bodies

  datatype Option<T> = None | Some(value: T)

  /** What `handle_input` reads from the keyboard in one frame: the first four
      are `just_pressed`, the last two `pressed` (held). */
  datatype Keys = Keys(space: bool, n: bool, tab: bool, delete: bool, equal: bool, minus: bool)

  /** What `update_black_holes` reads in one frame: the cursor position (absent
      when the cursor is outside the window), the window height, and the held
      state of the left mouse button and the two arrow keys. */
  datatype Steering = Steering(cursor: Option<Vec2>, windowHeight: real, leftHeld: bool, upHeld: bool, downHeld: bool)

  const ParticleSizeStep: real := 0.1
  const MinParticleSize: real := 0.1
  const InitialParticleSize: real := 1.0
  /** Mass added per frame while ArrowUp is held. */
  const MassStep: real := 1.0
  /** Mass removed per frame while ArrowDown is held. */
  const MassDrop: real := 10.0
  const MinMass: real := 1.0

  /** Tab: the next black hole in query order, wrapping after the last one;
      with no black hole the selection is left alone. */
  function CycleSelection(selected: nat, count: nat): (r: nat)
    ensures count > 0 ==> r < count
    ensures count == 0 ==> r == selected
    ensures selected + 1 < count ==> r == selected + 1
    ensures selected + 1 == count ==> r == 0
  {
    if count > 0 then (selected + 1) % count else selected
  }

  /** The black holes left after the one at index `k` is despawned, with the
      others kept in their previous order (the model's query order; the
      engine's storage may move its last entity into the freed slot). */
  function RemoveAt<T>(s: seq<T>, k: nat): (r: seq<T>)
    requires k < |s|
    ensures |r| == |s| - 1
    ensures forall i :: 0 <= i < k ==> r[i] == s[i]
    ensures forall i :: k <= i < |r| ==> r[i] == s[i + 1]
    ensures multiset(r) + multiset{s[k]} == multiset(s)
  {
    assert s == s[..k] + [s[k]] + s[k + 1..];
    s[..k] + s[k + 1..]
  }

  /** Delete: `selected %= len - 1` for a collection of `len > 1` black holes.
      An in-range selection stays on the same index, which now names the
      black hole that followed the deleted one; the last index wraps to 0. */
  function SelectionAfterDelete(selected: nat, len: nat): (r: nat)
    requires len > 1
    ensures r < len - 1
    ensures selected < len - 1 ==> r == selected
    ensures selected == len - 1 ==> r == 0
  {
    selected % (len - 1)
  }

  /** In the model's order-keeping query order, the selection after Delete
      names the black hole that came right after the deleted one, or the first
      black hole when the last one was deleted. */
  lemma DeleteSelectsFollowing<T>(s: seq<T>, selected: nat)
    requires 1 < |s| && selected < |s|
    ensures RemoveAt(s, selected)[SelectionAfterDelete(selected, |s|)] == s[if selected + 1 < |s| then selected + 1 else 0]
  {
  }

  /** The `+`/`-` keys: `+` adds a step, then `-` subtracts one, floored at
      MinParticleSize. */
  function ResizeParticles(size: real, grow: bool, shrink: bool): (r: real)
    ensures shrink ==> r >= MinParticleSize
    ensures size >= MinParticleSize ==> r >= MinParticleSize
    ensures grow && !shrink ==> r == size + ParticleSizeStep
    ensures !grow && shrink ==> r == Max(size - ParticleSizeStep, MinParticleSize)
    ensures grow && shrink && size >= MinParticleSize ==> r == size
    ensures !grow && !shrink ==> r == size
  {
    var grown := if grow then size + ParticleSizeStep else size;
    if shrink then SubtractFloored(grown, ParticleSizeStep, MinParticleSize) else grown
  }

  /** The particle size after `n` frames with `-` held and `+` released. */
  function ShrinkFrames(size: real, n: nat): real
  {
    if n == 0 then size else ResizeParticles(ShrinkFrames(size, n - 1), false, true)
  }

  /** Holding `-` for `n` frames from a size of at least the minimum leaves
      `max(size - 0.1 n, 0.1)`: the size never drops below its floor. */
  lemma {:induction false} ShrinkHeld(size: real, n: nat)
    requires size >= MinParticleSize
    ensures ShrinkFrames(size, n) == Max(size - Times(n, ParticleSizeStep), MinParticleSize)
    ensures ShrinkFrames(size, n) >= MinParticleSize
  {
    ShrinkFramesFloored(size, n);
    SubtractFlooredTimesClosedForm(size, ParticleSizeStep, MinParticleSize, n);
    if n == 0 {
      assert Times(0, ParticleSizeStep) == 0.0;
    }
  }

  lemma {:induction false} ShrinkFramesFloored(size: real, n: nat)
    ensures ShrinkFrames(size, n) == SubtractFlooredTimes(size, ParticleSizeStep, MinParticleSize, n)
  {
    if n > 0 {
      ShrinkFramesFloored(size, n - 1);
    }
  }

  /** The selected black hole under the cursor, the mouse button and the arrow keys: moved to
      the cursor (y inverted) while the left button is held, +1 mass for
      ArrowUp, then -10 floored at MinMass for ArrowDown, and its horizon
      re-derived from the new mass. */
  function Steer(h: BlackHole, cursor: Vec2, p: Steering, eh: real -> real): (r: BlackHole)
    ensures p.leftHeld ==> r.pos == Vec2(cursor.x, p.windowHeight - cursor.y)
    ensures !p.leftHeld ==> r.pos == h.pos
    ensures p.upHeld && !p.downHeld ==> r.mass == h.mass + MassStep
    ensures !p.upHeld && !p.downHeld ==> r.mass == h.mass
    ensures p.downHeld ==> r.mass >= MinMass
    ensures p.downHeld && h.mass >= MinMass ==> r.mass <= h.mass
    ensures p.downHeld ==> r.mass == Max((if p.upHeld then h.mass + MassStep else h.mass) - MassDrop, MinMass)
    ensures HorizonMatchesMass(r, eh)
  {
    var pos := if p.leftHeld then Vec2(cursor.x, p.windowHeight - cursor.y) else h.pos;
    var raised := if p.upHeld then h.mass + MassStep else h.mass;
    var mass := if p.downHeld then SubtractFloored(raised, MassDrop, MinMass) else raised;
    BlackHole(pos, mass, eh(mass))
  }

  /** Holding ArrowDown alone for `n` frames leaves `max(m - 10 n, 1)`: the
      mass never drops below MinMass however long the key is held. */
  lemma {:induction false} MassHeldDown(h: BlackHole, cursor: Vec2, p: Steering, eh: real -> real, n: nat)
    requires p.downHeld && !p.upHeld && !p.leftHeld
    requires n > 0
    ensures SteerTimes(h, cursor, p, eh, n).mass == Max(h.mass - Times(n, MassDrop), MinMass)
    ensures SteerTimes(h, cursor, p, eh, n).mass >= MinMass
    ensures SteerTimes(h, cursor, p, eh, n).pos == h.pos
    ensures HorizonMatchesMass(SteerTimes(h, cursor, p, eh, n), eh)
  {
    SteerTimesMass(h, cursor, p, eh, n);
    SubtractFlooredTimesClosedForm(h.mass, MassDrop, MinMass, n);
  }

  /** The selected black hole after `n` frames of the same steering input. */
  function SteerTimes(h: BlackHole, cursor: Vec2, p: Steering, eh: real -> real, n: nat): BlackHole
  {
    if n == 0 then h else Steer(SteerTimes(h, cursor, p, eh, n - 1), cursor, p, eh)
  }

  lemma {:induction false} SteerTimesMass(h: BlackHole, cursor: Vec2, p: Steering, eh: real -> real, n: nat)
    requires p.downHeld && !p.upHeld && !p.leftHeld
    ensures SteerTimes(h, cursor, p, eh, n).mass == SubtractFlooredTimes(h.mass, MassDrop, MinMass, n)
    ensures SteerTimes(h, cursor, p, eh, n).pos == h.pos
  {
    if n > 0 {
      SteerTimesMass(h, cursor, p, eh, n - 1);
    }
  }

  /** The `SimulationState` resource. `time_scale` is not part of this model. */
  class SimulationState {
    var paused: bool
    var selected: nat
    var particleSize: real

    /** The particle size never falls below its floor. */
    ghost predicate Valid()
      reads this
    {
      particleSize >= MinParticleSize
    }

    /** The resource as inserted at start-up: running, first black hole
        selected, particle size 1. */
    constructor ()
      ensures Valid()
      ensures !paused && selected == 0 && particleSize == InitialParticleSize
    {
      paused := false;
      selected := 0;
      particleSize := InitialParticleSize;
    }

    /** `handle_input`. `holes` is what the black-hole query yields at the
        start of the system; despawns and spawns are deferred commands, so
        Tab counts and Delete indexes `holes` itself, and the black hole N
        spawns (at `spawnAt`, the position the source draws at random) is
        added after them. Indexing the query with an out-of-range selection
        panics in the source, hence the second precondition. */
    method HandleInput(keys: Keys, spawnAt: Vec2, holes: seq<BlackHole>, eh: real -> real) returns (holes': seq<BlackHole>)
      requires Valid()
      requires Deletes(|holes|, keys) ==> SelectionAfterTab(selected, |holes|, keys) < |holes|
      modifies this
      ensures Valid()
      ensures paused == (old(paused) != keys.space)
      ensures particleSize == ResizeParticles(old(particleSize), keys.equal, keys.minus)
      ensures selected == SelectionAfterInput(old(selected), |holes|, keys)
      ensures holes' == HolesAfterInput(holes, old(selected), keys, spawnAt, eh)
      ensures old(selected) < |holes| ==> selected < |holes'|
    {
      if keys.space {
        TogglePause();
      }

      var spawned: seq<BlackHole> := [];
      if keys.n {
        spawned := [NewBlackHole(spawnAt, eh)];
      }

      if keys.tab {
        CycleSelected(|holes|);
      }

      var remaining := holes;
      if keys.delete {
        remaining := DeleteSelected(holes);
      }

      ResizeHeld(keys.equal, keys.minus);

      holes' := remaining + spawned;
    }

    /** Space: flip the pause flag and nothing else. */
    method TogglePause()
      modifies this
      ensures paused == !old(paused)
      ensures selected == old(selected) && particleSize == old(particleSize)
    {
      paused := !paused;
    }

    /** Tab, given the number of black holes the query yields. */
    method CycleSelected(count: nat)
      modifies this
      ensures selected == CycleSelection(old(selected), count)
      ensures paused == old(paused) && particleSize == old(particleSize)
    {
      if count > 0 {
        selected := (selected + 1) % count;
      }
    }

    /** Delete: with more than one black hole, despawn the selected one and
        re-reduce the selection; otherwise do nothing. */
    method DeleteSelected(holes: seq<BlackHole>) returns (remaining: seq<BlackHole>)
      requires |holes| > 1 ==> selected < |holes|
      modifies this
      ensures |holes| > 1 ==> remaining == RemoveAt(holes, old(selected)) && selected == SelectionAfterDelete(old(selected), |holes|)
      ensures |holes| <= 1 ==> remaining == holes && selected == old(selected)
      ensures paused == old(paused) && particleSize == old(particleSize)
    {
      remaining := holes;
      if |holes| > 1 {
        remaining := RemoveAt(holes, selected);
        selected := selected % (|holes| - 1);
      }
    }

    /** The held `+` and `-` keys. */
    method ResizeHeld(grow: bool, shrink: bool)
      requires Valid()
      modifies this
      ensures Valid()
      ensures particleSize == ResizeParticles(old(particleSize), grow, shrink)
      ensures paused == old(paused) && selected == old(selected)
    {
      if grow {
        particleSize := particleSize + ParticleSizeStep;
      }
      if shrink {
        particleSize := Max(particleSize - ParticleSizeStep, MinParticleSize);
      }
    }

    /** The selection brought back into the range of the `count` black holes
        left after a merge (`SelectionAfterMerge`); not a step of the source. */
    method Reselect(count: nat)
      modifies this
      ensures selected == SelectionAfterMerge(old(selected), count)
      ensures paused == old(paused) && particleSize == old(particleSize)
    {
      if count <= selected && count > 0 {
        selected := count - 1;
      }
    }

    /** `update_black_holes`: with the cursor inside the window, the black
        hole at index `selected` is steered and every other one is left as
        it was; with the cursor outside, or a selection past the end, nothing
        changes. */
    method UpdateBlackHoles(holes: seq<BlackHole>, p: Steering, eh: real -> real) returns (holes': seq<BlackHole>)
      ensures |holes'| == |holes|
      ensures forall i :: 0 <= i < |holes| && (i != selected || p.cursor.None?) ==> holes'[i] == holes[i]
      ensures p.cursor.Some? && selected < |holes| ==> holes'[selected] == Steer(holes[selected], p.cursor.value, p, eh)
    {
      holes' := holes;
      if p.cursor.Some? {
        var cursor := p.cursor.value;
        var i := 0;
        while i < |holes'|
          invariant |holes'| == |holes|
          invariant 0 <= i <= |holes|
          invariant forall k :: 0 <= k < |holes| && (k != selected || i <= k) ==> holes'[k] == holes[k]
          invariant selected < i ==> holes'[selected] == Steer(holes[selected], cursor, p, eh)
        {
          if i == selected {
            holes' := holes'[i := Steer(holes'[i], cursor, p, eh)];
          }
          i := i + 1;
        }
      }
    }
  }

  /** Two frames with only Space pressed: the pause flag is back where it was
      and nothing else has changed. */
  method PressSpaceTwice(state: SimulationState, holes: seq<BlackHole>, spawnAt: Vec2, eh: real -> real) returns (holes': seq<BlackHole>)
    requires state.Valid()
    modifies state
    ensures state.Valid()
    ensures state.paused == old(state.paused)
    ensures state.selected == old(state.selected) && state.particleSize == old(state.particleSize)
    ensures holes' == holes
  {
    var space := Keys(true, false, false, false, false, false);
    var once := state.HandleInput(space, spawnAt, holes, eh);
    assert state.paused == !old(state.paused);
    holes' := state.HandleInput(space, spawnAt, once, eh);
  }

  /** The selection brought back into range once `merge_black_holes` has left
      `count` black holes: an in-range selection is kept, one past the end
      moves to the last black hole, which is the newest replacement in the
      model's order. The source has no such step. */
  function SelectionAfterMerge(selected: nat, count: nat): (r: nat)
    ensures count > 0 ==> r < count
    ensures selected < count ==> r == selected
    ensures selected >= count && count > 0 ==> r == count - 1
  {
    if selected < count then selected else if count > 0 then count - 1 else selected
  }

  /** Tab and Delete together: the index Delete despawns is the selection
      after Tab; Delete fires only when more than one black hole exists. */
  predicate Deletes(count: nat, keys: Keys)
  {
    keys.delete && count > 1
  }

  function SelectionAfterTab(selected: nat, count: nat, keys: Keys): nat
  {
    if keys.tab then CycleSelection(selected, count) else selected
  }

  /** The selection after `handle_input`. Input handling keeps a valid
      selection valid whatever the keys (Tab wraps, Delete re-reduces), and
      Tab alone makes any selection valid. */
  function SelectionAfterInput(selected: nat, count: nat, keys: Keys): (r: nat)
    requires Deletes(count, keys) ==> SelectionAfterTab(selected, count, keys) < count
    ensures selected < count ==> r < count
    ensures Deletes(count, keys) ==> r < count - 1
    ensures keys.tab && count > 0 ==> r < count
    ensures !keys.tab && !Deletes(count, keys) ==> r == selected
  {
    var afterTab := SelectionAfterTab(selected, count, keys);
    if Deletes(count, keys) then SelectionAfterDelete(afterTab, count) else afterTab
  }

  /** The black holes after `handle_input`: exactly the one at the selection
      after Tab is gone when Delete fires, the rest keep their order, and N
      adds one fresh black hole at the end. */
  function HolesAfterInput(holes: seq<BlackHole>, selected: nat, keys: Keys, spawnAt: Vec2, eh: real -> real): (r: seq<BlackHole>)
    requires Deletes(|holes|, keys) ==> SelectionAfterTab(selected, |holes|, keys) < |holes|
    ensures |r| == |holes| - (if Deletes(|holes|, keys) then 1 else 0) + (if keys.n then 1 else 0)
    ensures Deletes(|holes|, keys) ==>
      multiset(r) + multiset{holes[SelectionAfterTab(selected, |holes|, keys)]}
        == multiset(holes) + (if keys.n then multiset{NewBlackHole(spawnAt, eh)} else multiset{})
    ensures !Deletes(|holes|, keys) ==> r[..|holes|] == holes
    ensures keys.n ==> r[|r| - 1] == NewBlackHole(spawnAt, eh)
  {
    var survivors := if Deletes(|holes|, keys) then RemoveAt(holes, SelectionAfterTab(selected, |holes|, keys)) else holes;
    var spawned := if keys.n then [NewBlackHole(spawnAt, eh)] else [];
    assert survivors + spawned == survivors + spawned && (survivors + spawned)[..|survivors|] == survivors;
    survivors + spawned
  }
}
