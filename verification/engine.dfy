/** The engine's targeting state (engine.py): the list of visible targets,
    the selected target, cycling through them, and the field-of-view update
    that keeps both consistent and grows the explored area. */
module Engines {
  import opened Results

  /** Actors are compared by identity; an id stands for one. */
  type ActorId = nat

  /** list.index: the position of the first occurrence, or ValueError. */
  function IndexOf(s: seq<ActorId>, t: ActorId): (r: Result<nat>)
    ensures r.Ok? <==> t in s
    ensures r.Ok? ==> r.value < |s| && s[r.value] == t && t !in s[..r.value]
    ensures r.Err? ==> r.error == NotInList
  {
    if |s| == 0 then Err(NotInList)
    else if s[0] == t then Ok(0)
    else
      match IndexOf(s[1..], t)
      case Err(e) => Err(e)
      case Ok(i) =>
        assert s[..i + 1] == [s[0]] + s[1..][..i];
        Ok(i + 1)
  }

  /** In a list without repeats, the index of s[i] is i. */
  lemma IndexOfDistinct(s: seq<ActorId>, i: nat)
    requires Distinct(s) && i < |s|
    ensures IndexOf(s, s[i]) == Ok(i)
  {
  }

  predicate Distinct(s: seq<ActorId>) {
    forall i, j :: 0 <= i < j < |s| ==> s[i] != s[j]
  }

  /** s[j] with Python's negative indices: -1 is the last element. */
  function PyIndex(s: seq<ActorId>, j: int): (t: ActorId)
    requires -|s| <= j < |s|
    ensures 0 <= j ==> t == s[j]
    ensures j < 0 ==> t == s[|s| + j]
  {
    if 0 <= j then s[j] else s[|s| + j]
  }

  /** The target after nextTarget: the one after the current, wrapping from
      the last to the first; unchanged without a target or with fewer than
      two targets. */
  function NextOf(targets: seq<ActorId>, target: Option<ActorId>): (r: Result<Option<ActorId>>)
    ensures target.None? || |targets| <= 1 ==> r == Ok(target)
    ensures target.Some? && 1 < |targets| ==> (r.Ok? <==> target.value in targets)
    ensures target.Some? && 1 < |targets| && r.Ok? ==>
      r.value.Some? && r.value.value in targets && (Distinct(targets) ==> r.value.value != target.value)
  {
    if target.None? || |targets| <= 1 then Ok(target)
    else
      match IndexOf(targets, target.value)
      case Err(e) => Err(e)
      case Ok(i) => Ok(Some(targets[(i + 1) % |targets|]))
  }

  /** The target after previousTarget: the one before the current; from
      the first, index -1 wraps to the last. */
  function PreviousOf(targets: seq<ActorId>, target: Option<ActorId>): (r: Result<Option<ActorId>>)
    ensures target.None? || |targets| <= 1 ==> r == Ok(target)
    ensures target.Some? && 1 < |targets| ==> (r.Ok? <==> target.value in targets)
    ensures target.Some? && 1 < |targets| && r.Ok? ==> r.value.Some? && r.value.value in targets
  {
    if target.None? || |targets| <= 1 then Ok(target)
    else
      match IndexOf(targets, target.value)
      case Err(e) => Err(e)
      case Ok(i) => Ok(Some(PyIndex(targets, i as int - 1)))
  }

  /** (i + 1) % n steps to the next index and wraps from the last to 0. */
  lemma WrapStep(i: int, n: int)
    requires 0 <= i < n
    ensures (i + 1) % n == if i + 1 == n then 0 else i + 1
  {
    if i + 1 < n {
      assert (i + 1) / n == 0;
    } else {
      assert (i + 1) / n == 1;
    }
  }

  /** With distinct targets, previousTarget undoes nextTarget. */
  lemma PreviousAfterNext(targets: seq<ActorId>, target: Option<ActorId>)
    requires Distinct(targets)
    requires target.Some? ==> target.value in targets
    ensures NextOf(targets, target).Ok? && PreviousOf(targets, NextOf(targets, target).value) == Ok(target)
  {
    if target.Some? && 1 < |targets| {
      var n := |targets|;
      var i := IndexOf(targets, target.value).value;
      var j := (i + 1) % n;
      assert NextOf(targets, target) == Ok(Some(targets[j]));
      IndexOfDistinct(targets, j);
      WrapStep(i, n);
      assert PreviousOf(targets, Some(targets[j])) == Ok(Some(PyIndex(targets, j - 1)));
    }
  }

  /** With distinct targets, nextTarget undoes previousTarget. */
  lemma NextAfterPrevious(targets: seq<ActorId>, target: Option<ActorId>)
    requires Distinct(targets)
    requires target.Some? ==> target.value in targets
    ensures PreviousOf(targets, target).Ok? && NextOf(targets, PreviousOf(targets, target).value) == Ok(target)
  {
    if target.Some? && 1 < |targets| {
      var n := |targets|;
      var i := IndexOf(targets, target.value).value;
      var k := if i == 0 then n - 1 else i - 1;
      assert PreviousOf(targets, target) == Ok(Some(targets[k]));
      IndexOfDistinct(targets, k);
      WrapStep(k, n);
      assert NextOf(targets, Some(targets[k])) == Ok(Some(targets[(k + 1) % n]));
    }
  }

  /** The selected target once update_fov has refreshed the list: a
      target that left the list or is no longer hostile is dropped, and
      with no target the first in the list is taken. */
  function Retarget(target: Option<ActorId>, targets: seq<ActorId>, hostile: set<ActorId>): (r: Option<ActorId>)
    ensures r.None? || r.value in targets
    ensures r.None? <==> |targets| == 0
    ensures target.Some? && target.value in targets && target.value in hostile ==> r == target
    ensures (target.None? || target.value !in targets || target.value !in hostile) && 0 < |targets| ==> r == Some(targets[0])
  {
    var kept := if target.Some? && (target.value !in targets || target.value !in hostile) then None else target;
    if 0 < |targets| && kept.None? then Some(targets[0]) else kept
  }

  class Engine {
    var target: Option<ActorId>
    var targets: seq<ActorId>

    constructor ()
      ensures target == None && targets == []
    {
      target := None;
      targets := [];
    }

    /** nextTarget: selects the target after the current one; list.index
        raises when the current target is not in the list. */
    method NextTarget() returns (outcome: Outcome)
      modifies this
      ensures targets == old(targets)
      ensures var r := NextOf(old(targets), old(target));
        && (r.Ok? ==> outcome == Pass && target == r.value)
        && (r.Err? ==> outcome == Fail(r.error) && target == old(target))
    {
      outcome := Pass;
      if target.Some? && |targets| > 1 {
        var i := IndexOf(targets, target.value);
        if i.Err? { return Fail(i.error); }
        var j := (i.value + 1) % |targets|;
        target := Some(targets[j]);
      }
    }

    /** previousTarget: selects the target before the current one; from
        the first it wraps to the last. */
    method PreviousTarget() returns (outcome: Outcome)
      modifies this
      ensures targets == old(targets)
      ensures var r := PreviousOf(old(targets), old(target));
        && (r.Ok? ==> outcome == Pass && target == r.value)
        && (r.Err? ==> outcome == Fail(r.error) && target == old(target))
    {
      outcome := Pass;
      if target.Some? && |targets| > 1 {
        var i := IndexOf(targets, target.value);
        if i.Err? { return Fail(i.error); }
        target := Some(PyIndex(targets, i.value as int - 1));
      }
    }

    /** update_fov after the field of view is computed: every visible tile
        becomes explored and none stops being explored, the target list is
        replaced by the visible targets, and the selection is kept only if
        it is still listed and hostile, or else moves to the first target. */
    method UpdateFov(explored: array2<bool>, visible: array2<bool>, visibleTargets: seq<ActorId>, hostile: set<ActorId>)
      requires explored != visible
      requires explored.Length0 == visible.Length0 && explored.Length1 == visible.Length1
      modifies this, explored
      ensures forall x, y :: 0 <= x < explored.Length0 && 0 <= y < explored.Length1 ==>
        explored[x, y] == (old(explored[x, y]) || visible[x, y])
      ensures targets == visibleTargets
      ensures target == Retarget(old(target), visibleTargets, hostile)
    {
      var x := 0;
      while x < explored.Length0
        invariant x <= explored.Length0
        invariant target == old(target)
        invariant forall a, b :: 0 <= a < explored.Length0 && 0 <= b < explored.Length1 ==>
          explored[a, b] == if a < x then old(explored[a, b]) || visible[a, b] else old(explored[a, b])
      {
        var y := 0;
        while y < explored.Length1
          invariant y <= explored.Length1
          invariant target == old(target)
          invariant forall a, b :: 0 <= a < explored.Length0 && 0 <= b < explored.Length1 ==>
            explored[a, b] == if a < x || (a == x && b < y) then old(explored[a, b]) || visible[a, b] else old(explored[a, b])
        {
          explored[x, y] := explored[x, y] || visible[x, y];
          y := y + 1;
        }
        x := x + 1;
      }
      targets := visibleTargets;
      if target.Some? && (target.value !in targets || target.value !in hostile) {
        target := None;
      }
      if |targets| > 0 && target.None? {
        target := Some(targets[0]);
      }
    }
  }
}
