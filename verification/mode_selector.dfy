/**
 The mode selector: the set of active mode ids and the `toggleMode`
 transition. The state is an insertion-ordered list without duplicates, so
 the "evict the oldest" rule is explicit: the first element is the oldest.
 */
module ModeSelector {
  import opened InsertionOrderedSet
  import ModeTable

  /** The state a freshly built chorus starts in: mode 1 alone. */
  const Initial: seq<int> := [1]

  /** A mode id a button can pass: 0 ("off") or one of the presets. */
  predicate IsButton(mode: int) {
    ModeTable.IsModeId(mode)
  }

  /** The invariant every reachable state keeps: at most two distinct presets, never "off". */
  predicate Inv(active: seq<int>) {
    && Distinct(active)
    && |active| <= 2
    && forall i :: 0 <= i < |active| ==> 1 <= active[i] < |ModeTable.Table|
  }

  /**
   `toggleMode(mode)` on the set of active modes. Mode 0 clears the set. A
   member is removed. A non-member is added at the end, after evicting the
   oldest member when two are already active. Finally 0 is deleted.
   */
  function Toggle(active: seq<int>, mode: int): (r: seq<int>)
    requires Distinct(active)
    ensures Distinct(r)
    ensures mode == 0 ==> r == []
    ensures mode != 0 ==> 0 !in r
    ensures mode != 0 ==> (mode in r <==> mode !in active)
    ensures forall x :: x in r ==> x == mode || x in active
    ensures mode != 0 && mode !in active ==> |r| > 0 && r[|r| - 1] == mode
    ensures |active| <= 2 ==> |r| <= 2
  {
    if mode == 0 then []
    else
      var kept :=
        if mode in active then Delete(active, mode)
        else
          var room := if |active| >= 2 then Delete(active, active[0]) else active;
          Add(room, mode);
      Delete(kept, 0)
  }

  /** Every toggle a button can issue keeps the invariant. */
  lemma ToggleKeepsInv(active: seq<int>, mode: int)
    requires Inv(active) && IsButton(mode)
    ensures Inv(Toggle(active, mode))
  {
    var r := Toggle(active, mode);
    forall i | 0 <= i < |r|
      ensures 1 <= r[i] < |ModeTable.Table|
    {
      assert r[i] in r;
    }
  }

  /** Toggling an active mode removes exactly it; the other mode keeps its place. */
  lemma {:induction false} ToggleRemovesMember(active: seq<int>, i: nat)
    requires Distinct(active) && 0 !in active && i < |active|
    ensures Toggle(active, active[i]) == active[..i] + active[i + 1..]
  {
    DeleteAt(active, i);
    var r := active[..i] + active[i + 1..];
    assert 0 !in active;
    assert 0 !in r;
  }

  /** A new mode is appended; with two modes active, the one inserted first is dropped, whatever its id. */
  lemma {:induction false} ToggleAppends(active: seq<int>, mode: int)
    requires Distinct(active) && 0 !in active && |active| <= 2
    requires mode != 0 && mode !in active
    ensures |active| < 2 ==> Toggle(active, mode) == active + [mode]
    ensures |active| == 2 ==> Toggle(active, mode) == [active[1], mode]
  {
    if |active| < 2 {
      var added := Add(active, mode);
      assert added == active + [mode];
      assert 0 !in added;
      assert Delete(added, 0) == added;
    } else {
      DeleteAt(active, 0);
      var room := Delete(active, active[0]);
      assert room == [active[1]] by {
        assert active[..0] + active[1..] == [active[1]];
      }
      assert mode !in room;
      var added := Add(room, mode);
      assert added == [active[1], mode];
      assert 0 !in added;
      assert Delete(added, 0) == added;
    }
  }

  /** Eviction is by insertion order, not by id: from empty, toggling 2, 4, 1 leaves 4 then 1. */
  lemma FifoEvictionExample()
    ensures Toggle(Toggle(Toggle([], 2), 4), 1) == [4, 1]
  {
    ToggleAppends([], 2);
    var one := Toggle([], 2);
    assert one == [2];
    ToggleAppends(one, 4);
    var two := Toggle(one, 4);
    assert two == [2, 4];
    ToggleAppends(two, 1);
  }

  /**
   Toggling the same preset twice restores the state exactly when the mode was
   absent with room to spare, or was the newest member.
   */
  lemma DoubleToggleRestores(active: seq<int>, mode: int)
    requires Inv(active) && mode != 0
    requires (mode !in active && |active| < 2) || (|active| > 0 && active[|active| - 1] == mode)
    ensures Toggle(Toggle(active, mode), mode) == active
  {
    if mode !in active {
      ToggleAppends(active, mode);
      var once := active + [mode];
      ToggleRemovesMember(once, |active|);
      assert once[..|active|] + once[|active| + 1..] == active;
    } else {
      var k := |active| - 1;
      ToggleRemovesMember(active, k);
      var once := active[..k] + active[k + 1..];
      assert once == active[..k];
      assert mode !in once by {
        assert Distinct(active);
      }
      ToggleAppends(once, mode);
      assert once + [mode] == active;
    }
  }

  /**
   In the two remaining cases the state is not restored. When the mode was
   the oldest of two, the same members return with it moved to the end. When
   it was absent with two active, the evicted mode stays lost.
   */
  lemma DoubleToggleReorders(active: seq<int>, mode: int)
    requires Inv(active) && mode != 0 && |active| == 2
    ensures active[0] == mode ==> Toggle(Toggle(active, mode), mode) == [active[1], mode]
    ensures mode !in active ==> Toggle(Toggle(active, mode), mode) == [active[1]]
  {
    if active[0] == mode {
      ToggleRemovesMember(active, 0);
      assert active[..0] + active[1..] == [active[1]];
      ToggleAppends([active[1]], mode);
    } else if mode !in active {
      ToggleAppends(active, mode);
      ToggleRemovesMember([active[1], mode], 1);
      assert [active[1], mode][..1] + [active[1], mode][2..] == [active[1]];
    }
  }

  /** The state after a run of toggles, applied left to right. */
  function Run(active: seq<int>, modes: seq<int>): (r: seq<int>)
    requires Distinct(active)
    ensures Distinct(r)
    decreases |modes|
  {
    if |modes| == 0 then active else Run(Toggle(active, modes[0]), modes[1..])
  }

  /** A sequence of presses of the five buttons. */
  predicate AllButtons(modes: seq<int>) {
    forall k :: 0 <= k < |modes| ==> IsButton(modes[k])
  }

  /** The states reachable from the initial one by button presses. */
  ghost predicate Reachable(active: seq<int>) {
    exists modes :: AllButtons(modes) && Run(Initial, modes) == active
  }

  /** Any run of button presses keeps the invariant. */
  lemma {:induction false} RunKeepsInv(active: seq<int>, modes: seq<int>)
    requires Inv(active) && AllButtons(modes)
    ensures Inv(Run(active, modes))
    decreases |modes|
  {
    if |modes| > 0 {
      ToggleKeepsInv(active, modes[0]);
      assert AllButtons(modes[1..]) by {
        forall k | 0 <= k < |modes[1..]|
          ensures IsButton(modes[1..][k])
        {
          assert modes[1..][k] == modes[k + 1];
        }
      }
      RunKeepsInv(Toggle(active, modes[0]), modes[1..]);
    }
  }

  /** A run that starts with `mode` is that toggle followed by the rest of the run. */
  lemma RunFirst(active: seq<int>, mode: int, rest: seq<int>)
    requires Distinct(active)
    ensures Run(active, [mode] + rest) == Run(Toggle(active, mode), rest)
  {
    assert ([mode] + rest)[1..] == rest;
  }

  /** From the empty state, pressing a preset selects it alone. */
  lemma RunFromEmpty(a: int, rest: seq<int>)
    requires a != 0
    ensures Run([], [a] + rest) == Run([a], rest)
  {
    RunFirst([], a, rest);
    ToggleAppends([], a);
    assert [] + [a] == [a];
  }

  /** With one preset selected, pressing another selects both, oldest first. */
  lemma RunSecond(a: int, b: int)
    requires a != 0 && b != 0 && a != b
    ensures Run([a], [b]) == [a, b]
  {
    RunFirst([a], b, []);
    ToggleAppends([a], b);
    assert [a] + [b] == [a, b];
  }

  /** Pressing "off" first forgets the initial state. */
  lemma RunFromOff(rest: seq<int>)
    ensures Run(Initial, [0] + rest) == Run([], rest)
  {
    RunFirst(Initial, 0, rest);
  }

  /** From the empty state, pressing one preset selects it alone. */
  lemma RebuildSingle(active: seq<int>)
    requires |active| == 1 && active[0] != 0
    ensures Run([], active) == active
  {
    assert active == [active[0]] + [];
    RunFromEmpty(active[0], []);
  }

  /** From the empty state, pressing two distinct presets selects both, oldest first. */
  lemma RebuildPair(active: seq<int>)
    requires Distinct(active) && |active| == 2 && 0 !in active
    ensures Run([], active) == active
  {
    var a, b := active[0], active[1];
    assert active == [a] + [b];
    RunFromEmpty(a, [b]);
    RunSecond(a, b);
  }

  /** From "off", pressing the modes of a state in order rebuilds that state. */
  lemma RebuildFromOff(active: seq<int>)
    requires Distinct(active) && |active| <= 2 && 0 !in active
    ensures Run(Initial, [0] + active) == active
  {
    RunFromOff(active);
    if |active| == 1 {
      RebuildSingle(active);
    } else if |active| == 2 {
      RebuildPair(active);
    }
  }

  /** Every reachable state keeps the invariant. */
  lemma ReachableHasInv(active: seq<int>)
    requires Reachable(active)
    ensures Inv(active)
  {
    var modes :| AllButtons(modes) && Run(Initial, modes) == active;
    RunKeepsInv(Initial, modes);
  }

  /** Every state that keeps the invariant is reached by pressing "off" and then its modes in order. */
  lemma InvIsReachable(active: seq<int>)
    requires Inv(active)
    ensures Reachable(active)
  {
    var modes := [0] + active;
    assert 0 !in active;
    RebuildFromOff(active);
    assert AllButtons(modes) by {
      forall k | 0 <= k < |modes|
        ensures IsButton(modes[k])
      {
        if k > 0 {
          assert modes[k] == active[k - 1];
        }
      }
    }
  }

  /** The invariant characterises the reachable states exactly. */
  lemma ReachableIffInv(active: seq<int>)
    ensures Reachable(active) <==> Inv(active)
  {
    if Reachable(active) {
      ReachableHasInv(active);
    }
    if Inv(active) {
      InvIsReachable(active);
    }
  }
}
