/**
 The parameter blender: the configuration the chorus applies for a set of
 active modes. No mode gives the "off" entry, one mode gives its own entry,
 and two modes give the elementwise mean of their entries.
 */
module Blender {
  import opened ModeTable
  import opened InsertionOrderedSet
  import ModeSelector

  /** The ids the blend reads, the first one or two in insertion order, are table indices. */
  predicate ReadsValidIds(active: seq<int>) {
    forall k :: 0 <= k < |active| && k < 2 ==> IsModeId(active[k])
  }

  /** The arithmetic mean of two levels. */
  function Mean(x: real, y: real): (m: real)
    ensures m - x == y - m
  {
    (x + y) / 2.0
  }

  /** The elementwise mean of two depth lists; the result is as long as the first. */
  function MeanDepths(a: seq<real>, b: seq<real>): (m: seq<real>)
    requires |a| <= |b|
    ensures |m| == |a|
    ensures forall i :: 0 <= i < |a| ==> m[i] - a[i] == b[i] - m[i]
  {
    seq(|a|, i requires 0 <= i < |a| => Mean(a[i], b[i]))
  }

  /** The midpoint of two configurations, field by field. */
  function Average(c1: Config, c2: Config): (c: Config)
    requires |c1.depths| <= |c2.depths|
    ensures c.wet - c1.wet == c2.wet - c.wet
    ensures c.dry - c1.dry == c2.dry - c.dry
    ensures |c.depths| == |c1.depths|
    ensures forall i :: 0 <= i < |c.depths| ==> c.depths[i] - c1.depths[i] == c2.depths[i] - c.depths[i]
  {
    Config(Mean(c1.wet, c2.wet), Mean(c1.dry, c2.dry), MeanDepths(c1.depths, c2.depths))
  }

  /**
   The configuration `updateAudio` computes for the active modes. A set of
   more than two modes never arises; the code would average its first two.
   */
  function Blend(active: seq<int>): (c: Config)
    requires ReadsValidIds(active)
    ensures |active| == 0 ==> c == Entry(0)
    ensures |active| == 1 ==> c == Entry(active[0])
    ensures |active| >= 2 ==> c.wet - Entry(active[0]).wet == Entry(active[1]).wet - c.wet
    ensures |active| >= 2 ==> c.dry - Entry(active[0]).dry == Entry(active[1]).dry - c.dry
    ensures |c.depths| == NumVoices
    ensures |active| >= 2 ==> forall i :: 0 <= i < NumVoices ==>
      c.depths[i] - Entry(active[0]).depths[i] == Entry(active[1]).depths[i] - c.depths[i]
  {
    if |active| == 0 then Entry(0)
    else if |active| == 1 then Entry(active[0])
    else Average(Entry(active[0]), Entry(active[1]))
  }

  /** Averaging does not depend on which of the two modes was selected first. */
  lemma BlendSymmetric(a: int, b: int)
    requires IsModeId(a) && IsModeId(b)
    ensures Blend([a, b]) == Blend([b, a])
  {
    var x, y := Blend([a, b]), Blend([b, a]);
    assert x.depths == y.depths by {
      forall i | 0 <= i < NumVoices
        ensures x.depths[i] == y.depths[i]
      {
      }
    }
  }

  /** The blend of a reachable state depends on which modes are active, not on the order they were pressed in. */
  lemma BlendDependsOnMembership(s: seq<int>, t: seq<int>)
    requires ModeSelector.Inv(s) && ModeSelector.Inv(t)
    requires forall x :: x in s <==> x in t
    ensures Blend(s) == Blend(t)
  {
    assert |s| == |t| by {
      SameMembersSameSize(s, t);
    }
    if |s| == 1 {
      assert s[0] in t;
    } else if |s| == 2 {
      assert s[0] in t && s[1] in t;
      if s[0] == t[0] {
        assert s[1] == t[1];
        assert s == t;
      } else {
        assert s == [t[1], t[0]];
        assert t == [t[0], t[1]];
        BlendSymmetric(t[0], t[1]);
      }
    }
  }

  /** Two duplicate-free lists of at most two ids with the same members have the same length. */
  lemma SameMembersSameSize(s: seq<int>, t: seq<int>)
    requires Distinct(s) && Distinct(t) && |s| <= 2 && |t| <= 2
    requires forall x :: x in s <==> x in t
    ensures |s| == |t|
  {
    if |s| < |t| {
      var x := LongerHasExtra(t, s);
    } else if |t| < |s| {
      var x := LongerHasExtra(s, t);
    }
  }

  /** A duplicate-free list of at most two ids has a member `x` outside any shorter list. */
  lemma LongerHasExtra(long: seq<int>, short: seq<int>) returns (x: int)
    requires Distinct(long) && |long| <= 2 && |short| < |long|
    ensures x in long && x !in short
  {
    if |short| == 0 || long[0] !in short {
      x := long[0];
    } else {
      assert long[0] == short[0] && short == [short[0]];
      assert long[1..][0] == long[1];
      x := long[1];
    }
  }

  /**
   Every reachable state blends to a configuration the audio graph can take:
   both levels in [0,1], and each of the four depths in [0, MaxDepth].
   */
  lemma BlendWellFormed(active: seq<int>)
    requires ModeSelector.Inv(active)
    ensures WellFormed(Blend(active))
  {
    if |active| >= 2 {
      var c1, c2 := Entry(active[0]), Entry(active[1]);
      var c := Blend(active);
      forall i | 0 <= i < |c.depths|
        ensures 0.0 <= c.depths[i] <= MaxDepth
      {
        assert c.depths[i] == (c1.depths[i] + c2.depths[i]) / 2.0;
      }
    }
  }
}
