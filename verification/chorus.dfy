/**
 The chorus's control logic end to end: a toggle from a button updates the
 set of active modes, the new set is blended, and the blend becomes glide
 targets for the audio graph.
 */
module Chorus {
  import opened ModeTable
  import opened ModeSelector
  import opened Blender
  import opened Smoother
  import opened VoiceBank

  /** What one control step produces: the new active modes, their blend, and the glide requests. */
  datatype Update = Update(active: seq<int>, config: Config, targets: seq<Target>)

  /** The effect of `updateAudio` on a reachable state. */
  function Apply(active: seq<int>): (u: Update)
    requires Inv(active)
    ensures u.active == active
    ensures WellFormed(u.config)
    ensures |u.targets| == 2 + NumVoices
    ensures forall k :: 0 <= k < |u.targets| ==> u.targets[k].timeConstant == TimeConstant
    ensures forall i :: 0 <= i < NumVoices ==> SweepFits(VoiceAt(i), u.config.depths[i])
  {
    BlendWellFormed(active);
    var c := Blend(active);
    assert forall i :: 0 <= i < NumVoices ==> SweepFits(VoiceAt(i), c.depths[i]) by {
      forall i | 0 <= i < NumVoices
        ensures SweepFits(VoiceAt(i), c.depths[i])
      {
        SweepFitsUpToMaxDepth(i, c.depths[i]);
      }
    }
    Update(active, c, Targets(c))
  }

  /** Construction: mode 1 alone is active and its preset is applied. */
  function Construct(): (u: Update)
    ensures u.active == [1]
    ensures u.config == Entry(1)
  {
    Apply(Initial)
  }

  /** `toggleMode(mode)` from a button: the state transition followed by `updateAudio`. */
  function ToggleMode(active: seq<int>, mode: int): (u: Update)
    requires Inv(active) && IsButton(mode)
    ensures Inv(u.active)
    ensures mode == 0 ==> u.active == [] && u.config == Entry(0)
    ensures mode != 0 ==> (mode in u.active <==> mode !in active)
    ensures WellFormed(u.config)
    ensures forall i :: 0 <= i < NumVoices ==> SweepFits(VoiceAt(i), u.config.depths[i])
  {
    ToggleKeepsInv(active, mode);
    Apply(Toggle(active, mode))
  }

  /** From the initial state, pressing 2 selects modes 1 and 2 and applies their mean. */
  lemma ScenarioAddSecond()
    ensures ToggleMode(Initial, 2).active == [1, 2]
    ensures ToggleMode(Initial, 2).config == Config(0.35, 0.825, [0.00125, 0.0006, 0.0, 0.0])
  {
    ToggleAppends(Initial, 2);
    var c := Blend([1, 2]);
    assert c.depths == [0.00125, 0.0006, 0.0, 0.0] by {
      assert c.depths[0] == 0.00125 && c.depths[1] == 0.0006;
      assert c.depths[2] == 0.0 && c.depths[3] == 0.0;
    }
  }

  /** From modes 1 and 2, pressing 1 leaves mode 2 alone with its preset verbatim. */
  lemma ScenarioRemoveFirst()
    ensures ToggleMode([1, 2], 1).active == [2]
    ensures ToggleMode([1, 2], 1).config == Entry(2)
  {
    ToggleRemovesMember([1, 2], 0);
    assert [1, 2][..0] + [1, 2][1..] == [2];
  }

  /** Pressing "off" from any reachable state applies the "off" preset. */
  lemma ScenarioOff(active: seq<int>)
    requires Inv(active)
    ensures ToggleMode(active, 0).config == Config(0.0, 1.0, [0.0, 0.0, 0.0, 0.0])
  {
  }

  /** From "off", pressing 3 selects mode 3 alone. */
  lemma ScenarioPressThree()
    ensures ToggleMode([], 3).active == [3]
  {
    ToggleAppends([], 3);
    assert [] + [3] == [3];
  }

  /** With mode 3 alone, pressing 4 needs no eviction and averages modes 3 and 4. */
  lemma ScenarioPressFour()
    ensures ToggleMode([3], 4).active == [3, 4]
    ensures ToggleMode([3], 4).config == Config(0.55, 0.725, [0.00225, 0.0019, 0.00165, 0.00075])
  {
    ToggleAppends([3], 4);
    assert [3] + [4] == [3, 4];
    var c := Blend([3, 4]);
    assert c.depths == [0.00225, 0.0019, 0.00165, 0.00075] by {
      assert c.depths[0] == 0.00225 && c.depths[1] == 0.0019;
      assert c.depths[2] == 0.00165 && c.depths[3] == 0.00075;
    }
  }

  /** From "off", pressing 3 and then 4 selects both, in that order. */
  lemma ScenarioThreeFour()
    ensures ToggleMode(ToggleMode([], 3).active, 4).active == [3, 4]
    ensures ToggleMode(ToggleMode([], 3).active, 4).config == Config(0.55, 0.725, [0.00225, 0.0019, 0.00165, 0.00075])
  {
    ScenarioPressThree();
    ScenarioPressFour();
  }
}
