/**
 The parameter smoother: `updateAudio` never sets a gain outright; it asks
 the audio engine to glide each automatable gain towards a target with a
 10 ms time constant. This module models which targets are requested. The
 glide itself happens inside the audio engine and is not modelled.
 */
module Smoother {
  import opened ModeTable

  /** Time constant, in seconds, of every requested glide. */
  const TimeConstant: real := 0.01

  /** The automatable gains: the dry and wet mix gains and each voice's depth gain. */
  datatype Param = DryGain | WetGain | DepthGain(voice: nat)

  /** One request to glide `param` towards `value` with time constant `timeConstant`. */
  datatype Target = Target(param: Param, value: real, timeConstant: real)

  /** The gains that exist in the audio graph: one depth gain per voice. */
  predicate Automatable(p: Param) {
    p.DepthGain? ==> p.voice < NumVoices
  }

  /** The value a configuration prescribes for a gain. */
  function Setting(c: Config, p: Param): real
    requires p.DepthGain? ==> p.voice < |c.depths|
  {
    match p
    case DryGain => c.dry
    case WetGain => c.wet
    case DepthGain(i) => c.depths[i]
  }

  /** The smaller of two counts. */
  function Min(a: nat, b: nat): nat {
    if a <= b then a else b
  }

  /**
   The glide requests for configuration `c`: dry gain, wet gain, then the
   depth gain of each voice that has both a depth in `c` and a gain node.
   */
  function Targets(c: Config): (ts: seq<Target>)
    ensures |ts| == 2 + Min(|c.depths|, NumVoices)
    ensures forall k :: 0 <= k < |ts| ==> ts[k].timeConstant == TimeConstant
    ensures forall k :: 0 <= k < |ts| ==> Automatable(ts[k].param)
    ensures forall k :: 0 <= k < |ts| ==> (ts[k].param.DepthGain? ==> ts[k].param.voice < |c.depths|)
    ensures forall k :: 0 <= k < |ts| ==> ts[k].value == Setting(c, ts[k].param)
    ensures forall j, k :: 0 <= j < k < |ts| ==> ts[j].param != ts[k].param
  {
    var n := Min(|c.depths|, NumVoices);
    var depthTargets := seq(n, i requires 0 <= i < n => Target(DepthGain(i), c.depths[i], TimeConstant));
    [Target(DryGain, c.dry, TimeConstant), Target(WetGain, c.wet, TimeConstant)] + depthTargets
  }

  /** With one depth per voice, every automatable gain receives exactly its prescribed value. */
  lemma TargetsCoverEveryGain(c: Config, p: Param)
    requires |c.depths| == NumVoices && Automatable(p)
    ensures exists k :: 0 <= k < |Targets(c)| && Targets(c)[k] == Target(p, Setting(c, p), TimeConstant)
  {
    var ts := Targets(c);
    var k := match p
      case DryGain => 0
      case WetGain => 1
      case DepthGain(i) => 2 + i;
    assert ts[k] == Target(p, Setting(c, p), TimeConstant);
  }
}
