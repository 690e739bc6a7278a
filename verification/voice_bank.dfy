/**
 The chorus voices: four delay lines, each with a fixed base delay and a
 sine oscillator at a fixed rate whose output, scaled by the voice's depth
 gain, swings the delay time around its base. Only the numbers are modelled;
 the audio nodes themselves belong to the audio engine.
 */
module VoiceBank {
  import opened ModeTable

  /** Longest delay any voice's delay line can hold, in seconds. */
  const MaxDelayTime: real := 0.1

  /** Depth gain every voice starts with, before the first blend is applied. */
  const InitialDepth: real := 0.002

  /** The oscillator waveform; every voice uses a sine. */
  datatype Waveform = Sine

  /** A voice's fixed parameters: base delay (s), oscillator rate (Hz), waveform, delay-line capacity (s). */
  datatype Voice = Voice(baseDelay: real, lfoRate: real, waveform: Waveform, maxDelay: real)

  /** The voice at index `i`, staggered so that the voices do not move in lock step. */
  function VoiceAt(i: nat): (v: Voice)
    requires i < NumVoices
    ensures 0.005 <= v.baseDelay <= 0.011
    ensures 0.5 <= v.lfoRate <= 0.89
    ensures v.maxDelay == MaxDelayTime && v.waveform == Sine
  {
    Voice(0.005 + (i as real) * 0.002, 0.5 + (i as real) * 0.13, Sine, MaxDelayTime)
  }

  /** All voices in construction order. */
  function Voices(): (vs: seq<Voice>)
    ensures |vs| == NumVoices
    ensures forall i :: 0 <= i < |vs| ==> vs[i] == VoiceAt(i)
  {
    seq(NumVoices, i requires 0 <= i < NumVoices => VoiceAt(i))
  }

  /** Later voices have strictly longer base delays and strictly faster oscillators. */
  lemma VoicesStaggered(i: nat, j: nat)
    requires i < j < NumVoices
    ensures VoiceAt(i).baseDelay < VoiceAt(j).baseDelay
    ensures VoiceAt(i).lfoRate < VoiceAt(j).lfoRate
  {
  }

  /** The delay time of voice `v` under depth `d` sweeps [base - d, base + d]; it must stay within the line. */
  predicate SweepFits(v: Voice, d: real) {
    0.0 < v.baseDelay - d && v.baseDelay + d < v.maxDelay
  }

  /** Any depth up to MaxDepth keeps every voice's sweep inside its delay line. */
  lemma SweepFitsUpToMaxDepth(i: nat, d: real)
    requires i < NumVoices
    requires 0.0 <= d <= MaxDepth
    ensures SweepFits(VoiceAt(i), d)
  {
  }

  /** The depth a voice starts with lies within the presets' range, so its first sweep fits too. */
  lemma InitialSweepFits(i: nat)
    requires i < NumVoices
    ensures 0.0 <= InitialDepth <= MaxDepth
    ensures SweepFits(VoiceAt(i), InitialDepth)
  {
    SweepFitsUpToMaxDepth(i, InitialDepth);
  }
}
