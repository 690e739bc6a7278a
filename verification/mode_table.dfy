/**
 The fixed preset table of the chorus: mode 0 is "off", modes 1 to 4 are
 increasingly intense presets. Each entry holds a wet level, a dry level and
 one modulation depth (seconds of delay-time swing) per voice. Reals are
 exact here, so the decimal literals mean what they say.
 */
module ModeTable {

  /** Number of chorus voices, which is also the length of every depth list. */
  const NumVoices: nat := 4

  /** Largest depth any preset uses, in seconds. */
  const MaxDepth: real := 0.0025

  /** A mix configuration: the presets, and the blend of up to two of them. */
  datatype Config = Config(wet: real, dry: real, depths: seq<real>)

  /** The preset table, indexed by mode id. */
  const Table: seq<Config> := [
    Config(0.0, 1.0, [0.0, 0.0, 0.0, 0.0]),
    Config(0.3, 0.85, [0.001, 0.0, 0.0, 0.0]),
    Config(0.4, 0.8, [0.0015, 0.0012, 0.0, 0.0]),
    Config(0.5, 0.75, [0.002, 0.0018, 0.0015, 0.0]),
    Config(0.6, 0.7, [0.0025, 0.002, 0.0018, 0.0015])
  ]

  /** The ids the table has an entry for; any other index reads `undefined`. */
  predicate IsModeId(id: int) {
    0 <= id < |Table|
  }

  /** A configuration the audio graph can take: levels in [0,1], one depth in [0, MaxDepth] per voice. */
  predicate WellFormed(c: Config) {
    && 0.0 <= c.wet <= 1.0
    && 0.0 <= c.dry <= 1.0
    && |c.depths| == NumVoices
    && forall i :: 0 <= i < |c.depths| ==> 0.0 <= c.depths[i] <= MaxDepth
  }

  /** `modeConfigs[id]` for a valid id. */
  function Entry(id: int): (c: Config)
    requires IsModeId(id)
    ensures WellFormed(c)
    ensures id == 0 ==> c.wet == 0.0 && c.dry == 1.0
    ensures id == 0 ==> forall i :: 0 <= i < |c.depths| ==> c.depths[i] == 0.0
  {
    Table[id]
  }

  /**
   The presets grow in intensity: from one mode to a higher one the wet level
   rises, the dry level falls and no voice's depth shrinks.
   */
  lemma TableMonotone(a: int, b: int)
    requires IsModeId(a) && IsModeId(b) && a < b
    ensures Entry(a).wet < Entry(b).wet
    ensures Entry(a).dry > Entry(b).dry
    ensures forall i :: 0 <= i < NumVoices ==> Entry(a).depths[i] <= Entry(b).depths[i]
  {
  }

  /** The depth lists are populated progressively: mode `m` modulates exactly its first `m` voices. */
  lemma ActiveVoices(m: int, i: int)
    requires IsModeId(m) && 0 <= i < NumVoices
    ensures Entry(m).depths[i] > 0.0 <==> i < m
  {
  }
}
