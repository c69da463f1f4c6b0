/** `FillerAudioConfig` from the agent models: its defaults and the validator
    that makes typing noise and filler phrases mutually exclusive. */
module AgentModels {
  import opened Common

  const FillerAudioDefaultSilenceThresholdSeconds: real := 0.5

  datatype FillerAudioConfig = FillerAudioConfig(
    silenceThresholdSeconds: real,
    usePhrases: bool,
    useTypingNoise: bool)

  /** `FillerAudioConfig()` with every field left at its declared default. */
  const DefaultFillerAudioConfig: FillerAudioConfig :=
    FillerAudioConfig(FillerAudioDefaultSilenceThresholdSeconds, true, false)

  /** The `typing_noise_excludes_phrases` validator, run on the value `v` of
      `use_typing_noise` once `use_phrases` has been read. Typing noise wins
      over phrases; asking for neither is rejected. The validator hands back
      `v` itself, so `use_typing_noise` is never altered. */
  function ValidateFillerAudioConfig(silenceThresholdSeconds: real, usePhrases: bool, useTypingNoise: bool)
    : (r: Result<FillerAudioConfig>)
    ensures r.Failure? <==> !usePhrases && !useTypingNoise
    ensures r.Success? ==>
      && r.value.silenceThresholdSeconds == silenceThresholdSeconds
      && r.value.useTypingNoise == useTypingNoise
      && r.value.usePhrases == !useTypingNoise
  {
    var phrases := if useTypingNoise && usePhrases then false else usePhrases;
    if !useTypingNoise && !phrases then
      Failure(ValueError("must use either typing noise or phrases for filler audio"))
    else
      Success(FillerAudioConfig(silenceThresholdSeconds, phrases, useTypingNoise))
  }

  /** An accepted configuration uses exactly one kind of filler audio. */
  ghost predicate ExactlyOneFillerKind(c: FillerAudioConfig)
  {
    c.usePhrases != c.useTypingNoise
  }

  /** The defaults are 0.5 s, phrases on, typing noise off, and they are a
      configuration the validator accepts unchanged. */
  lemma DefaultsAreValid()
    ensures DefaultFillerAudioConfig.silenceThresholdSeconds == 0.5
    ensures DefaultFillerAudioConfig.usePhrases && !DefaultFillerAudioConfig.useTypingNoise
    ensures ValidateFillerAudioConfig(0.5, true, false) == Success(DefaultFillerAudioConfig)
  {
  }

  /** Every configuration the validator accepts has exactly one of the two
      flags set, and validating it again returns it unchanged. */
  lemma ValidatedIsNormal(t: real, p: bool, n: bool)
    requires ValidateFillerAudioConfig(t, p, n).Success?
    ensures var c := ValidateFillerAudioConfig(t, p, n).value;
      && ExactlyOneFillerKind(c)
      && ValidateFillerAudioConfig(c.silenceThresholdSeconds, c.usePhrases, c.useTypingNoise) == Success(c)
  {
  }
}
