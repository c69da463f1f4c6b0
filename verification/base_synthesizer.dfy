/** The sequential core of the base synthesizer: slicing an audio buffer into
    chunks with a "last chunk" flag, the two estimates of how much of a message
    was spoken after a number of seconds, filler audio, and the checks made
    when a synthesizer is built. Audio conversion (`convert_wav`,
    `encode_as_wav`) and tokenisation are foreign code and enter as function
    parameters. */
module Synthesizer {
  import opened Common
  import opened AgentModels

  datatype SynthesizerConfig = SynthesizerConfig(
    samplingRate: int,
    audioEncoding: AudioEncoding,
    shouldEncodeAsWav: bool)

  /** One item of a synthesis result's chunk generator. */
  datatype ChunkResult = ChunkResult(chunk: seq<byte>, isLastChunk: bool)

  /** The generator is finite, so it is modelled by the list of everything it
      yields (or the exception it raises); `messageUpTo` maps elapsed seconds
      to the part of the message that was spoken. */
  datatype SynthesisResult = SynthesisResult(
    chunks: Result<seq<ChunkResult>>,
    messageUpTo: real -> Result<string>)

  datatype FillerAudio = FillerAudio(
    messageText: string,
    audioData: seq<byte>,
    config: SynthesizerConfig,
    isInterruptible: bool,
    secondsPerChunk: int)

  const FillerPhrases: seq<string> :=
    ["Um...", "Uh...", "Uh-huh...", "Mm-hmm...", "Hmm...", "Okay...", "Right...", "Let me see..."]

  const TypingNoiseText: string := "<typing noise>"

  function Identity(b: seq<byte>): seq<byte> { b }

  // ---------------------------------------------------------------------------
  // Chunking

  /** What the loop `for i in range(0, len(audio), size)` yields once `size` is
      positive: a full chunk while one fits, and a final shorter chunk flagged
      last. A remainder of exactly `size` bytes is a full chunk and is not
      flagged. */
  function SplitChunks(audio: seq<byte>, size: int, transform: seq<byte> -> seq<byte>): seq<ChunkResult>
    requires size > 0
    decreases |audio|
  {
    if |audio| == 0 then []
    else if size > |audio| then [ChunkResult(transform(audio), true)]
    else [ChunkResult(transform(audio[..size]), false)] + SplitChunks(audio[size..], size, transform)
  }

  /** `encode_as_wav` asserts that the audio is LINEAR16. */
  const EncodeAsWavAssertion: string := "encode_as_wav requires LINEAR16"

  /** The chunk generator shared by `create_synthesis_result` and
      `create_synthesis_result_from_wav`, over every chunk size Python accepts:
      `range` refuses a zero step, yields nothing for a negative one, and
      `encode_as_wav` asserts LINEAR16 on the first chunk it wraps. */
  function ChunkStream(audio: seq<byte>, size: int, config: SynthesizerConfig,
                       encodeAsWav: seq<byte> -> seq<byte>): (r: Result<seq<ChunkResult>>)
    ensures size == 0 <==> r == Failure(RangeStepZero)
    ensures size < 0 || (size > 0 && |audio| == 0) ==> r == Success([])
    ensures size > 0 && !config.shouldEncodeAsWav ==> r == Success(SplitChunks(audio, size, Identity))
    ensures size > 0 && |audio| > 0 && config.shouldEncodeAsWav ==>
      r == (if config.audioEncoding == Linear16 then Success(SplitChunks(audio, size, encodeAsWav))
            else Failure(AssertionFailed(EncodeAsWavAssertion)))
  {
    if size == 0 then Failure(RangeStepZero)
    else if size < 0 || |audio| == 0 then Success([])
    else if config.shouldEncodeAsWav && config.audioEncoding != Linear16 then
      Failure(AssertionFailed(EncodeAsWavAssertion))
    else Success(SplitChunks(audio, size, if config.shouldEncodeAsWav then encodeAsWav else Identity))
  }

  /** The generator's loop, step by step: it produces the same chunks as
      `SplitChunks`. */
  method GenerateChunks(audio: seq<byte>, size: int, transform: seq<byte> -> seq<byte>)
    returns (out: seq<ChunkResult>)
    requires size > 0
    ensures out == SplitChunks(audio, size, transform)
  {
    out := [];
    var i := 0;
    while i < |audio|
      invariant 0 <= i <= |audio|
      invariant out + SplitChunks(audio[i..], size, transform) == SplitChunks(audio, size, transform)
      decreases |audio| - i
    {
      var rest := audio[i..];
      if i + size > |audio| {
        assert SplitChunks(rest, size, transform) == [ChunkResult(transform(rest), true)];
        assert SplitChunks(audio[|audio|..], size, transform) == [];
        out := out + [ChunkResult(transform(rest), true)];
        i := |audio|;
      } else {
        var c := ChunkResult(transform(audio[i..i + size]), false);
        assert rest[size..] == audio[i + size..];
        assert rest[..size] == audio[i..i + size];
        assert SplitChunks(rest, size, transform) == [c] + SplitChunks(audio[i + size..], size, transform);
        assert (out + [c]) + SplitChunks(audio[i + size..], size, transform)
            == out + ([c] + SplitChunks(audio[i + size..], size, transform));
        out := out + [c];
        i := i + size;
      }
    }
  }

  /** The audio of each chunk, in order. */
  function ChunkData(cs: seq<ChunkResult>): (r: seq<seq<byte>>)
    ensures |r| == |cs| && forall k :: 0 <= k < |cs| ==> r[k] == cs[k].chunk
  {
    seq(|cs|, k requires 0 <= k < |cs| => cs[k].chunk)
  }

  /** The number of chunks is ceil(|audio| / size): all but the last are full. */
  lemma {:induction false} SplitChunksCount(audio: seq<byte>, size: int, t: seq<byte> -> seq<byte>)
    requires size > 0
    ensures var n := |SplitChunks(audio, size, t)|;
      (n - 1) * size < |audio| <= n * size
    decreases |audio|
  {
    if |audio| == 0 || size > |audio| {
    } else {
      var n' := |SplitChunks(audio[size..], size, t)|;
      SplitChunksCount(audio[size..], size, t);
      assert (n' + 1) * size == n' * size + size;
    }
  }

  /** Without a transform, chunk `k` is exactly the bytes `[k*size, k*size+size)`
      of the audio, cut short at its end. */
  lemma {:induction false} SplitChunksContentAt(audio: seq<byte>, size: int, k: nat)
    requires size > 0 && k < |SplitChunks(audio, size, Identity)|
    ensures k * size < |audio|
    ensures SplitChunks(audio, size, Identity)[k].chunk == audio[k * size .. Min(k * size + size, |audio|)]
    decreases k
  {
    if k > 0 {
      var rest := audio[size..];
      SplitChunksContentAt(rest, size, k - 1);
      assert k * size == (k - 1) * size + size;
      assert rest[(k - 1) * size .. Min((k - 1) * size + size, |rest|)]
          == audio[k * size .. Min(k * size + size, |audio|)];
    }
  }

  lemma SplitChunksContent(audio: seq<byte>, size: int)
    requires size > 0
    ensures var r := SplitChunks(audio, size, Identity);
      forall k :: 0 <= k < |r| ==>
        k * size < |audio| && r[k].chunk == audio[k * size .. Min(k * size + size, |audio|)]
  {
    forall k | 0 <= k < |SplitChunks(audio, size, Identity)| {
      SplitChunksContentAt(audio, size, k);
    }
  }

  /** Only a final chunk strictly shorter than `size` carries the last flag: if
      the audio length is a multiple of `size`, no chunk is flagged. */
  lemma {:induction false} SplitChunksLastFlagAt(audio: seq<byte>, size: int, t: seq<byte> -> seq<byte>, k: nat)
    requires size > 0 && k < |SplitChunks(audio, size, t)|
    ensures var r := SplitChunks(audio, size, t);
      r[k].isLastChunk <==> k == |r| - 1 && |audio| < |r| * size
    decreases |audio|
  {
    var r := SplitChunks(audio, size, t);
    SplitChunksCount(audio, size, t);
    if size <= |audio| {
      var rr := SplitChunks(audio[size..], size, t);
      assert r == [ChunkResult(t(audio[..size]), false)] + rr;
      assert |r| * size == |rr| * size + size;
      if k > 0 {
        SplitChunksLastFlagAt(audio[size..], size, t, k - 1);
        assert r[k] == rr[k - 1];
      } else if |rr| == 0 {
        assert |r| * size == size;
      }
    }
  }

  lemma SplitChunksLastFlag(audio: seq<byte>, size: int, t: seq<byte> -> seq<byte>)
    requires size > 0
    ensures var r := SplitChunks(audio, size, t);
      forall k :: 0 <= k < |r| ==> (r[k].isLastChunk <==> k == |r| - 1 && |audio| < |r| * size)
  {
    var r := SplitChunks(audio, size, t);
    forall k | 0 <= k < |r|
      ensures r[k].isLastChunk <==> k == |r| - 1 && |audio| < |r| * size
    {
      SplitChunksLastFlagAt(audio, size, t, k);
    }
  }

  /** With the identity transform, the chunks put back together are the audio. */
  lemma {:induction false} SplitChunksRoundTrip(audio: seq<byte>, size: int)
    requires size > 0
    ensures Join(ChunkData(SplitChunks(audio, size, Identity))) == audio
    decreases |audio|
  {
    if |audio| == 0 || size > |audio| {
    } else {
      var r := SplitChunks(audio, size, Identity);
      assert r[1..] == SplitChunks(audio[size..], size, Identity);
      assert ChunkData(r)[1..] == ChunkData(r[1..]);
      SplitChunksRoundTrip(audio[size..], size);
      assert audio == audio[..size] + audio[size..];
    }
  }

  /** A transform acts chunk by chunk: chunk boundaries and flags are those of
      the untransformed split. */
  lemma {:induction false} SplitChunksTransform(audio: seq<byte>, size: int, t: seq<byte> -> seq<byte>)
    requires size > 0
    ensures var r := SplitChunks(audio, size, t);
      var raw := SplitChunks(audio, size, Identity);
      |r| == |raw| &&
      forall k :: 0 <= k < |r| ==> r[k] == ChunkResult(t(raw[k].chunk), raw[k].isLastChunk)
    decreases |audio|
  {
    if |audio| == 0 || size > |audio| {
    } else {
      SplitChunksTransform(audio[size..], size, t);
    }
  }

  /** `empty_generator` yields a single empty chunk flagged last, unlike the
      chunking of empty audio, which yields nothing. */
  function EmptyGenerator(): (r: seq<ChunkResult>)
    ensures |r| == 1 && r[0].isLastChunk && |Join(ChunkData(r))| == 0
    ensures r != SplitChunks([], 1, Identity)
  {
    [ChunkResult([], true)]
  }

  // ---------------------------------------------------------------------------
  // Cutoff estimation

  /** `get_message_cutoff_from_total_response_length`, with Python's exceptions:
      the sampling-rate division happens before the empty-text test, `int()`
      truncates toward zero, and a negative index slices from the end. */
  function CutoffFromTotalResponseLength(samplingRate: int, text: string, seconds: real, sizeOfOutput: int)
    : (r: Result<string>)
    ensures r.Failure? <==> samplingRate == 0 || (|text| > 0 && sizeOfOutput == 0)
    ensures r.Success? ==> r.value <= text
    ensures samplingRate != 0 && |text| == 0 ==> r == Success(text)
  {
    if samplingRate == 0 then Failure(ZeroDivision)
    else
      var estimatedOutputSeconds := sizeOfOutput as real / samplingRate as real;
      if |text| == 0 then Success(text)
      else
        var secondsPerChar := estimatedOutputSeconds / |text| as real;
        if secondsPerChar == 0.0 then Failure(ZeroDivision)
        else Success(SliceTo(text, TruncToZero(seconds / secondsPerChar)))
  }

  /** The number of characters counted as spoken, for the usual arguments:
      elapsed time over the estimated time per character. */
  function CharsSpoken(samplingRate: int, len: nat, seconds: real, sizeOfOutput: int): int
    requires sizeOfOutput != 0
  {
    (seconds * (len as real * samplingRate as real / sizeOfOutput as real)).Floor
  }

  /** Dividing by the estimated seconds per character multiplies by the
      characters per second. */
  lemma CutoffQuotient(samplingRate: int, len: nat, seconds: real, sizeOfOutput: int)
    requires samplingRate != 0 && len > 0 && sizeOfOutput != 0
    ensures sizeOfOutput as real / samplingRate as real / len as real != 0.0
    ensures seconds / (sizeOfOutput as real / samplingRate as real / len as real)
         == seconds * (len as real * samplingRate as real / sizeOfOutput as real)
  {
    var perChar := sizeOfOutput as real / samplingRate as real / len as real;
    var rate := len as real * samplingRate as real / sizeOfOutput as real;
    assert perChar * rate == 1.0;
  }

  /** For non-negative seconds and a positive output size the spoken part is
      the first floor(seconds * len * rate / size) characters, capped at the
      whole text. */
  lemma CutoffClosedForm(samplingRate: int, text: string, seconds: real, sizeOfOutput: int)
    requires samplingRate > 0 && |text| > 0 && sizeOfOutput > 0 && seconds >= 0.0
    ensures CharsSpoken(samplingRate, |text|, seconds, sizeOfOutput) >= 0
    ensures CutoffFromTotalResponseLength(samplingRate, text, seconds, sizeOfOutput)
         == Success(text[..Min(CharsSpoken(samplingRate, |text|, seconds, sizeOfOutput), |text|)])
  {
    CutoffQuotient(samplingRate, |text|, seconds, sizeOfOutput);
    var rate := |text| as real * samplingRate as real / sizeOfOutput as real;
    assert rate > 0.0;
    assert seconds * rate >= 0.0;
    var perChar := sizeOfOutput as real / samplingRate as real / |text| as real;
    var x := seconds / perChar;
    assert x == seconds * rate;
    assert x >= 0.0;
    var n := TruncToZero(x);
    assert n == x.Floor;
    assert n == CharsSpoken(samplingRate, |text|, seconds, sizeOfOutput);
    assert SliceTo(text, n) == text[..Min(n, |text|)];
  }

  lemma FloorAtLeast(y: real, n: int)
    requires y >= n as real
    ensures y.Floor >= n
  {
  }

  lemma FloorMonotone(a: real, b: real)
    requires a <= b
    ensures a.Floor <= b.Floor
  {
  }

  /** The estimated duration times the characters per second is the length. */
  lemma DurationTimesRate(samplingRate: int, len: nat, sizeOfOutput: int)
    requires samplingRate > 0 && sizeOfOutput > 0
    ensures (sizeOfOutput as real / samplingRate as real)
          * (len as real * samplingRate as real / sizeOfOutput as real) == len as real
  {
  }

  lemma ScaledAtLeast(seconds: real, d: real, rate: real, len: real)
    requires seconds >= d && rate >= 0.0 && d * rate == len
    ensures seconds * rate >= len
  {
    var e := seconds - d;
    assert e >= 0.0;
    assert e * rate >= 0.0;
    assert seconds * rate == e * rate + d * rate;
  }

  lemma CharsSpokenFull(samplingRate: int, len: nat, seconds: real, sizeOfOutput: int)
    requires samplingRate > 0 && sizeOfOutput > 0
    requires seconds >= sizeOfOutput as real / samplingRate as real
    ensures CharsSpoken(samplingRate, len, seconds, sizeOfOutput) >= len
  {
    var rate := len as real * samplingRate as real / sizeOfOutput as real;
    var d := sizeOfOutput as real / samplingRate as real;
    DurationTimesRate(samplingRate, len, sizeOfOutput);
    assert rate >= 0.0;
    ScaledAtLeast(seconds, d, rate, len as real);
    FloorAtLeast(seconds * rate, len);
  }

  /** Once the estimated playing time has passed, the whole text was spoken. */
  lemma CutoffFullAfterDuration(samplingRate: int, text: string, seconds: real, sizeOfOutput: int)
    requires samplingRate > 0 && sizeOfOutput > 0
    requires seconds >= sizeOfOutput as real / samplingRate as real
    ensures CutoffFromTotalResponseLength(samplingRate, text, seconds, sizeOfOutput) == Success(text)
  {
    if |text| > 0 {
      CutoffClosedForm(samplingRate, text, seconds, sizeOfOutput);
      CharsSpokenFull(samplingRate, |text|, seconds, sizeOfOutput);
      assert text[..|text|] == text;
    }
  }

  lemma CharsSpokenMonotone(samplingRate: int, len: nat, s1: real, s2: real, sizeOfOutput: int)
    requires samplingRate > 0 && sizeOfOutput > 0 && s1 <= s2
    ensures CharsSpoken(samplingRate, len, s1, sizeOfOutput) <= CharsSpoken(samplingRate, len, s2, sizeOfOutput)
  {
    var rate := len as real * samplingRate as real / sizeOfOutput as real;
    assert rate >= 0.0;
    ScaledAtLeast(s2, s1, rate, s1 * rate);
    FloorMonotone(s1 * rate, s2 * rate);
  }

  /** Later cutoffs never take back text: the spoken part grows with time. */
  lemma CutoffMonotone(samplingRate: int, text: string, s1: real, s2: real, sizeOfOutput: int)
    requires samplingRate > 0 && sizeOfOutput > 0 && 0.0 <= s1 <= s2
    ensures var a := CutoffFromTotalResponseLength(samplingRate, text, s1, sizeOfOutput);
      var b := CutoffFromTotalResponseLength(samplingRate, text, s2, sizeOfOutput);
      a.Success? && b.Success? && a.value <= b.value
  {
    if |text| > 0 {
      CutoffClosedForm(samplingRate, text, s1, sizeOfOutput);
      CutoffClosedForm(samplingRate, text, s2, sizeOfOutput);
      CharsSpokenMonotone(samplingRate, |text|, s1, s2, sizeOfOutput);
      var n1 := Min(CharsSpoken(samplingRate, |text|, s1, sizeOfOutput), |text|);
      var n2 := Min(CharsSpoken(samplingRate, |text|, s2, sizeOfOutput), |text|);
      assert text[..n1] <= text[..n2];
    }
  }

  /** 10,000 bytes at 10,000 Hz last one second; half a second into a
      ten-character message, five characters were spoken. */
  lemma CutoffHalfwayExample()
    ensures CutoffFromTotalResponseLength(10000, "abcdefghij", 0.5, 10000) == Success("abcde")
  {
    CutoffClosedForm(10000, "abcdefghij", 0.5, 10000);
    assert 10 as real * 10000 as real / 10000 as real == 10.0;
    assert 0.5 * 10.0 == 5.0;
    assert CharsSpoken(10000, 10, 0.5, 10000) == 5;
    assert "abcdefghij"[..5] == "abcde";
  }

  /** A negative elapsed time can give a non-empty prefix: `int()` yields a
      negative index and the slice counts from the end of the text. */
  lemma CutoffNegativeSecondsExample()
    ensures CutoffFromTotalResponseLength(10000, "abcdefghij", -0.5, 10000) == Success("abcde")
  {
    CutoffQuotient(10000, 10, -0.5, 10000);
    assert 10 as real * 10000 as real / 10000 as real == 10.0;
    assert -0.5 * 10.0 == -5.0;
    assert TruncToZero(-5.0) == -5;
    assert SliceTo("abcdefghij", -5) == "abcdefghij"[..5] == "abcde";
  }

  /** The same message at 0 s and at -0.05 s gives the empty string, so the
      cutoff is not monotone across zero: -0.5 s above gives more. */
  lemma CutoffNotMonotoneAcrossZero()
    ensures CutoffFromTotalResponseLength(10000, "abcdefghij", 0.0, 10000) == Success("")
    ensures CutoffFromTotalResponseLength(10000, "abcdefghij", -0.05, 10000) == Success("")
  {
    CutoffQuotient(10000, 10, 0.0, 10000);
    CutoffQuotient(10000, 10, -0.05, 10000);
    assert 10 as real * 10000 as real / 10000 as real == 10.0;
    assert -0.05 * 10.0 == -0.5;
    assert TruncToZero(-0.5) == 0;
    assert TruncToZero(0.0) == 0;
    assert SliceTo("abcdefghij", 0) == "";
  }

  /** `math.floor(words_per_minute / 60 * seconds)`. */
  function EstimatedWordsSpoken(wordsPerMinute: int, seconds: real): (n: int)
    ensures n as real <= wordsPerMinute as real * seconds / 60.0 < n as real + 1.0
  {
    (wordsPerMinute as real / 60.0 * seconds).Floor
  }

  /** `get_message_cutoff_from_voice_speed`: the first estimated-words tokens of
      the message, re-joined. Tokeniser and detokeniser are parameters. */
  function CutoffFromVoiceSpeed<Tok>(text: string, seconds: real, wordsPerMinute: int,
                                     tokenize: string -> seq<Tok>, detokenize: seq<Tok> -> string): (r: string)
    ensures var toks := tokenize(text);
      var n := EstimatedWordsSpoken(wordsPerMinute, seconds);
      // a negative estimate is a Python negative slice: that many tokens are dropped from the end
      r == detokenize(toks[..if 0 <= n then Min(n, |toks|) else Max(0, |toks| + n)])
  {
    detokenize(SliceTo(tokenize(text), EstimatedWordsSpoken(wordsPerMinute, seconds)))
  }

  /** For a non-negative estimate, exactly the first floor(wpm/60 * seconds)
      tokens are kept (all of them if the message is shorter). */
  lemma VoiceSpeedKeepsLeadingTokens<Tok>(text: string, seconds: real, wordsPerMinute: int,
                                          tokenize: string -> seq<Tok>, detokenize: seq<Tok> -> string)
    requires wordsPerMinute >= 0 && seconds >= 0.0
    ensures var toks := tokenize(text);
      var n := EstimatedWordsSpoken(wordsPerMinute, seconds);
      0 <= n &&
      CutoffFromVoiceSpeed(text, seconds, wordsPerMinute, tokenize, detokenize)
        == detokenize(toks[..Min(n, |toks|)])
  {
    var n := EstimatedWordsSpoken(wordsPerMinute, seconds);
    assert wordsPerMinute as real * seconds >= 0.0;
  }

  /** At 60 words per minute one second of speech is one word. */
  lemma VoiceSpeedOneWordPerSecond()
    ensures EstimatedWordsSpoken(60, 1.0) == 1
  {
  }

  // ---------------------------------------------------------------------------
  // Synthesis results

  /** `FillerAudio.create_synthesis_result`: the clip cut into chunks of
      `secondsPerChunk` seconds, and a cutoff that is always the whole text. */
  function CreateFillerSynthesisResult(f: FillerAudio, chunkSizePerSecond: int,
                                       encodeAsWav: seq<byte> -> seq<byte>): (r: SynthesisResult)
    ensures forall seconds: real :: r.messageUpTo(seconds) == Success(f.messageText)
    ensures r.chunks == ChunkStream(f.audioData, chunkSizePerSecond * f.secondsPerChunk, f.config, encodeAsWav)
  {
    SynthesisResult(
      ChunkStream(f.audioData, chunkSizePerSecond * f.secondsPerChunk, f.config, encodeAsWav),
      (seconds: real) => Success(f.messageText))
  }

  /** `create_synthesis_result_from_wav`, from the converted bytes: chunks of
      `chunkSize`, with the length-proportional cutoff over those bytes. */
  function CreateSynthesisResultFromWav(config: SynthesizerConfig, outputBytes: seq<byte>, messageText: string,
                                        chunkSize: int, encodeAsWav: seq<byte> -> seq<byte>): (r: SynthesisResult)
    ensures forall seconds: real ::
      r.messageUpTo(seconds) == CutoffFromTotalResponseLength(config.samplingRate, messageText, seconds, |outputBytes|)
  {
    SynthesisResult(
      ChunkStream(outputBytes, chunkSize, config, encodeAsWav),
      (seconds: real) => CutoffFromTotalResponseLength(config.samplingRate, messageText, seconds, |outputBytes|))
  }

  /** With raw output and a positive chunk size, the yielded chunks put back
      together are the converted audio. */
  lemma FromWavRoundTrip(config: SynthesizerConfig, outputBytes: seq<byte>, messageText: string,
                         chunkSize: int, encodeAsWav: seq<byte> -> seq<byte>)
    requires chunkSize > 0 && !config.shouldEncodeAsWav
    ensures var r := CreateSynthesisResultFromWav(config, outputBytes, messageText, chunkSize, encodeAsWav);
      r.chunks.Success? && Join(ChunkData(r.chunks.value)) == outputBytes
  {
    if |outputBytes| > 0 {
      SplitChunksRoundTrip(outputBytes, chunkSize);
    }
  }

  // ---------------------------------------------------------------------------
  // Synthesizer construction and filler audio

  datatype SynthesizerState = SynthesizerState(config: SynthesizerConfig, fillerAudios: seq<FillerAudio>)

  /** The checks of `BaseSynthesizer.__init__`: MULAW only at 8 kHz; filler
      audio starts out empty. */
  function NewSynthesizer(config: SynthesizerConfig): (r: Result<SynthesizerState>)
    ensures r.Failure? <==> config.audioEncoding == Mulaw && config.samplingRate != 8000
    ensures r.Success? ==> r.value.config == config && r.value.fillerAudios == []
  {
    if config.audioEncoding == Mulaw && config.samplingRate != 8000 then
      Failure(AssertionFailed("MuLaw encoding only supports 8kHz sampling rate"))
    else Success(SynthesizerState(config, []))
  }

  /** `get_typing_noise_filler_audio`, from the converted typing-noise clip. */
  function TypingNoiseFillerAudio(config: SynthesizerConfig, audioData: seq<byte>): (f: FillerAudio)
    ensures f.isInterruptible && f.secondsPerChunk == 2 && f.messageText == TypingNoiseText
    ensures f.config == config && f.audioData == audioData
  {
    FillerAudio(TypingNoiseText, audioData, config, true, 2)
  }

  /** `set_filler_audios`: phrases take precedence over typing noise; with
      neither flag the filler list is left as it was. `phraseAudios` is what
      `get_phrase_filler_audios` returns (empty in the base class). */
  function SetFillerAudios(s: SynthesizerState, c: FillerAudioConfig, phraseAudios: seq<FillerAudio>,
                           typingNoiseAudio: seq<byte>): (r: SynthesizerState)
    ensures r.config == s.config
    ensures c.usePhrases ==> r.fillerAudios == phraseAudios
    ensures !c.usePhrases && c.useTypingNoise ==>
      |r.fillerAudios| == 1 && r.fillerAudios[0].messageText == TypingNoiseText
    ensures !c.usePhrases && !c.useTypingNoise ==> r == s
  {
    if c.usePhrases then s.(fillerAudios := phraseAudios)
    else if c.useTypingNoise then s.(fillerAudios := [TypingNoiseFillerAudio(s.config, typingNoiseAudio)])
    else s
  }

  /** A validated filler configuration always installs some filler audio:
      the "leave unchanged" branch is only reachable without the validator. */
  lemma ValidatedConfigInstallsFiller(s: SynthesizerState, t: real, p: bool, n: bool,
                                      phraseAudios: seq<FillerAudio>, typingNoiseAudio: seq<byte>)
    requires ValidateFillerAudioConfig(t, p, n).Success?
    ensures var c := ValidateFillerAudioConfig(t, p, n).value;
      var r := SetFillerAudios(s, c, phraseAudios, typingNoiseAudio);
      (n ==> r.fillerAudios == [TypingNoiseFillerAudio(s.config, typingNoiseAudio)])
      && (!n ==> r.fillerAudios == phraseAudios)
  {
  }
}
