/** `GoogleTranscriber`: the rejections of its constructor, the recognition
    config it builds, the generator that batches buffered audio chunks until
    the `None` sentinel, the filter that turns a recognition response into at
    most one transcription, and the response loop that stops after
    `terminate()`. The Google client and the janus queues are foreign: the
    queue's contents as the generator sees them, and the responses, are
    parameters. */
module GoogleTranscriber {
  import opened Common

  type Bytes = seq<byte>

  // ---------------------------------------------------------------------------
  // Construction

  datatype TranscriberConfig = TranscriberConfig(
    samplingRate: int,
    audioEncoding: AudioEncoding,
    model: Option<string>,
    languageCode: Option<string>,
    hasEndpointingConfig: bool)

  /** The `RecognitionConfig` fields the transcriber sets. */
  datatype RecognitionConfig = RecognitionConfig(
    encoding: AudioEncoding,
    sampleRateHertz: int,
    model: Option<string>,
    useEnhanced: bool,
    languageCode: Option<string>)

  datatype StreamingConfig = StreamingConfig(config: RecognitionConfig, interimResults: bool)

  /** Python truthiness of an optional string. */
  predicate Truthy(s: Option<string>)
  {
    s.Some? && |s.value| > 0
  }

  /** `create_google_streaming_config`: a model, when given, is passed with
      `use_enhanced`; a language code only when given; interim results always. */
  function CreateStreamingConfig(c: TranscriberConfig): (r: StreamingConfig)
    ensures r.interimResults
    ensures r.config.encoding == c.audioEncoding && r.config.sampleRateHertz == c.samplingRate
    ensures Truthy(c.model) <==> r.config.useEnhanced
    ensures r.config.useEnhanced <==> r.config.model.Some?
    ensures r.config.model.Some? ==> r.config.model == c.model
    ensures r.config.languageCode.Some? <==> Truthy(c.languageCode)
    ensures r.config.languageCode.Some? ==> r.config.languageCode == c.languageCode
  {
    var useModel := Truthy(c.model);
    StreamingConfig(
      RecognitionConfig(
        c.audioEncoding,
        c.samplingRate,
        if useModel then c.model else None,
        useModel,
        if Truthy(c.languageCode) then c.languageCode else None),
      true)
  }

  datatype Transcriber = Transcriber(
    config: TranscriberConfig,
    streamingConfig: StreamingConfig,
    ended: bool,
    isReady: bool)

  const MissingCredentials: string := "Please set GOOGLE_APPLICATION_CREDENTIALS environment variable"
  const EndpointingUnsupported: string := "Google endpointing config not supported yet"

  /** The constructor, with the `GOOGLE_APPLICATION_CREDENTIALS` variable as a
      parameter: a missing or empty path is refused first, an endpointing
      config next. */
  function NewTranscriber(c: TranscriberConfig, credentialsPath: Option<string>): (r: Result<Transcriber>)
    ensures !Truthy(credentialsPath) ==> r == Failure(Raised(MissingCredentials))
    ensures Truthy(credentialsPath) && c.hasEndpointingConfig ==> r == Failure(Raised(EndpointingUnsupported))
    ensures r.Success? <==> Truthy(credentialsPath) && !c.hasEndpointingConfig
    ensures r.Success? ==> r.value.config == c && !r.value.ended && !r.value.isReady
  {
    if !Truthy(credentialsPath) then Failure(Raised(MissingCredentials))
    else if c.hasEndpointingConfig then Failure(Raised(EndpointingUnsupported))
    else Success(Transcriber(c, CreateStreamingConfig(c), false, false))
  }

  function Terminate(t: Transcriber): (r: Transcriber)
    ensures r.ended && r.config == t.config && r.streamingConfig == t.streamingConfig
  {
    t.(ended := true)
  }

  // ---------------------------------------------------------------------------
  // The audio generator

  /** What one pass of the generator's outer loop sees: whether `terminate()`
      had already been called, the chunk its blocking `get()` returns, and the
      chunks its `get_nowait()` calls then find buffered. */
  datatype Round = Round(endedBefore: bool, first: Option<Bytes>, buffered: seq<Option<Bytes>>)

  /** All chunks the generator dequeues in a round, in arrival order. */
  function RoundChunks(rd: Round): seq<Option<Bytes>>
  {
    [rd.first] + rd.buffered
  }

  /** The chunks before the first `None`, and whether a `None` was met. */
  function UntilSentinel(xs: seq<Option<Bytes>>): (r: (seq<Bytes>, bool))
    ensures |r.0| <= |xs|
    ensures r.1 <==> |r.0| < |xs|
  {
    if |xs| == 0 then ([], false)
    else if xs[0].None? then ([], true)
    else
      var tail := UntilSentinel(xs[1..]);
      ([xs[0].value] + tail.0, tail.1)
  }

  /** The chunks kept are exactly the values before the first `None`. */
  lemma {:induction false} UntilSentinelSpec(xs: seq<Option<Bytes>>)
    ensures var r := UntilSentinel(xs);
      && (forall i :: 0 <= i < |r.0| ==> xs[i] == Some(r.0[i]))
      && (r.1 ==> xs[|r.0|].None?)
    decreases |xs|
  {
    if |xs| > 0 && xs[0].Some? {
      UntilSentinelSpec(xs[1..]);
      var r := UntilSentinel(xs);
      forall i | 0 <= i < |r.0| ensures xs[i] == Some(r.0[i]) {
        if i > 0 {
          assert xs[i] == xs[1..][i - 1];
        }
      }
    }
  }

  /** `generator()`: each round either stops the stream (ended before it
      started, or a `None` among its chunks, which discards the batch under
      construction) or yields the concatenation of its chunks. */
  function Generate(rounds: seq<Round>): (batches: seq<Bytes>)
    ensures |batches| <= |rounds|
    ensures forall k :: 0 <= k < |batches| ==>
      !rounds[k].endedBefore && !UntilSentinel(RoundChunks(rounds[k])).1
      && batches[k] == Join(UntilSentinel(RoundChunks(rounds[k])).0)
    ensures |batches| < |rounds| ==>
      rounds[|batches|].endedBefore || UntilSentinel(RoundChunks(rounds[|batches|])).1
  {
    if |rounds| == 0 || rounds[0].endedBefore then []
    else
      var (data, stop) := UntilSentinel(RoundChunks(rounds[0]));
      if stop then [] else [Join(data)] + Generate(rounds[1..])
  }

  /** Every chunk dequeued across all rounds, in arrival order. */
  function AllChunks(rounds: seq<Round>): seq<Option<Bytes>>
  {
    if |rounds| == 0 then [] else RoundChunks(rounds[0]) + AllChunks(rounds[1..])
  }

  lemma {:induction false} UntilSentinelAppend(xs: seq<Option<Bytes>>, ys: seq<Option<Bytes>>)
    requires !UntilSentinel(xs).1
    ensures UntilSentinel(xs + ys).0 == UntilSentinel(xs).0 + UntilSentinel(ys).0
    ensures UntilSentinel(xs + ys).1 == UntilSentinel(ys).1
  {
    if |xs| > 0 {
      assert (xs + ys)[1..] == xs[1..] + ys;
      UntilSentinelAppend(xs[1..], ys);
    } else {
      assert xs + ys == ys;
    }
  }

  lemma {:induction false} UntilSentinelStops(xs: seq<Option<Bytes>>, ys: seq<Option<Bytes>>)
    requires UntilSentinel(xs).1
    ensures UntilSentinel(xs + ys).0 == UntilSentinel(xs).0
    ensures UntilSentinel(xs + ys).1
  {
    if xs[0].Some? {
      assert (xs + ys)[1..] == xs[1..] + ys;
      UntilSentinelStops(xs[1..], ys);
    }
  }

  /** The audio sent to Google is a prefix of the audio that arrived before
      the first `None`: nothing is reordered, duplicated or invented. */
  lemma {:induction false} GeneratedIsPrefix(rounds: seq<Round>)
    ensures Join(Generate(rounds)) <= Join(UntilSentinel(AllChunks(rounds)).0)
    decreases |rounds|
  {
    if |rounds| == 0 || rounds[0].endedBefore {
      return;
    }
    var here := RoundChunks(rounds[0]);
    assert AllChunks(rounds) == here + AllChunks(rounds[1..]);
    if UntilSentinel(here).1 {
      return;
    }
    UntilSentinelAppend(here, AllChunks(rounds[1..]));
    GeneratedIsPrefix(rounds[1..]);
    var a := UntilSentinel(here).0;
    var b := UntilSentinel(AllChunks(rounds[1..])).0;
    JoinConcat([Join(a)], Generate(rounds[1..]));
    JoinConcat(a, b);
    assert Join([Join(a)]) == Join(a) by { JoinAppend([], Join(a)); }
  }

  /** Without a `None` and without `terminate()`, all the audio is sent. */
  lemma {:induction false} GeneratedIsAll(rounds: seq<Round>)
    requires forall k :: 0 <= k < |rounds| ==> !rounds[k].endedBefore
    requires !UntilSentinel(AllChunks(rounds)).1
    ensures Join(Generate(rounds)) == Join(UntilSentinel(AllChunks(rounds)).0)
    decreases |rounds|
  {
    if |rounds| == 0 {
      return;
    }
    var here := RoundChunks(rounds[0]);
    assert AllChunks(rounds) == here + AllChunks(rounds[1..]);
    if UntilSentinel(here).1 {
      UntilSentinelStops(here, AllChunks(rounds[1..]));
      assert false;
    }
    UntilSentinelAppend(here, AllChunks(rounds[1..]));
    GeneratedIsAll(rounds[1..]);
    var a := UntilSentinel(here).0;
    var b := UntilSentinel(AllChunks(rounds[1..])).0;
    JoinConcat([Join(a)], Generate(rounds[1..]));
    JoinConcat(a, b);
    assert Join([Join(a)]) == Join(a) by { JoinAppend([], Join(a)); }
  }

  /** Once a round holds the `None` sentinel, nothing from that round or any
      later one is yielded: the chunks collected alongside the sentinel are
      dropped. */
  lemma SentinelDiscardsBatch(rounds: seq<Round>, k: nat)
    requires k < |rounds| && UntilSentinel(RoundChunks(rounds[k])).1
    ensures |Generate(rounds)| <= k
  {
  }

  /** A single round whose chunk is followed by the sentinel yields nothing,
      though the chunk was collected. */
  lemma SentinelDiscardsBatchExample(a: Bytes)
    ensures Generate([Round(false, Some(a), [None])]) == []
    ensures UntilSentinel(AllChunks([Round(false, Some(a), [None])])).0 == [a]
  {
    var rd := Round(false, Some(a), [None]);
    assert AllChunks([rd]) == [Some(a), None] by {
      assert AllChunks([rd][1..]) == [];
    }
    assert UntilSentinel([None]) == ([], true);
    assert [Some(a), None][1..] == [None];
  }

  // ---------------------------------------------------------------------------
  // Responses

  datatype Alternative = Alternative(transcript: string, confidence: real)
  datatype RecognitionResult = RecognitionResult(alternatives: seq<Alternative>, isFinal: bool)
  datatype Response = Response(results: seq<RecognitionResult>)
  datatype Transcription = Transcription(message: string, confidence: real, isFinal: bool)

  /** `_on_response`: nothing without a result or without an alternative of
      the first result; otherwise the top alternative of the first result. */
  function OnResponse(resp: Response): (r: Option<Transcription>)
    ensures r.None? <==> |resp.results| == 0 || |resp.results[0].alternatives| == 0
    ensures r.Some? ==>
      && r.value.message == resp.results[0].alternatives[0].transcript
      && r.value.confidence == resp.results[0].alternatives[0].confidence
      && r.value.isFinal == resp.results[0].isFinal
  {
    if |resp.results| == 0 then None
    else if |resp.results[0].alternatives| == 0 then None
    else
      var top := resp.results[0].alternatives[0];
      Some(Transcription(top.transcript, top.confidence, resp.results[0].isFinal))
  }

  /** The transcriptions a sequence of responses produces, in order. */
  function Emitted(responses: seq<Response>): seq<Transcription>
  {
    if |responses| == 0 then []
    else
      var head := OnResponse(responses[0]);
      (if head.Some? then [head.value] else []) + Emitted(responses[1..])
  }

  /** `process_responses_loop`, with `terminate()` observed right after the
      response at index `endedAfter` (if ever): that response is still
      handled, none after it is. */
  function ProcessResponses(responses: seq<Response>, endedAfter: Option<nat>): (r: (seq<Transcription>, nat))
    ensures r.1 <= |responses|
    ensures endedAfter.None? ==> r.1 == |responses|
    ensures endedAfter.Some? ==> r.1 == Min(endedAfter.value + 1, |responses|)
    decreases |responses|
  {
    if |responses| == 0 then ([], 0)
    else
      var head := OnResponse(responses[0]);
      var out := if head.Some? then [head.value] else [];
      if endedAfter == Some(0) then (out, 1)
      else
        var next := if endedAfter.Some? then Some(endedAfter.value - 1) else None;
        var (rest, n) := ProcessResponses(responses[1..], next);
        (out + rest, n + 1)
  }

  /** The loop emits exactly what the handled responses produce, in order;
      responses after the termination point are never looked at. */
  lemma {:induction false} ProcessResponsesEmitsHandled(responses: seq<Response>, endedAfter: Option<nat>)
    ensures ProcessResponses(responses, endedAfter).0
      == Emitted(responses[..ProcessResponses(responses, endedAfter).1])
    decreases |responses|
  {
    if |responses| == 0 {
      return;
    }
    var n := ProcessResponses(responses, endedAfter).1;
    assert responses[..n][1..] == responses[1..][..n - 1];
    if endedAfter != Some(0) {
      var next := if endedAfter.Some? then Some(endedAfter.value - 1) else None;
      ProcessResponsesEmitsHandled(responses[1..], next);
    } else {
      assert responses[..n][1..] == [];
    }
  }

  /** Every emitted transcription comes from a response with a top choice:
      the filter drops exactly the empty responses. */
  lemma {:induction false} EmittedCount(responses: seq<Response>)
    ensures |Emitted(responses)| <= |responses|
    ensures |Emitted(responses)| == |responses| <==>
      forall i :: 0 <= i < |responses| ==> OnResponse(responses[i]).Some?
    decreases |responses|
  {
    if |responses| > 0 {
      EmittedCount(responses[1..]);
      assert forall i :: 1 <= i < |responses| ==> responses[i] == responses[1..][i - 1];
    }
  }
}
