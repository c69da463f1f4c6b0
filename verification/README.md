# vocode core, modelled in Dafny

This project models the sequential cores of the vocode streaming voice-conversation library and proves properties about them:

- **Synthesis.** The chunk generator splits synthesized audio into fixed-size chunks. Only a short final chunk is flagged last.
- **Cutoff estimation.** Two estimators say how much of a bot message was heard after a given number of seconds: the length-proportional one and the words-per-minute one.
- **Filler audio.** The filler-audio configuration validator and the rule for choosing filler audio.
- **Synthesizer construction.** The MULAW / 8 kHz check in the synthesizer constructor.
- **Workers.** The worker framework:
  - `AsyncWorker` start, send and terminate;
  - the FIFO loop of `AsyncQueueWorker`;
  - `InterruptibleEvent`, a one-way cancellation flag gated by an interruptible bit;
  - a sequential state machine for the `InterruptibleWorker` loop and its `cancel_current_task` guard.
- **Twilio call session.** The handshake, classification of each frame, filling of jitter gaps with mu-law silence, the receive loop, and shutdown.
- **Events manager.** The subscription filter, the FIFO queue, and `end()` draining the queue.
- **Config store.** The in-memory call-config store.
- **Vonage.** The Vonage NCCO builder.
- **Speaker output.** The choice of sampling rate and block size, splitting a chunk into zero-padded blocks, and the playback callback.
- **Google transcriber.** Its constructor checks, the streaming config, the audio batching generator, the response filter, and the response loop.
- **Events.** Rendering of `TranscriptEvent`.

Each source file has its own module. `Common` holds the shared pieces:

- `Option` and `Result`. Python exceptions become `Failure` values, so none of the error paths need a precondition.
- The `byte` type, one octet of a Python `bytes` object.
- Python's `int()` truncation toward zero (`TruncToZero`).
- Python slicing with a possibly negative end (`SliceTo`).
- Concatenation of a sequence of sequences (`Join`).

The model states behaviour in the program's own terms:

- Audio is `seq<byte>`. Speaker samples are `int16`.
- The Python floats of the cutoff estimator are exact `real`s, with `Floor` and truncation written out.
- Each asynchronous loop is a pure step function over an immutable state record.
- A `threading.Event` shared by several interruptible events is one slot of a signal store, addressed by index. Setting it is therefore visible to every event that shares it.
- Foreign calls are function parameters:
  - the WAV encoder;
  - the nltk tokenizer and detokenizer;
  - the per-item outcome of `process`;
  - the Twilio `answered_by` field;
  - the Google credentials variable;
  - rendering of the timestamp float.

## Behaviour as coded

In four places the code does something a caller may not expect:

- A negative `seconds` value given to the length-proportional cutoff gives a negative slice end. The slice then counts from the end of the text, so the result can be non-empty (Synthesizer.CutoffNegativeSecondsExample). Then less time can give a longer prefix: -0.5 s of a 1 s message gives half of it while 0 s gives nothing.
- `publish_event` does not check `active`, so events published after `end()` are still enqueued (EventsManager.PublishAfterEnd).
- The `InterruptibleWorker` loop returns when a `CancelledError` escapes the current task. It does so without marking the event non-interruptible or clearing the current task (Worker.Resume). Only a normal finish or an ordinary exception releases the event.
- `attach_ws_and_start` awaits the in-memory store's synchronous `delete_config`. The config is deleted, then the `await` raises `TypeError`, and `tear_down()` never runs. This happens on every path that reaches the clean-up, including the machine and fax path; when the handshake or the loop raises first, the store is left untouched. See "## Findings" (TwilioCall.AttachWsAndStartAsWritten). The corrected TwilioCall.AttachWsAndStart still skips the clean-up when an exception escapes the handshake or the loop, for example a transport disconnect.

## Model

| member | source | states |
|---|---|---|
| Synthesizer.SplitChunksRoundTrip | vocode/streaming/synthesizer/base_synthesizer.py:100-109 | With the identity transform, concatenating the chunks gives back the audio bytes exactly |
| Synthesizer.SplitChunksCount | vocode/streaming/synthesizer/base_synthesizer.py:227-236 | The number of chunks n is the ceiling of len/size: (n-1)*size < len <= n*size, and there are no chunks for empty audio |
| Synthesizer.SplitChunksContent | vocode/streaming/synthesizer/base_synthesizer.py:228-236 | Chunk k is bytes [k*size, min(k*size+size, len)) of the audio, so every chunk except possibly the final one is exactly size bytes |
| Synthesizer.SplitChunksLastFlag | vocode/streaming/synthesizer/base_synthesizer.py:102-105 | A chunk is flagged last iff it is the final chunk and strictly shorter than size, so an exact multiple has no flagged chunk |
| Synthesizer.SplitChunksTransform | vocode/streaming/synthesizer/base_synthesizer.py:227-236 | The per-chunk transform (WAV encoding) is applied to exactly the identity chunk, and the last flags are the same |
| Synthesizer.GenerateChunks | vocode/streaming/synthesizer/base_synthesizer.py:227-236 | The generator loop yields exactly the chunk sequence that the recursive definition characterises |
| Synthesizer.ChunkStream | vocode/streaming/synthesizer/base_synthesizer.py:100-116 | range() with step 0 fails with ValueError; a negative step or empty audio yields nothing; without WAV encoding, the raw chunk sequence; with should_encode_as_wav, encode_as_wav is applied to every chunk for LINEAR16 audio, and any other encoding fails encode_as_wav's LINEAR16 assertion |
| Synthesizer.EmptyGenerator | vocode/streaming/synthesizer/base_synthesizer.py:143-144 | Yields exactly one chunk, empty and flagged last, unlike the chunking of empty audio (which yields none) |
| Synthesizer.CreateFillerSynthesisResult | vocode/streaming/synthesizer/base_synthesizer.py:91-117 | Filler audio's message-up-to returns the full message text for every seconds value; the chunk size is the per-second size times seconds_per_chunk |
| Synthesizer.CutoffFromTotalResponseLength | vocode/streaming/synthesizer/base_synthesizer.py:176-187 | Fails with division by zero iff the rate is 0 or (the text is non-empty and size is 0); empty text is returned unchanged; every result is a prefix of the text |
| Synthesizer.CutoffClosedForm | vocode/streaming/synthesizer/base_synthesizer.py:182-187 | For seconds >= 0 and positive size and rate the result is text[:min(len, floor(seconds*len*rate/size))] |
| Synthesizer.CutoffFullAfterDuration | vocode/streaming/synthesizer/base_synthesizer.py:182-187 | Once seconds >= size/rate, the full text is returned |
| Synthesizer.CutoffNotMonotoneAcrossZero | vocode/streaming/synthesizer/base_synthesizer.py:182-187 | On a 1 s, 10-character message, 0 s and -0.05 s both give the empty string (while -0.5 s gives five characters) |
| Synthesizer.CutoffMonotone | vocode/streaming/synthesizer/base_synthesizer.py:182-187 | For non-negative seconds, more seconds never yield a shorter prefix: the earlier cutoff is a prefix of the later one (across zero it does not hold; see "Behaviour as coded") |
| Synthesizer.CutoffNegativeSecondsExample | vocode/streaming/synthesizer/base_synthesizer.py:187 | A negative seconds value truncates to a negative slice end that counts from the end of the text: -0.5 s on a 1 s, 10-char message gives its first 5 chars |
| Synthesizer.EstimatedWordsSpoken | vocode/streaming/synthesizer/base_synthesizer.py:193-194 | The estimate n is the floor of wpm/60*seconds: n <= wpm*seconds/60 < n+1 |
| Synthesizer.CutoffFromVoiceSpeed | vocode/streaming/synthesizer/base_synthesizer.py:189-196 | The result is the detokenization of the first floor(wpm/60 * seconds) tokens (all of them if the message is shorter); a negative estimate is a Python negative slice, dropping that many tokens from the end |
| Synthesizer.VoiceSpeedKeepsLeadingTokens | vocode/streaming/synthesizer/base_synthesizer.py:193-196 | The rate-based cutoff detokenizes exactly the first min(#tokens, floor(wpm/60*seconds)) tokens |
| Synthesizer.CreateSynthesisResultFromWav | vocode/streaming/synthesizer/base_synthesizer.py:238-243 | The result's message-up-to is the length-proportional cutoff over the full length of the converted output, for every seconds value |
| Synthesizer.FromWavRoundTrip | vocode/streaming/synthesizer/base_synthesizer.py:222-239 | Without WAV encoding and with a positive chunk size, the chunks of a result made from converted bytes join back to exactly those bytes |
| Synthesizer.NewSynthesizer | vocode/streaming/synthesizer/base_synthesizer.py:124-134 | Construction fails iff the encoding is MULAW and the rate is not 8000; otherwise no filler audios yet |
| Synthesizer.TypingNoiseFillerAudio | vocode/streaming/synthesizer/base_synthesizer.py:149-160 | The typing-noise filler is interruptible, 2 seconds per chunk, with text "<typing noise>" |
| Synthesizer.SetFillerAudios | vocode/streaming/synthesizer/base_synthesizer.py:162-166 | Phrases are preferred over typing noise; with neither flag set the filler list is unchanged |
| Synthesizer.ValidatedConfigInstallsFiller | vocode/streaming/synthesizer/base_synthesizer.py:162-166 | A validated filler config always installs exactly one kind: the phrases, or the one typing-noise filler |
| AgentModels.ValidateFillerAudioConfig | vocode/streaming/models/agent.py:41-47 | Rejects iff both flags are false; typing noise forces use_phrases false; use_typing_noise and the threshold are kept |
| AgentModels.DefaultsAreValid | vocode/streaming/models/agent.py:10 | The defaults are 0.5 s, phrases on and typing noise off, and they pass the validator unchanged |
| AgentModels.ValidatedIsNormal | vocode/streaming/models/agent.py:36-47 | Every accepted config uses exactly one filler kind, never both |
| Worker.NewAsyncWorker | vocode/streaming/utils/worker.py:14-21 | A new worker adopts the caller's input queue as it is (shared, possibly non-empty) and has no task |
| Worker.TerminateBeforeStart | vocode/streaming/utils/worker.py:33-37 | terminate() on a worker that was never started returns False and changes nothing |
| Worker.Start | vocode/streaming/utils/worker.py:23-25 | start() creates a pending task and leaves the queue as it is |
| Worker.SendNonblocking | vocode/streaming/utils/worker.py:27-28 | The item is appended at the tail of the input queue; nothing else changes |
| Worker.Terminate | vocode/streaming/utils/worker.py:33-37 | Returns true iff a task is pending, which it then asks to cancel; before start() it returns false and changes nothing |
| Worker.TerminateIdempotent | vocode/streaming/utils/worker.py:33-37 | Terminating twice is the same as terminating once |
| Worker.RunQueueWorker | vocode/streaming/utils/worker.py:84-92 | The loop handles items in FIFO order; an item raising an ordinary exception does not stop it; only a CancelledError ends it, after that item |
| Worker.QueueWorkerFifo | vocode/streaming/utils/worker.py:84-92 | Without cancellation every queued item is processed, in order |
| Worker.IsInterrupted | vocode/streaming/utils/worker.py:125-126 | True iff the event is interruptible and its (possibly shared) signal is set |
| Worker.InterruptedIffInterruptIsNoOp | vocode/streaming/utils/worker.py:116-126 | An event is interrupted exactly when it is interruptible and a further interrupt() would change nothing |
| Worker.NewEvent | vocode/streaming/utils/worker.py:105-114 | A new event gets the shared signal when one is given, otherwise a fresh unset one; the existing events are unchanged |
| Worker.NewEventDefaults | vocode/streaming/utils/worker.py:108-114 | By default an event is interruptible and not interrupted |
| Worker.Interrupt | vocode/streaming/utils/worker.py:116-123 | Returns true iff the event is interruptible; then the signal is set and the event is interrupted; otherwise nothing changes; other signals are untouched |
| Worker.InterruptIdempotent | vocode/streaming/utils/worker.py:120-123 | Interrupting twice is the same as interrupting once |
| Worker.SharedSignalInterruptsBoth | vocode/streaming/utils/worker.py:110-123 | Interrupting one event interrupts every interruptible event that shares its signal |
| Worker.MarkNonInterruptible | vocode/streaming/utils/worker.py:125-155 | After clearing is_interruptible the event is not interrupted, the signals are unchanged, and so are all other events |
| Worker.NonInterruptibleIgnoresSignal | vocode/streaming/utils/worker.py:125-126 | Clearing is_interruptible makes is_interrupted false even when the signal is already set |
| Worker.NewInterruptibleWorker | vocode/streaming/utils/worker.py:130-139 | A new interruptible worker adopts the caller's queue, has no current task and no interruptible_event, and has processed nothing |
| Worker.NewWorkerInv | vocode/streaming/utils/worker.py:130-139 | A new worker over a queue of existing events satisfies the loop invariant: at most one task, owned by interruptible_event |
| Worker.Dequeue | vocode/streaming/utils/worker.py:143-148 | An already-interrupted event is skipped with no current task; otherwise it becomes the current task, running |
| Worker.Resume | vocode/streaming/utils/worker.py:149-156 | After a normal or exception finish the event becomes non-interruptible and the current task is cleared; a CancelledError ends the loop with the event untouched |
| Worker.FinishedTaskIsReleased | vocode/streaming/utils/worker.py:147-156 | A task that finishes other than by cancellation releases the worker: no current task, and its event non-interruptible |
| Worker.CancelCurrentTask | vocode/streaming/utils/worker.py:165-178 | Cancels iff there is a current task, it is not done, and its event is interruptible; otherwise returns false and changes nothing |
| Worker.DrainProcessesUninterrupted | vocode/streaming/utils/worker.py:141-156 | Draining a queue of distinct events processes exactly the events that were not interrupted, in queue order |
| ConfigManager.NewConfigStore | vocode/streaming/telephony/config_manager/in_memory_config_manager.py:9-10 | A new store holds no config |
| ConfigManager.SaveConfig | vocode/streaming/telephony/config_manager/in_memory_config_manager.py:12-13 | The id maps to the new config; every other entry is kept |
| ConfigManager.GetConfig | vocode/streaming/telephony/config_manager/in_memory_config_manager.py:15-16 | Returns the stored config, or None for an id never saved |
| ConfigManager.DeleteConfig | vocode/streaming/telephony/config_manager/in_memory_config_manager.py:18-20 | Removes the id and keeps every other entry; deleting an absent id is a no-op |
| ConfigManager.GetAfterSave | vocode/streaming/telephony/config_manager/in_memory_config_manager.py:12-16 | Get after save returns the saved config; a later save overwrites it |
| ConfigManager.DeleteThenGet | vocode/streaming/telephony/config_manager/in_memory_config_manager.py:16-20 | After delete, get returns None, and a second delete changes nothing |
| ConfigManager.OtherIdsUnchanged | vocode/streaming/telephony/config_manager/in_memory_config_manager.py:12-20 | Save and delete on one id leave what every other id reads unchanged |
| Events.TranscriptToString | vocode/streaming/models/events.py:24-27 | The output begins with the sender's name and ": "; its length is that of the name, text and, if asked, the timestamp suffix |
| Events.ToStringWithTimestampExtends | vocode/streaming/models/events.py:25-27 | With the timestamp the string is the plain rendering followed by " (" timestamp ")", so the plain one is a prefix |
| Events.ToStringUsesMemberName | vocode/streaming/models/events.py:5-27 | The sender is rendered by member name (HUMAN/BOT), not by its lower-case value |
| EventsManager.NewEventsManager | vocode/streaming/utils/events_manager.py:8-11 | A new manager is inactive, has an empty queue, and subscribes to exactly the given types |
| EventsManager.PublishEvent | vocode/streaming/utils/events_manager.py:13-15 | A subscribed event is appended at the tail; an unsubscribed one leaves the manager unchanged |
| EventsManager.DefaultDropsEverything | vocode/streaming/utils/events_manager.py:8-15 | With the default empty subscription list every publish is dropped |
| EventsManager.Start | vocode/streaming/utils/events_manager.py:17-18 | start() sets active and leaves the queue unchanged |
| EventsManager.LoopStep | vocode/streaming/utils/events_manager.py:19-24 | One loop pass hands the head of the queue to handle_event; the loop exits afterwards iff inactive |
| EventsManager.RunLoopFifo | vocode/streaming/utils/events_manager.py:17-24 | While active, the loop handles the queued events in FIFO order |
| EventsManager.End | vocode/streaming/utils/events_manager.py:29-36 | end() clears active and hands every queued event to handle_event in FIFO order, leaving the queue empty |
| EventsManager.EndTwice | vocode/streaming/utils/events_manager.py:31-36 | A second end() handles nothing more |
| EventsManager.PublishAfterEnd | vocode/streaming/utils/events_manager.py:13-30 | publish_event does not check active: an event published after end() is still enqueued |
| EventsManager.PublishThenEndHandlesAll | vocode/streaming/utils/events_manager.py:13-36 | Publishing subscribed events and then ending hands all of them to handle_event, in publication order |
| TwilioCall.NewSession | vocode/streaming/telephony/conversation/twilio_call.py:91 | latest_media_timestamp starts at 0, with no stream sid and no audio received |
| TwilioCall.HandleWsMessage | vocode/streaming/telephony/conversation/twilio_call.py:133-154 | None or stop closes the websocket with nothing forwarded; an empty string fails in json.loads; a media frame past last+20 forwards 8*(t-(last+20)) bytes of 0xFF first and then the payload, and the timestamp becomes t even if smaller; other events forward nothing |
| TwilioCall.WorkedExampleGapFilling | vocode/streaming/telephony/conversation/twilio_call.py:141-149 | Timestamps 0, 20 and 60 forward no silence before the second payload and exactly 160 silence bytes before the third |
| TwilioCall.NoGapNoSilence | vocode/streaming/telephony/conversation/twilio_call.py:141-149 | Frames that never jump more than 20 ms forward exactly their payloads |
| TwilioCall.GapFillingKeepsTimeline | vocode/streaming/telephony/conversation/twilio_call.py:141-149 | With 20 ms payloads (160 bytes) and timestamps at least 20 ms apart, the forwarded audio grows by exactly 8 bytes per millisecond of timestamp advance: the silence fills the gap |
| TwilioCall.WaitForStart | vocode/streaming/telephony/conversation/twilio_call.py:119-131 | Empty messages and non-start events are skipped; the first start frame's streamSid is recorded; fails iff no start frame arrives |
| TwilioCall.WaitForStartFindsFirst | vocode/streaming/telephony/conversation/twilio_call.py:121-131 | The handshake consumes exactly the messages up to and including the first start frame |
| TwilioCall.ReceiveLoop | vocode/streaming/telephony/conversation/twilio_call.py:111-115 | The loop reads at most the messages it is given and never changes the stream sid; a disconnect or a non-JSON message ends it with the exception |
| TwilioCall.ReceiveLoopStopsAtNonJson | vocode/streaming/telephony/conversation/twilio_call.py:111-115 | A non-JSON message before any close ends the loop right after it, with the JSON decoding error |
| TwilioCall.ReceiveLoopEndsAtDisconnect | vocode/streaming/telephony/conversation/twilio_call.py:111-115 | Without a close or a non-JSON message, every message is read and the transport's disconnect ends the loop |
| TwilioCall.ReceiveLoopStopsAtClose | vocode/streaming/telephony/conversation/twilio_call.py:111-115 | The loop stops at the first CLOSE_WEBSOCKET: later messages have no effect |
| TwilioCall.RunUntilCleanUp | vocode/streaming/telephony/conversation/twilio_call.py:98-115 | A machine_start or fax answer marks the call completed without a handshake; otherwise a successful handshake publishes one PhoneCallConnectedEvent and the loop runs; a failed handshake raises; the store is untouched |
| TwilioCall.AttachWsAndStartAsWritten | vocode/streaming/telephony/conversation/twilio_call.py:93-117 | As written, the call never ends cleanly: when the loop exits, the config is deleted, then awaiting the synchronous delete_config raises TypeError and tear_down never runs; an earlier exception leaves the store untouched |
| TwilioCall.AttachWsAndStart | vocode/streaming/telephony/conversation/twilio_call.py:93-117 | Corrected clean-up (delete_config called, not awaited): the config is deleted and the call torn down iff no exception escapes, on the machine and fax path too |
| TwilioCall.AsWrittenFaxRaises | vocode/streaming/telephony/conversation/twilio_call.py:98-117 | A fax-answered call deletes its config and raises TypeError without tearing down; corrected, it exits cleanly and tears down |
| TwilioCall.AsWrittenDiffersOnlyInCleanUp | vocode/streaming/telephony/conversation/twilio_call.py:116-117 | The two versions agree on session, events and config store; exactly where the corrected one exits cleanly, the one as written raises TypeError |
| TwilioCall.StartThenStop | vocode/streaming/telephony/conversation/twilio_call.py:98-117 | A human-answered call whose messages are a start frame, media and a stop records the start frame's streamSid, publishes one connected event and deletes the config; corrected it raises nothing and tears down, as written it raises TypeError without tearing down |
| VonageClient.CreateCallNcco | vocode/streaming/telephony/client/vonage_client.py:67-89 | One action without record, two with it; the first is the record action with eventUrl https://base/recordings/id; the last is always connect to a websocket at wss://base/connect_call/id with empty headers |
| VonageClient.NccoRoundTrip | vocode/streaming/telephony/client/vonage_client.py:67-89 | The conversation id can be recovered from the connect uri of the NCCO, and is_outbound has no effect on the output |
| VonageClient.ConnectUriInjective | vocode/streaming/telephony/client/vonage_client.py:82 | Different conversation ids give different connect uris |
| SpeakerOutput.SelectSamplingRate | vocode/streaming/output_device/speaker_output.py:22-24 | The given non-zero rate, else the device default truncated by int(), else 44100 |
| SpeakerOutput.NewSpeaker | vocode/streaming/output_device/speaker_output.py:15-26 | blocksize equals the selected sampling rate, and the queue starts empty |
| SpeakerOutput.DecodeSamples | vocode/streaming/output_device/speaker_output.py:46 | An odd byte count is refused; otherwise sample i is the int16 of bytes 2i and 2i+1 in native order (little-endian on the hosts the library runs on) |
| SpeakerOutput.DecodeEncode | vocode/streaming/output_device/speaker_output.py:46 | Decoding the little-endian bytes of any int16 sequence gives it back |
| SpeakerOutput.SplitBlocks | vocode/streaming/output_device/speaker_output.py:47-51 | ceil(n/blocksize) blocks, none for empty input; block k holds samples [k*bs, k*bs+size) zero-padded to bs; the concatenation is the input padded with zeros |
| SpeakerOutput.SendNonblocking | vocode/streaming/output_device/speaker_output.py:45-51 | Fails on an odd byte count or a zero block size; otherwise appends blocks of exactly blocksize samples whose concatenation is the input zero-padded |
| SpeakerOutput.Callback | vocode/streaming/output_device/speaker_output.py:38-43 | Zeros when the queue is empty; otherwise exactly the head block, dequeued |
| SpeakerOutput.PlayDrainsQueue | vocode/streaming/output_device/speaker_output.py:38-43 | As many callbacks as queued blocks play the queue in FIFO order and leave it empty |
| SpeakerOutput.SendThenPlay | vocode/streaming/output_device/speaker_output.py:38-51 | A chunk sent to an idle speaker is played back in order, followed by fewer than blocksize zeros, over whole blocks |
| GoogleTranscriber.NewTranscriber | vocode/streaming/transcriber/google_transcriber.py:20-42 | Missing or empty credentials are refused first, any endpointing config next; otherwise the transcriber starts not ended |
| GoogleTranscriber.CreateStreamingConfig | vocode/streaming/transcriber/google_transcriber.py:44-65 | A given model is passed with use_enhanced; a language code only when given; encoding and rate are copied; interim results are on |
| GoogleTranscriber.Terminate | vocode/streaming/transcriber/google_transcriber.py:78-79 | terminate() sets the ended flag and changes nothing else |
| GoogleTranscriber.Generate | vocode/streaming/transcriber/google_transcriber.py:104-124 | Each yielded batch is the concatenation of one round's chunks, in arrival order; the stream stops at a round that begins ended or contains None, dropping that round's batch |
| GoogleTranscriber.UntilSentinelSpec | vocode/streaming/transcriber/google_transcriber.py:109-122 | The chunks collected are exactly the non-None values before the first None, in order, and collection stops only at a None |
| GoogleTranscriber.GeneratedIsPrefix | vocode/streaming/transcriber/google_transcriber.py:104-124 | The audio yielded is a prefix of the audio that arrived before the first None |
| GoogleTranscriber.GeneratedIsAll | vocode/streaming/transcriber/google_transcriber.py:104-124 | Without None and without terminate() all arrived audio is yielded |
| GoogleTranscriber.SentinelDiscardsBatch | vocode/streaming/transcriber/google_transcriber.py:110-119 | Once a round holds the None sentinel, no batch from that round or a later one is yielded, so chunks collected alongside the sentinel are dropped |
| GoogleTranscriber.SentinelDiscardsBatchExample | vocode/streaming/transcriber/google_transcriber.py:110-119 | Example: one round with a chunk and then None collects the chunk but yields nothing |
| GoogleTranscriber.OnResponse | vocode/streaming/transcriber/google_transcriber.py:88-102 | Nothing without results or without an alternative on the first result; otherwise the top alternative's transcript and confidence with the first result's is_final |
| GoogleTranscriber.ProcessResponses | vocode/streaming/transcriber/google_transcriber.py:81-86 | The loop handles every response when never terminated, and otherwise exactly the responses up to and including the one after which terminate() was observed |
| GoogleTranscriber.ProcessResponsesEmitsHandled | vocode/streaming/transcriber/google_transcriber.py:78-86 | The loop emits what the handled responses produce, in order; after terminate() it stops once the current response is handled |
| GoogleTranscriber.EmittedCount | vocode/streaming/transcriber/google_transcriber.py:88-94 | At most one transcription per response, and exactly one each iff every response has a top choice |

## Left out

- Asynchronous scheduling is not modelled. This covers asyncio tasks, `ThreadAsyncWorker` relays, janus queues, and how cancellation is delivered. Each loop is modelled as the sequential effect of its steps. The outcome of `process` on each item is an input.
- `experimental_mp3_streaming_output_generator` and its `MiniaudioWorker` are not modelled. They are threaded decoding of a foreign format.
- `convert_wav` and `encode_as_wav` are foreign WAV code. The chunk transform is a function parameter, and the converted bytes are an input.
- `get_chunk_size_per_second` and `VONAGE_CONTENT_TYPE` are not part of this model. They are parameters.
- nltk `word_tokenize` and `TreebankWordDetokenizer` are function parameters. Only the token-count rule is modelled.
- Synthesizer.CutoffFromTotalResponseLength, Synthesizer.EstimatedWordsSpoken and Synthesizer.CutoffFromVoiceSpeed are over exact reals. They do not model IEEE rounding of the float divisions and products (base_synthesizer.py computes `size_of_output / sampling_rate` and `words_per_minute / 60 * seconds` in floats), so a floor or truncation near an integer may differ by one.
- Synthesizer.CutoffClosedForm requires seconds >= 0, because a negative seconds value gives a negative slice end. That case is kept in the function and shown by Synthesizer.CutoffNegativeSecondsExample.
- `get_phrase_filler_audios` returns an empty list in the base class. Its result is a parameter of Synthesizer.SetFillerAudios.
- The aiohttp session of the synthesizer is I/O and is left out.
- Pydantic does not validate default values. The model runs the validator as a function of the two flags whenever a config is built.
- Twilio JSON and base64 decoding are not modelled. Messages are already-decoded frames, and a malformed JSON text other than the empty string is not modelled.
- Twilio REST `fetch`, `update` and `end_call` are left out. `answered_by` is an input, and "marked completed" is a flag.
- TwilioCall.ReceiveLoop does not model the conversation's `active` flag going false from elsewhere. The loop ends at CLOSE_WEBSOCKET or at the end of the message sequence.
- A transport disconnect (`receive_text` raising) is modelled as the message sequence running out with an error. `delete_config` and `tear_down` are then skipped, as the code does.
- The sounddevice stream, device selection by index, and `terminate()` are foreign I/O. The speaker's callback takes the frame count as an input.
- The Google speech client and `streaming_recognize` are foreign. Responses are an input.
- `terminate()` is observed by the response loop after a given response, and by the generator at the start of a round.
- The rendering of the timestamp float is a string parameter of Events.TranscriptToString.
- REST plumbing is outside the core and is left out. This covers Vonage call creation and hang-up, the websocket loop in `vonage_call.py`, the FastAPI server, and the websocket output device.
- The provider synthesizers and factories are left out. So are the pydantic action schema and the pure data declarations.
- Demos, quickstarts and apps are left out.

## Findings

| source | as written | input that shows it | evidently intended | confidence | as-written member | corrected member |
|---|---|---|---|---|---|---|
| vocode/streaming/telephony/conversation/twilio_call.py:116 | `await self.config_manager.delete_config(self.id)` awaits the synchronous `InMemoryConfigManager.delete_config` (in_memory_config_manager.py:18-20), which returns None; the config is deleted, then `await None` raises TypeError, so `tear_down()` never runs | any call, e.g. one answered by "fax" (TwilioCall.AsWrittenFaxRaises) or a human-answered call ending in a stop frame (TwilioCall.StartThenStop) | call `delete_config` without `await`, then tear the call down | medium, not executed | TwilioCall.AttachWsAndStartAsWritten | TwilioCall.AttachWsAndStart |
