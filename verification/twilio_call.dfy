/** The Twilio media-stream session: the handshake that waits for the
    `start` event, the per-message handling with jitter gap-filling, and the
    receive loop of `attach_ws_and_start` with its clean-up. Websocket
    messages arrive already decoded from JSON and base64; a run of messages
    that ends is a websocket that disconnected. */
module TwilioCall {
  import opened Common
  import opened Events
  import opened EventsManager
  import opened ConfigManager

  /** A decoded media-stream message, by its `event` field. */
  datatype Frame =
    | StartFrame(streamSid: string)
    | MediaFrame(timestamp: int, payload: seq<byte>)
    | StopFrame
    | OtherFrame(event: string)

  /** What `receive_text` returned: `None`, the empty string, or a JSON text. */
  datatype Message = NoMessage | EmptyText | Json(frame: Frame)

  datatype PhoneCallAction = CloseWebsocket

  /** Timestamps further apart than this many milliseconds are a gap. */
  const GapToleranceMs: int := 20
  /** 8 kHz 8-bit mu-law: eight bytes per millisecond. */
  const BytesPerMs: int := 8
  /** The mu-law encoding of silence. */
  const MulawSilence: byte := 0xFF

  /** `streamSid` is the output device's `stream_sid`; `received` lists the
      arguments of the `receive_audio` calls, in order. */
  datatype Session = Session(latestMediaTimestamp: int, streamSid: Option<string>, received: seq<seq<byte>>)

  /** A new call's session: no media seen, latest timestamp 0. */
  function NewSession(): (s: Session)
    ensures s.latestMediaTimestamp == 0 && s.streamSid.None? && s.received == []
  {
    Session(0, None, [])
  }

  function Silence(n: nat): (r: seq<byte>)
    ensures |r| == n && forall i :: 0 <= i < n ==> r[i] == MulawSilence
  {
    seq(n, _ => MulawSilence)
  }

  /** `handle_ws_message`. A media frame more than 20 ms after the last one
      is preceded by silence for the time beyond those 20 ms; its timestamp
      becomes the latest whether or not it is later. `None` and `stop` ask to
      close the websocket. The empty string is not JSON and raises. */
  function HandleWsMessage(s: Session, msg: Message): (r: Result<(Session, Option<PhoneCallAction>)>)
    ensures msg.EmptyText? <==> r.Failure?
    ensures (msg.NoMessage? || msg == Json(StopFrame)) ==> r == Success((s, Some(CloseWebsocket)))
    ensures msg.Json? && msg.frame.MediaFrame? ==>
      var t := msg.frame.timestamp;
      var gap := t - (s.latestMediaTimestamp + GapToleranceMs);
      r.Success? && r.value.1.None?
      && r.value.0.latestMediaTimestamp == t
      && r.value.0.streamSid == s.streamSid
      && r.value.0.received
         == s.received + (if gap > 0 then [Silence(BytesPerMs * gap)] else []) + [msg.frame.payload]
    ensures msg.Json? && (msg.frame.StartFrame? || msg.frame.OtherFrame?) ==> r == Success((s, None))
  {
    match msg
    case NoMessage => Success((s, Some(CloseWebsocket)))
    case EmptyText => Failure(ValueError("Expecting value"))
    case Json(frame) =>
      match frame
      case MediaFrame(t, payload) =>
        var filled :=
          if s.latestMediaTimestamp + 20 < t then s.received + [Silence(8 * (t - (s.latestMediaTimestamp + 20)))]
          else s.received;
        Success((s.(latestMediaTimestamp := t, received := filled + [payload]), None))
      case StopFrame => Success((s, Some(CloseWebsocket)))
      case _ => Success((s, None))
  }

  /** Media frames only, each handled in turn. */
  function HandleMedia(s: Session, frames: seq<(int, seq<byte>)>): (r: Session)
    ensures r.streamSid == s.streamSid
    decreases |frames|
  {
    if |frames| == 0 then s
    else
      var h := HandleWsMessage(s, Json(MediaFrame(frames[0].0, frames[0].1)));
      HandleMedia(h.value.0, frames[1..])
  }

  /** Timestamps 0, 20 and 60 ms: nothing is filled before the second chunk
      and 8 * (60 - (20 + 20)) = 160 bytes of silence before the third. */
  lemma WorkedExampleGapFilling(a: seq<byte>, b: seq<byte>, c: seq<byte>)
    ensures HandleMedia(NewSession(), [(0, a), (20, b), (60, c)]).received == [a, b, Silence(160), c]
    ensures HandleMedia(NewSession(), [(0, a), (20, b), (60, c)]).latestMediaTimestamp == 60
  {
    var frames := [(0, a), (20, b), (60, c)];
    var s1 := HandleWsMessage(NewSession(), Json(MediaFrame(0, a))).value.0;
    assert s1.received == [a] && s1.latestMediaTimestamp == 0;
    var s2 := HandleWsMessage(s1, Json(MediaFrame(20, b))).value.0;
    assert s2.received == [a, b] && s2.latestMediaTimestamp == 20;
    var s3 := HandleWsMessage(s2, Json(MediaFrame(60, c))).value.0;
    assert s3.received == [a, b, Silence(160), c] && s3.latestMediaTimestamp == 60;
    assert frames[1..] == [(20, b), (60, c)];
    assert frames[1..][1..] == [(60, c)];
    assert HandleMedia(s3, []) == s3;
    assert HandleMedia(s2, [(60, c)]) == s3 by {
      assert [(60, c)][1..] == [];
    }
    assert HandleMedia(s1, [(20, b), (60, c)]) == s3 by {
      assert [(20, b), (60, c)][1..] == [(60, c)];
    }
    assert HandleMedia(NewSession(), frames) == HandleMedia(s1, frames[1..]);
  }

  /** Frames that each arrive within 20 ms of the one before (the first
      within 20 ms of `latestMediaTimestamp`) are forwarded as they are, with
      no silence added. */
  lemma {:induction false} NoGapNoSilence(s: Session, frames: seq<(int, seq<byte>)>)
    requires |frames| > 0 ==> frames[0].0 <= s.latestMediaTimestamp + GapToleranceMs
    requires forall i :: 0 < i < |frames| ==> frames[i].0 <= frames[i - 1].0 + GapToleranceMs
    ensures HandleMedia(s, frames).received == s.received + Payloads(frames)
    decreases |frames|
  {
    if |frames| > 0 {
      var s1 := HandleWsMessage(s, Json(MediaFrame(frames[0].0, frames[0].1))).value.0;
      assert s1.received == s.received + [frames[0].1];
      var rest := frames[1..];
      assert forall i :: 0 < i < |rest| ==> rest[i].0 <= rest[i - 1].0 + GapToleranceMs by {
        forall i | 0 < i < |rest| ensures rest[i].0 <= rest[i - 1].0 + GapToleranceMs {
          assert rest[i] == frames[i + 1] && rest[i - 1] == frames[i];
        }
      }
      NoGapNoSilence(s1, rest);
    }
  }

  /** When every chunk carries 20 ms of audio (160 bytes) and no chunk
      starts before the previous one ends, gap-filling keeps the forwarded
      audio in step with the clock: the bytes forwarded are exactly 8 per
      millisecond between the old and the new latest timestamp. */
  lemma {:induction false} GapFillingKeepsTimeline(s: Session, frames: seq<(int, seq<byte>)>)
    requires forall i :: 0 <= i < |frames| ==> |frames[i].1| == BytesPerMs * GapToleranceMs
    requires |frames| > 0 ==> frames[0].0 >= s.latestMediaTimestamp + GapToleranceMs
    requires forall i :: 0 < i < |frames| ==> frames[i].0 >= frames[i - 1].0 + GapToleranceMs
    ensures var r := HandleMedia(s, frames);
      |Join(r.received)| == |Join(s.received)| + BytesPerMs * (r.latestMediaTimestamp - s.latestMediaTimestamp)
    decreases |frames|
  {
    if |frames| > 0 {
      var t := frames[0].0;
      var s1 := HandleWsMessage(s, Json(MediaFrame(t, frames[0].1))).value.0;
      var gap := t - (s.latestMediaTimestamp + GapToleranceMs);
      if gap > 0 {
        assert s1.received == (s.received + [Silence(8 * gap)]) + [frames[0].1];
        JoinAppend(s.received + [Silence(8 * gap)], frames[0].1);
        JoinAppend(s.received, Silence(8 * gap));
      } else {
        assert s1.received == s.received + [frames[0].1];
        JoinAppend(s.received, frames[0].1);
      }
      assert |Join(s1.received)| == |Join(s.received)| + 8 * (t - s.latestMediaTimestamp);
      var rest := frames[1..];
      assert forall i :: 0 < i < |rest| ==> rest[i].0 >= rest[i - 1].0 + GapToleranceMs by {
        forall i | 0 < i < |rest| ensures rest[i].0 >= rest[i - 1].0 + GapToleranceMs {
          assert rest[i] == frames[i + 1] && rest[i - 1] == frames[i];
        }
      }
      GapFillingKeepsTimeline(s1, rest);
    }
  }

  function Payloads(frames: seq<(int, seq<byte>)>): seq<seq<byte>>
  {
    if |frames| == 0 then [] else [frames[0].1] + Payloads(frames[1..])
  }

  /** `wait_for_twilio_start`: skip `None`/empty messages and every event
      other than `start`; the first `start` sets the stream sid. The result
      also says how many messages were read. Running out of messages is the
      disconnect that makes `receive_text` raise. */
  function WaitForStart(s: Session, msgs: seq<Message>): (r: Result<(Session, nat)>)
    ensures r.Success? ==>
      var n := r.value.1;
      && 0 < n <= |msgs|
      && msgs[n - 1].Json? && msgs[n - 1].frame.StartFrame?
      && (forall i :: 0 <= i < n - 1 ==> !(msgs[i].Json? && msgs[i].frame.StartFrame?))
      && r.value.0 == s.(streamSid := Some(msgs[n - 1].frame.streamSid))
    ensures r.Failure? <==> forall i :: 0 <= i < |msgs| ==> !(msgs[i].Json? && msgs[i].frame.StartFrame?)
    decreases |msgs|
  {
    if |msgs| == 0 then Failure(Raised("websocket disconnected"))
    else if msgs[0].Json? && msgs[0].frame.StartFrame? then
      Success((s.(streamSid := Some(msgs[0].frame.streamSid)), 1))
    else
      match WaitForStart(s, msgs[1..])
      case Success((s', n)) => Success((s', n + 1))
      case Failure(e) => Failure(e)
  }

  /** The handshake ends at the first `start` message. */
  lemma {:induction false} WaitForStartFindsFirst(s: Session, before: seq<Message>, sid: string, rest: seq<Message>)
    requires forall i :: 0 <= i < |before| ==> !(before[i].Json? && before[i].frame.StartFrame?)
    ensures WaitForStart(s, before + [Json(StartFrame(sid))] + rest)
         == Success((s.(streamSid := Some(sid)), |before| + 1))
    decreases |before|
  {
    var msgs := before + [Json(StartFrame(sid))] + rest;
    if |before| > 0 {
      assert msgs[0] == before[0];
      assert msgs[1..] == before[1..] + [Json(StartFrame(sid))] + rest;
      WaitForStartFindsFirst(s, before[1..], sid, rest);
    }
  }

  /** The `while` loop of `attach_ws_and_start`: handle messages until one
      asks to close the websocket. The result says how many messages were
      read; an exception (a disconnect, or a message that is not JSON) ends
      the loop with the error. */
  function ReceiveLoop(s: Session, msgs: seq<Message>): (r: (Session, nat, Option<Error>))
    ensures r.1 <= |msgs|
    ensures r.0.streamSid == s.streamSid
    decreases |msgs|
  {
    if |msgs| == 0 then (s, 0, Some(Raised("websocket disconnected")))
    else
      match HandleWsMessage(s, msgs[0])
      case Failure(e) => (s, 1, Some(e))
      case Success((s', action)) =>
        if action == Some(CloseWebsocket) then (s', 1, None)
        else
          var (s'', n, err) := ReceiveLoop(s', msgs[1..]);
          (s'', n + 1, err)
  }

  /** The loop stops at the first message asking to close: nothing after it
      is read, whatever follows. */
  lemma {:induction false} ReceiveLoopStopsAtClose(s: Session, msgs: seq<Message>, later: seq<Message>)
    requires exists i :: 0 <= i < |msgs| && (msgs[i].NoMessage? || msgs[i] == Json(StopFrame))
    requires forall i :: 0 <= i < |msgs| ==> !msgs[i].EmptyText?
    ensures ReceiveLoop(s, msgs + later) == ReceiveLoop(s, msgs)
    ensures ReceiveLoop(s, msgs).2.None?
    decreases |msgs|
  {
    assert (msgs + later)[0] == msgs[0];
    var h := HandleWsMessage(s, msgs[0]);
    if !(msgs[0].NoMessage? || msgs[0] == Json(StopFrame)) {
      assert (msgs + later)[1..] == msgs[1..] + later;
      var i :| 0 <= i < |msgs| && (msgs[i].NoMessage? || msgs[i] == Json(StopFrame));
      assert msgs[1..][i - 1] == msgs[i];
      ReceiveLoopStopsAtClose(h.value.0, msgs[1..], later);
    }
  }

  /** A message that is not JSON, read before any close, ends the loop with
      the decoding error right after that message. */
  lemma {:induction false} ReceiveLoopStopsAtNonJson(s: Session, msgs: seq<Message>, k: nat)
    requires k < |msgs| && msgs[k].EmptyText?
    requires forall i :: 0 <= i < k ==> !(msgs[i].NoMessage? || msgs[i] == Json(StopFrame)) && !msgs[i].EmptyText?
    ensures ReceiveLoop(s, msgs).1 == k + 1
    ensures ReceiveLoop(s, msgs).2 == Some(ValueError("Expecting value"))
    decreases k
  {
    if k > 0 {
      var h := HandleWsMessage(s, msgs[0]);
      assert h.Success? && h.value.1.None?;
      assert forall i :: 0 <= i < k - 1 ==> msgs[1..][i] == msgs[i + 1];
      ReceiveLoopStopsAtNonJson(h.value.0, msgs[1..], k - 1);
    }
  }

  /** Without a close and without a message that is not JSON, the loop reads
      every message and then the transport's disconnect ends it. */
  lemma {:induction false} ReceiveLoopEndsAtDisconnect(s: Session, msgs: seq<Message>)
    requires forall i :: 0 <= i < |msgs| ==> !(msgs[i].NoMessage? || msgs[i] == Json(StopFrame)) && !msgs[i].EmptyText?
    ensures ReceiveLoop(s, msgs).1 == |msgs|
    ensures ReceiveLoop(s, msgs).2 == Some(Raised("websocket disconnected"))
    decreases |msgs|
  {
    if |msgs| > 0 {
      var h := HandleWsMessage(s, msgs[0]);
      assert h.Success? && h.value.1.None?;
      assert forall i :: 0 <= i < |msgs| - 1 ==> msgs[1..][i] == msgs[i + 1];
      ReceiveLoopEndsAtDisconnect(h.value.0, msgs[1..]);
    }
  }

  /** Everything `attach_ws_and_start` changes: the session, whether Twilio
      was told the call is completed, the config store, the events manager,
      whether `tear_down` ran, and the exception that escaped, if any. */
  datatype CallRun<C> = CallRun(
    session: Session,
    markedCompleted: bool,
    configs: ConfigStore<C>,
    events: EventsManager,
    tornDown: bool,
    raised: Option<Error>)

  /** `attach_ws_and_start` up to its clean-up, for call `id`, once Twilio
      has said who answered. A machine or fax is marked completed without
      waiting for `start`; otherwise the handshake runs,
      `PhoneCallConnectedEvent` is published and the receive loop runs. The
      config store is not touched yet; `raised` is an exception from the
      handshake or the loop, which skips the clean-up. */
  function RunUntilCleanUp<C>(id: string, answeredBy: string, s: Session, configs: ConfigStore<C>,
                              events: EventsManager, msgs: seq<Message>): (r: CallRun<C>)
    ensures r.configs == configs && !r.tornDown
    ensures r.markedCompleted <==> answeredBy in {"machine_start", "fax"}
    ensures r.markedCompleted ==> r.raised.None? && r.session == s && r.events == events
    ensures !r.markedCompleted && WaitForStart(s, msgs).Success? ==>
      r.events == PublishEvent(events, PhoneCallConnectedEvent(id))
    ensures !r.markedCompleted && WaitForStart(s, msgs).Failure? ==>
      r.raised == Some(WaitForStart(s, msgs).error) && r.events == events
  {
    if answeredBy in {"machine_start", "fax"} then
      CallRun(s, true, configs, events, false, None)
    else
      match WaitForStart(s, msgs)
      case Failure(e) => CallRun(s, false, configs, events, false, Some(e))
      case Success((s1, n)) =>
        var events1 := PublishEvent(events, PhoneCallConnectedEvent(id));
        var (s2, _, err) := ReceiveLoop(s1, msgs[n..]);
        CallRun(s2, false, configs, events1, false, err)
  }

  /** What Python says when `await` is applied to `None`. */
  const AwaitNoneMessage: string := "object NoneType can't be used in 'await' expression"

  /** `attach_ws_and_start` as written: line 116 awaits `delete_config`, but
      the in-memory store's `delete_config` is a plain function returning
      `None`. The config is deleted, then the `await` raises `TypeError`, so
      `tear_down()` never runs and the coroutine never returns normally. */
  function AttachWsAndStartAsWritten<C>(id: string, answeredBy: string, s: Session, configs: ConfigStore<C>,
                                        events: EventsManager, msgs: seq<Message>): (r: CallRun<C>)
    ensures !r.tornDown && r.raised.Some?
    ensures r.markedCompleted <==> answeredBy in {"machine_start", "fax"}
    ensures var pre := RunUntilCleanUp(id, answeredBy, s, configs, events, msgs);
      && r.session == pre.session && r.events == pre.events
      && (pre.raised.Some? ==> r.raised == pre.raised && r.configs == configs)
      && (pre.raised.None? ==> r.raised == Some(TypeError(AwaitNoneMessage)) && r.configs == DeleteConfig(configs, id))
  {
    var pre := RunUntilCleanUp(id, answeredBy, s, configs, events, msgs);
    if pre.raised.Some? then pre
    else pre.(configs := DeleteConfig(configs, id), raised := Some(TypeError(AwaitNoneMessage)))
  }

  /** `attach_ws_and_start` with the clean-up as evidently intended: the
      store's `delete_config` is called without `await`, as the server calls
      the same store's `save_config` and `get_config`. On every path that
      reaches the clean-up, the config is deleted and the call torn down. */
  function AttachWsAndStart<C>(id: string, answeredBy: string, s: Session, configs: ConfigStore<C>,
                               events: EventsManager, msgs: seq<Message>): (r: CallRun<C>)
    ensures r.raised.None? <==> r.tornDown
    ensures r.raised.None? ==> r.configs == DeleteConfig(configs, id) && GetConfig(r.configs, id).None?
    ensures r.raised.Some? ==> r.configs == configs
    ensures r.markedCompleted <==> answeredBy in {"machine_start", "fax"}
    ensures r.markedCompleted ==> r.raised.None? && r.session == s && r.events == events
    ensures var pre := RunUntilCleanUp(id, answeredBy, s, configs, events, msgs);
      r.session == pre.session && r.events == pre.events && r.raised == pre.raised
  {
    var pre := RunUntilCleanUp(id, answeredBy, s, configs, events, msgs);
    if pre.raised.Some? then pre
    else pre.(configs := DeleteConfig(configs, id), tornDown := true)
  }

  /** As written, no call ever ends cleanly: a call answered by a fax
      machine deletes its config and then raises `TypeError`, without
      tearing down. */
  lemma AsWrittenFaxRaises<C>(id: string, s: Session, configs: ConfigStore<C>, events: EventsManager,
                              msgs: seq<Message>)
    ensures var r := AttachWsAndStartAsWritten(id, "fax", s, configs, events, msgs);
      && r.raised == Some(TypeError(AwaitNoneMessage)) && !r.tornDown
      && GetConfig(r.configs, id).None?
    ensures var c := AttachWsAndStart(id, "fax", s, configs, events, msgs);
      c.raised.None? && c.tornDown && GetConfig(c.configs, id).None?
  {
  }

  /** The two versions differ only in the clean-up: wherever the corrected
      one exits cleanly, the one as written raises `TypeError` instead of
      tearing down, with the same config store. */
  lemma AsWrittenDiffersOnlyInCleanUp<C>(id: string, answeredBy: string, s: Session, configs: ConfigStore<C>,
                                         events: EventsManager, msgs: seq<Message>)
    ensures var a := AttachWsAndStartAsWritten(id, answeredBy, s, configs, events, msgs);
      var c := AttachWsAndStart(id, answeredBy, s, configs, events, msgs);
      && a.session == c.session && a.events == c.events && a.configs == c.configs
      && a.markedCompleted == c.markedCompleted
      && (c.raised.None? <==> a.raised == Some(TypeError(AwaitNoneMessage)) && c.tornDown)
  {
    var pre := RunUntilCleanUp(id, answeredBy, s, configs, events, msgs);
    if pre.raised.None? {
      assert AttachWsAndStart(id, answeredBy, s, configs, events, msgs).tornDown;
    }
  }

  /** A call that starts and later stops: the stream sid comes from the
      `start` message, a subscribed `PhoneCallConnectedEvent` is queued,
      the config is gone and the call is torn down afterwards. */
  lemma StartThenStop<C>(id: string, sid: string, s: Session, configs: ConfigStore<C>,
                         events: EventsManager, before: seq<Message>, media: seq<Message>)
    requires forall i :: 0 <= i < |before| ==> !(before[i].Json? && before[i].frame.StartFrame?)
    requires forall i :: 0 <= i < |media| ==> media[i].Json? && media[i].frame.MediaFrame?
    requires PhoneCallConnected in events.subscriptions
    ensures var r := AttachWsAndStart(id, "human", s, configs, events,
                                      before + [Json(StartFrame(sid))] + media + [Json(StopFrame)]);
      && r.raised.None? && r.tornDown && r.session.streamSid == Some(sid)
      && r.events.queue == events.queue + [PhoneCallConnectedEvent(id)]
      && GetConfig(r.configs, id).None?
    ensures var a := AttachWsAndStartAsWritten(id, "human", s, configs, events,
                                               before + [Json(StartFrame(sid))] + media + [Json(StopFrame)]);
      && a.raised == Some(TypeError(AwaitNoneMessage)) && !a.tornDown
      && GetConfig(a.configs, id).None?
  {
    var msgs := before + [Json(StartFrame(sid))] + media + [Json(StopFrame)];
    var n := |before| + 1;
    var rest := media + [Json(StopFrame)];
    assert msgs == before + [Json(StartFrame(sid))] + rest;
    WaitForStartFindsFirst(s, before, sid, rest);
    var w := WaitForStart(s, msgs);
    assert rest == media + [Json(StopFrame)];
    assert rest[|media|] == Json(StopFrame);
    ReceiveLoopStopsAtClose(w.value.0, rest, []);
    assert rest + [] == rest;
  }
}
