/** `SpeakerOutput`: the sampling-rate choice, the split of each chunk of
    16-bit samples into zero-padded blocks of one second, and the sound-card
    callback that plays one block per call or silence. The sounddevice
    stream itself is foreign and left out. */
module SpeakerOutput {
  import opened Common

  const DefaultSamplingRate: int := 44100

  /** `sampling_rate or int(device_info.get("default_samplerate", 44100))`:
      a missing or zero rate falls back to the device's default rate,
      truncated, and to 44100 if the device reports none. */
  function SelectSamplingRate(given: Option<int>, deviceDefault: Option<real>): (r: int)
    ensures given.Some? && given.value != 0 ==> r == given.value
    ensures (given.None? || given.value == 0) && deviceDefault.Some? ==> r == TruncToZero(deviceDefault.value)
    ensures (given.None? || given.value == 0) && deviceDefault.None? ==> r == DefaultSamplingRate
  {
    if given.Some? && given.value != 0 then given.value
    else if deviceDefault.Some? then TruncToZero(deviceDefault.value)
    else DefaultSamplingRate
  }

  /** The device's playback queue of blocks; a block is one second. */
  datatype Speaker = Speaker(samplingRate: int, blocksize: int, queue: seq<seq<int16>>)

  function NewSpeaker(given: Option<int>, deviceDefault: Option<real>): (sp: Speaker)
    ensures sp.blocksize == sp.samplingRate == SelectSamplingRate(given, deviceDefault)
    ensures sp.queue == []
  {
    var rate := SelectSamplingRate(given, deviceDefault);
    Speaker(rate, rate, [])
  }

  // ---------------------------------------------------------------------------
  // Bytes to samples

  /** The signed 16-bit value of two bytes in the host's native order, which
      `np.frombuffer` uses; this is little-endian on the hosts the library
      runs on. */
  function Int16Of(lo: byte, hi: byte): int16
  {
    var u := lo as int + 256 * hi as int;
    (if u >= 0x8000 then u - 0x10000 else u) as int16
  }

  /** `np.frombuffer(chunk, dtype=np.int16)`: an odd number of bytes is
      refused. */
  function DecodeSamples(chunk: seq<byte>): (r: Result<seq<int16>>)
    ensures r.Success? <==> |chunk| % 2 == 0
    ensures r.Success? ==> |r.value| * 2 == |chunk|
    ensures r.Success? ==>
      forall i :: 0 <= i < |r.value| ==> r.value[i] == Int16Of(chunk[2 * i], chunk[2 * i + 1])
  {
    if |chunk| % 2 != 0 then Failure(ValueError("buffer size must be a multiple of element size"))
    else Success(seq(|chunk| / 2, i requires 0 <= i < |chunk| / 2 => Int16Of(chunk[2 * i], chunk[2 * i + 1])))
  }

  /** The inverse: a sample as its two bytes in native (little-endian) order. */
  function EncodeSample(x: int16): seq<byte>
  {
    var u := if x < 0 then x as int + 0x10000 else x as int;
    [(u % 256) as byte, (u / 256) as byte]
  }

  lemma SampleRoundTrip(x: int16)
    ensures Int16Of(EncodeSample(x)[0], EncodeSample(x)[1]) == x
  {
  }

  function EncodeSamples(xs: seq<int16>): (r: seq<byte>)
    ensures |r| == 2 * |xs|
  {
    if |xs| == 0 then [] else EncodeSample(xs[0]) + EncodeSamples(xs[1..])
  }

  lemma {:induction false} EncodeSamplesAt(xs: seq<int16>, i: nat)
    requires i < |xs|
    ensures EncodeSamples(xs)[2 * i] == EncodeSample(xs[i])[0]
    ensures EncodeSamples(xs)[2 * i + 1] == EncodeSample(xs[i])[1]
  {
    if i > 0 {
      EncodeSamplesAt(xs[1..], i - 1);
    }
  }

  /** Decoding the bytes of a sample sequence gives it back. */
  lemma DecodeEncode(xs: seq<int16>)
    ensures DecodeSamples(EncodeSamples(xs)) == Success(xs)
  {
    var r := DecodeSamples(EncodeSamples(xs));
    assert r.Success? && |r.value| == |xs|;
    forall i | 0 <= i < |xs| ensures r.value[i] == xs[i] {
      EncodeSamplesAt(xs, i);
      SampleRoundTrip(xs[i]);
    }
    assert r.value == xs;
  }

  // ---------------------------------------------------------------------------
  // Blocks

  /** Block `k`: samples `[k*bs, k*bs+bs)`, with zeros past the end. */
  function Block(samples: seq<int16>, bs: nat, k: nat): (b: seq<int16>)
    ensures |b| == bs
  {
    seq(bs, t requires 0 <= t < bs => if k * bs + t < |samples| then samples[k * bs + t] else 0)
  }

  /** The first `m` samples, padded with zeros to length `m`. */
  function PadTo(samples: seq<int16>, m: nat): (r: seq<int16>)
    ensures |r| == m
  {
    seq(m, t requires 0 <= t < m => if t < |samples| then samples[t] else 0)
  }

  /** The loop of `send_nonblocking`: one zero-padded block of `bs` samples
      for each start offset `0, bs, 2*bs, ...` below the sample count. */
  method SplitBlocks(samples: seq<int16>, bs: int) returns (blocks: seq<seq<int16>>)
    requires bs > 0
    ensures |samples| == 0 <==> |blocks| == 0
    ensures (|blocks| - 1) * bs < |samples| <= |blocks| * bs || |samples| == 0
    ensures forall k :: 0 <= k < |blocks| ==> blocks[k] == Block(samples, bs, k)
    ensures Join(blocks) == PadTo(samples, |blocks| * bs)
  {
    blocks := [];
    var i := 0;
    while i < |samples|
      invariant i == |blocks| * bs
      invariant |blocks| > 0 ==> (|blocks| - 1) * bs < |samples|
      invariant forall k :: 0 <= k < |blocks| ==> blocks[k] == Block(samples, bs, k)
      invariant Join(blocks) == PadTo(samples, i)
      decreases |samples| - i
    {
      var size := Min(bs, |samples| - i);
      var block := seq(bs, t requires 0 <= t < bs => if t < size then samples[i + t] else 0);
      assert block == Block(samples, bs, |blocks|);
      JoinAppend(blocks, block);
      assert PadTo(samples, i) + block == PadTo(samples, i + bs);
      assert (|blocks| + 1) * bs == |blocks| * bs + bs;
      blocks := blocks + [block];
      i := i + bs;
    }
  }

  /** `send_nonblocking`: decode, split and enqueue. A zero block size is
      refused by `range`; a negative one enqueues nothing. */
  method SendNonblocking(sp: Speaker, chunk: seq<byte>) returns (r: Result<Speaker>)
    ensures (|chunk| % 2 != 0 || sp.blocksize == 0) <==> r.Failure?
    ensures r.Success? ==> r.value.samplingRate == sp.samplingRate && r.value.blocksize == sp.blocksize
    ensures r.Success? && sp.blocksize > 0 ==> sp.queue <= r.value.queue
    ensures r.Success? && sp.blocksize > 0 ==>
      var n := |chunk| / 2;
      var added := r.value.queue[|sp.queue|..];
      && (n == 0 <==> |added| == 0)
      && ((|added| - 1) * sp.blocksize < n <= |added| * sp.blocksize || n == 0)
      && (forall k :: 0 <= k < |added| ==> |added[k]| == sp.blocksize)
      && Join(added) == PadTo(DecodeSamples(chunk).value, |added| * sp.blocksize)
    ensures r.Success? && sp.blocksize < 0 ==> r.value == sp
  {
    var decoded := DecodeSamples(chunk);
    if decoded.Failure? {
      return Failure(decoded.error);
    }
    if sp.blocksize == 0 {
      return Failure(RangeStepZero);
    }
    if sp.blocksize < 0 {
      return Success(sp);
    }
    var samples := decoded.value;
    var blocks := SplitBlocks(samples, sp.blocksize);
    var sp' := sp.(queue := sp.queue + blocks);
    assert sp'.queue[|sp.queue|..] == blocks;
    r := Success(sp');
  }

  // ---------------------------------------------------------------------------
  // Playback

  /** The sound-card callback for a buffer of `frames` samples: silence when
      the queue is empty, otherwise the oldest block, removed from the queue. */
  function Callback(sp: Speaker, frames: nat): (r: (Speaker, seq<int16>))
    ensures |sp.queue| == 0 ==> r.0 == sp && r.1 == seq(frames, _ => 0 as int16)
    ensures |sp.queue| > 0 ==> r.1 == sp.queue[0] && r.0 == sp.(queue := sp.queue[1..])
  {
    if |sp.queue| == 0 then (sp, seq(frames, _ => 0 as int16))
    else (sp.(queue := sp.queue[1..]), sp.queue[0])
  }

  /** `count` callbacks in a row; the audio they produce, in order. */
  function Play(sp: Speaker, count: nat, frames: nat): (r: (Speaker, seq<int16>))
    decreases count
  {
    if count == 0 then (sp, [])
    else
      var (sp1, out) := Callback(sp, frames);
      var (sp2, rest) := Play(sp1, count - 1, frames);
      (sp2, out + rest)
  }

  /** Playing as many callbacks as there are queued blocks plays the queue in
      FIFO order and leaves it empty. */
  lemma {:induction false} PlayDrainsQueue(sp: Speaker, frames: nat)
    ensures Play(sp, |sp.queue|, frames).1 == Join(sp.queue)
    ensures Play(sp, |sp.queue|, frames).0.queue == []
    decreases |sp.queue|
  {
    if |sp.queue| > 0 {
      PlayDrainsQueue(sp.(queue := sp.queue[1..]), frames);
    }
  }

  /** A chunk sent to an idle speaker is played back in full, in order, and
      padded with silence to whole blocks, over `callbacks` callbacks. */
  method SendThenPlay(sp: Speaker, chunk: seq<byte>) returns (played: seq<int16>, callbacks: nat)
    requires sp.queue == [] && sp.blocksize > 0 && |chunk| % 2 == 0
    ensures |chunk| / 2 <= |played| < |chunk| / 2 + sp.blocksize
    ensures played == PadTo(DecodeSamples(chunk).value, |played|)
    ensures |played| == callbacks * sp.blocksize
  {
    var sent := SendNonblocking(sp, chunk);
    var sp' := sent.value;
    assert sp'.queue == sp'.queue[|sp.queue|..];
    PlayDrainsQueue(sp', sp.blocksize);
    played := Play(sp', |sp'.queue|, sp.blocksize).1;
    callbacks := |sp'.queue|;
  }
}
