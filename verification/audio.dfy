/** Audio framing: interleaved samples are cut into 20 ms frames; surround layouts encode
    one stereo stream per channel pair and join the packets with length prefixes. Encoders and
    decoders keep state from packet to packet; the codec is a parameter and samples are reals. */
module Audio {
  import opened Common
  import opened Bits
  import opened Bytes

  const FRAME_SIZE: nat := 960
  const MAX_PACKET: nat := 1500

  datatype Layout = Mono | Stereo | Surround51 | Surround71 {
    function Channels(): nat {
      match this
      case Mono => 1
      case Stereo => 2
      case Surround51 => 6
      case Surround71 => 8
    }
    predicate Surround() {
      Surround51? || Surround71?
    }
  }

  /** Samples in one frame, all channels together. */
  function FrameLen(l: Layout): (size: nat)
    ensures size > 0 && size == FRAME_SIZE * l.Channels()
  {
    FRAME_SIZE * l.Channels()
  }

  function FromChannels(n: nat): Option<Layout> {
    if n == 1 then Some(Mono) else if n == 2 then Some(Stereo)
    else if n == 6 then Some(Surround51) else if n == 8 then Some(Surround71) else None
  }

  lemma LayoutRoundTrip(n: nat, l: Layout)
    ensures FromChannels(l.Channels()) == Some(l)
    ensures FromChannels(n).Some? ==> FromChannels(n).value.Channels() == n
    ensures FromChannels(n).Some? <==> n in {1, 2, 6, 8}
    ensures l.Channels() == match l case Mono => 1 case Stereo => 2 case Surround51 => 6 case Surround71 => 8
    ensures FrameLen(l) == 960 * l.Channels()
  {
  }

  /** Codec streams of a layout: one for mono and stereo, one per channel pair for surround. */
  function Streams(l: Layout): (n: nat)
    ensures n > 0 && (l.Surround() ==> l.Channels() == 2 * n)
  {
    if l.Surround() then l.Channels() / 2 else 1
  }

  lemma StreamCounts(l: Layout)
    ensures Streams(l) == match l case Mono => 1 case Stereo => 1 case Surround51 => 3 case Surround71 => 4
    ensures l.Surround() <==> l in {Surround51, Surround71}
  {
  }

  /** What the codec library's objects remember; nothing is assumed about it. */
  type EncoderState(!new)
  type DecoderState(!new)

  /** Every use of an encoder or a decoder may change its state and may fail. */
  datatype Codec = Codec(
    enc0: EncoderState,
    enc: (EncoderState, seq<real>) -> (EncoderState, Option<seq<byte>>),
    dec0: DecoderState,
    dec: (DecoderState, seq<byte>) -> (DecoderState, Option<seq<real>>))

  // ---- One stream alone ----

  /** An encoder and the decoder at the far end. */
  datatype Stream = Stream(enc: EncoderState, dec: DecoderState)

  /** A packet of samples encoded and decoded with nothing in between. */
  function Through(c: Codec, s: Stream, p: seq<real>): (Stream, Option<seq<real>>) {
    var (e, data) := c.enc(s.enc, p);
    if data.None? then (Stream(e, s.dec), None)
    else
      var (d, heard) := c.dec(s.dec, data.value);
      (Stream(e, d), heard)
  }

  function HeardOf(c: Codec, s: Stream, p: seq<real>): seq<real> {
    match Through(c, s, p).1 case None => [] case Some(heard) => heard
  }

  /** The packet is encoded within the encode buffer and decodes to as many samples. */
  predicate Carries(c: Codec, s: Stream, p: seq<real>) {
    && c.enc(s.enc, p).1.Some? && |c.enc(s.enc, p).1.value| <= MAX_PACKET
    && Through(c, s, p).1.Some? && |Through(c, s, p).1.value| == |p|
  }

  predicate CarriesAll(c: Codec, s: Stream, packets: seq<seq<real>>)
    decreases |packets|
  {
    packets != [] ==> Carries(c, s, packets[0]) && CarriesAll(c, Through(c, s, packets[0]).0, packets[1..])
  }

  /** What the stream makes of its packets, one after the other. */
  function Alone(c: Codec, s: Stream, packets: seq<seq<real>>): (heard: seq<seq<real>>)
    ensures |heard| == |packets|
    decreases |packets|
  {
    if packets == [] then []
    else
      [HeardOf(c, s, packets[0])] + Alone(c, Through(c, s, packets[0]).0, packets[1..])
  }

  /** An encoder fed these packets refuses one of them. */
  predicate Refuses(c: Codec, e: EncoderState, packets: seq<seq<real>>)
    decreases |packets|
  {
    packets != [] &&
      var (e', data) := c.enc(e, packets[0]);
      data.None? || Refuses(c, e', packets[1..])
  }

  datatype AudioFrame = AudioFrame(number: nat, data: seq<byte>, channels: nat)

  function Before<T>(front: seq<T>, rest: Option<seq<T>>): Option<seq<T>> {
    match rest
    case None => None
    case Some(more) => Some(front + more)
  }

  lemma BeforeNothing<T>(rest: Option<seq<T>>)
    ensures Before([], rest) == rest
  {
    if rest.Some? { assert [] + rest.value == rest.value; }
  }

  lemma BeforeMore<T>(a: seq<T>, b: seq<T>, rest: Option<seq<T>>)
    ensures Before(a, Before(b, rest)) == Before(a + b, rest)
  {
    if rest.Some? { assert a + (b + rest.value) == (a + b) + rest.value; }
  }

  // ---- Muxing ----

  /** The stereo samples of channels `2k` and `2k + 1`. */
  function PairOf(chunk: seq<real>, n: nat, k: nat): (pair: seq<real>)
    requires 2 * k + 1 < n && |chunk| == FRAME_SIZE * n
    ensures |pair| == 2 * FRAME_SIZE
  {
    seq(2 * FRAME_SIZE, i requires 0 <= i < 2 * FRAME_SIZE =>
      SampleAt(chunk, n, i / 2, 2 * k + i % 2))
  }

  /** The sample of channel `ch` at time `s`. */
  function SampleAt(chunk: seq<real>, n: nat, s: nat, ch: nat): real
    requires |chunk| == FRAME_SIZE * n && s < FRAME_SIZE && ch < n
  {
    IndexBound(n, s, ch);
    chunk[s * n + ch]
  }

  lemma IndexBound(n: nat, s: nat, ch: nat)
    requires s < FRAME_SIZE && ch < n
    ensures s * n + ch < FRAME_SIZE * n
  {
    MulLe(s + 1, FRAME_SIZE, n);
    assert (s + 1) * n == s * n + n;
  }

  lemma MulLe(a: nat, b: nat, n: nat)
    requires a <= b
    ensures a * n <= b * n
  {
  }

  /** A packet behind its length as a little-endian `u16`. */
  function Prefixed(packet: seq<byte>): seq<byte> {
    ToLe(|packet| % 0x1_0000, 2) + packet
  }

  /** Pair k is channels 2k and 2k + 1, sample by sample. */
  lemma PairIs(chunk: seq<real>, n: nat, k: nat, s: nat)
    requires 2 * k + 1 < n && |chunk| == FRAME_SIZE * n && s < 960
    ensures s * n + 2 * k + 1 < |chunk|
    ensures PairOf(chunk, n, k)[2 * s] == chunk[s * n + 2 * k]
    ensures PairOf(chunk, n, k)[2 * s + 1] == chunk[s * n + 2 * k + 1]
  {
    IndexBound(n, s, 2 * k + 1);
    assert (2 * s) / 2 == s && (2 * s + 1) / 2 == s;
  }

  /** In front of a packet stands its length, low byte first. */
  lemma PrefixIs(packet: seq<byte>)
    ensures Prefixed(packet) == [|packet| % 256, |packet| / 256 % 256] + packet
  {
    var n := |packet| % 0x1_0000;
    assert n % 256 == |packet| % 256 && n / 256 == |packet| / 256 % 256;
    assert ToLe(n, 2) == [n % 256] + ToLe(n / 256, 1);
    assert ToLe(n / 256, 1) == [n / 256 % 256] + ToLe(n / 256 / 256, 0);
  }

  /** The packet that stream `k` gets from a chunk. */
  function PacketOf(l: Layout, chunk: seq<real>, k: nat): (p: seq<real>)
    requires |chunk| == FrameLen(l) && k < Streams(l)
    ensures l.Surround() ==> |p| == 2 * FRAME_SIZE
  {
    if l.Surround() then PairOf(chunk, l.Channels(), k) else chunk
  }

  /** Pairs `from` onwards, each packet behind its 2-byte length; a failing encoder ends it. */
  function Muxed(c: Codec, es: seq<EncoderState>, chunk: seq<real>, n: nat, from: nat)
    : (r: (seq<EncoderState>, Option<seq<byte>>))
    requires |chunk| == FRAME_SIZE * n && n == 2 * |es|
    ensures |r.0| == |es|
    decreases |es| - from
  {
    if from >= |es| then (es, Some([]))
    else
      var (e, packet) := c.enc(es[from], PairOf(chunk, n, from));
      var es1 := es[from := e];
      if packet.None? then (es1, None)
      else
        var (es2, rest) := Muxed(c, es1, chunk, n, from + 1);
        (es2, Before(Prefixed(packet.value), rest))
  }

  function EncodeChunk(c: Codec, l: Layout, es: seq<EncoderState>, chunk: seq<real>)
    : (r: (seq<EncoderState>, Option<seq<byte>>))
    requires |chunk| == FrameLen(l) && |es| == Streams(l)
    ensures |r.0| == |es|
  {
    if l.Surround() then Muxed(c, es, chunk, l.Channels(), 0)
    else
      var (e, packet) := c.enc(es[0], chunk);
      ([e], packet)
  }

  /** Multiplexing fails exactly when an encoder does, and otherwise each has taken its own
      packet. */
  lemma {:induction false} MuxedStreams(c: Codec, es: seq<EncoderState>, chunk: seq<real>, n: nat, from: nat)
    requires |chunk| == FRAME_SIZE * n && n == 2 * |es|
    ensures var (es', data) := Muxed(c, es, chunk, n, from);
            && (data.None? <==> exists k | from <= k < |es| :: c.enc(es[k], PairOf(chunk, n, k)).1.None?)
            && (data.Some? ==> forall k | 0 <= k < |es| ::
                  es'[k] == if k < from then es[k] else c.enc(es[k], PairOf(chunk, n, k)).0)
    decreases |es| - from
  {
    if from < |es| { MuxedStreams(c, es[from := c.enc(es[from], PairOf(chunk, n, from)).0], chunk, n, from + 1); }
  }

  lemma ChunkStreams(c: Codec, l: Layout, es: seq<EncoderState>, chunk: seq<real>)
    requires |chunk| == FrameLen(l) && |es| == Streams(l)
    ensures var (es', data) := EncodeChunk(c, l, es, chunk);
            && (data.None? <==> exists k | 0 <= k < |es| :: c.enc(es[k], PacketOf(l, chunk, k)).1.None?)
            && (data.Some? ==> forall k | 0 <= k < |es| :: es'[k] == c.enc(es[k], PacketOf(l, chunk, k)).0)
  {
    if l.Surround() {
      MuxedStreams(c, es, chunk, l.Channels(), 0);
    } else {
      assert PacketOf(l, chunk, 0) == chunk;
    }
  }

  // ---- Cutting ----

  /** The whole pieces of `size` samples, in order. */
  function Chunks(size: nat, samples: seq<real>): (cs: seq<seq<real>>)
    requires size > 0
    ensures forall k | 0 <= k < |cs| :: |cs[k]| == size
    decreases |samples|
  {
    if |samples| < size then [] else [samples[..size]] + Chunks(size, samples[size..])
  }

  /** Samples left over once the whole pieces are taken. */
  function Leftover(size: nat, samples: seq<real>): (rest: seq<real>)
    requires size > 0
    ensures |rest| < size
    decreases |samples|
  {
    if |samples| < size then samples else Leftover(size, samples[size..])
  }

  function Concat(parts: seq<seq<real>>): seq<real> {
    if parts == [] then [] else parts[0] + Concat(parts[1..])
  }

  /** Cutting loses nothing and keeps the order. */
  lemma {:induction false} CutsRejoin(size: nat, samples: seq<real>)
    requires size > 0
    ensures Concat(Chunks(size, samples)) + Leftover(size, samples) == samples
    ensures |Concat(Chunks(size, samples))| == size * |Chunks(size, samples)|
    decreases |samples|
  {
    if |samples| >= size {
      var rest := samples[size..];
      CutsRejoin(size, rest);
      assert Chunks(size, samples)[1..] == Chunks(size, rest);
      assert samples == samples[..size] + rest;
      assert size * (1 + |Chunks(size, rest)|) == size + size * |Chunks(size, rest)|;
    }
  }

  /** What stream `k` gets of these chunks. */
  function StreamOf(l: Layout, chunks: seq<seq<real>>, k: nat): (packets: seq<seq<real>>)
    requires k < Streams(l) && forall j | 0 <= j < |chunks| :: |chunks[j]| == FrameLen(l)
    ensures |packets| == |chunks|
  {
    seq(|chunks|, j requires 0 <= j < |chunks| => PacketOf(l, chunks[j], k))
  }

  lemma StreamTail(l: Layout, chunks: seq<seq<real>>, k: nat)
    requires chunks != [] && k < Streams(l) && forall j | 0 <= j < |chunks| :: |chunks[j]| == FrameLen(l)
    ensures StreamOf(l, chunks, k)[0] == PacketOf(l, chunks[0], k)
    ensures StreamOf(l, chunks, k)[1..] == StreamOf(l, chunks[1..], k)
  {
  }

  // ---- Encoding ----

  /** The encoder between calls. */
  datatype Encoder = Encoder(encoders: seq<EncoderState>, buffer: seq<real>, number: nat)

  /** A frame per whole piece in the buffer. A failing codec ends the call: the piece and the
      frames before it are gone, the later samples stay. */
  function EncodeAll(c: Codec, l: Layout, st: Encoder): (r: (Encoder, Option<seq<AudioFrame>>))
    requires |st.encoders| == Streams(l)
    ensures |r.0.encoders| == Streams(l) && (r.1.Some? ==> |r.0.buffer| < FrameLen(l))
    decreases |st.buffer|
  {
    var size := FrameLen(l);
    if |st.buffer| < size then (st, Some([]))
    else
      var (es, data) := EncodeChunk(c, l, st.encoders, st.buffer[..size]);
      if data.None? then (Encoder(es, st.buffer[size..], st.number), None)
      else
        var (st', rest) := EncodeAll(c, l, Encoder(es, st.buffer[size..], st.number + 1));
        (st', Before([AudioFrame(st.number + 1, data.value, l.Channels())], rest))
  }

  /** The encoder with more samples in its buffer. */
  function Fed(st: Encoder, samples: seq<real>): Encoder {
    st.(buffer := st.buffer + samples)
  }

  /** The encoder after one whole piece. */
  function NextPiece(c: Codec, l: Layout, st: Encoder): (st': Encoder)
    requires |st.encoders| == Streams(l) && |st.buffer| >= FrameLen(l)
    ensures |st'.encoders| == Streams(l)
  {
    var size := FrameLen(l);
    Encoder(EncodeChunk(c, l, st.encoders, st.buffer[..size]).0, st.buffer[size..], st.number + 1)
  }

  /** A call on `a + b` is a call on `a` and, unless that fails, one on the rest. */
  lemma {:induction false} EncodeInParts(c: Codec, l: Layout, st: Encoder, b: seq<real>)
    requires |st.encoders| == Streams(l)
    ensures var (st1, first) := EncodeAll(c, l, st);
            var (st2, second) := EncodeAll(c, l, Fed(st1, b));
            var (whole, frames) := EncodeAll(c, l, Fed(st, b));
            && (first.None? ==> frames.None?)
            && (first.Some? ==> whole == st2 && frames == Before(first.value, second))
    decreases |st.buffer|
  {
    var size := FrameLen(l);
    if |st.buffer| < size {
      BeforeNothing(EncodeAll(c, l, Fed(st, b)).1);
    } else {
      assert Fed(st, b).buffer[..size] == st.buffer[..size];
      assert Fed(st, b).buffer[size..] == st.buffer[size..] + b;
      var next := NextPiece(c, l, st);
      assert NextPiece(c, l, Fed(st, b)) == Fed(next, b);
      EncodeInParts(c, l, next, b);
      var (es, data) := EncodeChunk(c, l, st.encoders, st.buffer[..size]);
      if data.Some? {
        var (st1, first) := EncodeAll(c, l, next);
        var frame := AudioFrame(st.number + 1, data.value, l.Channels());
        if first.Some? { BeforeMore([frame], first.value, EncodeAll(c, l, Fed(st1, b)).1); }
      }
    }
  }

  /** The frames of a list of calls, up to the first that fails. */
  function EncodeCalls(c: Codec, l: Layout, st: Encoder, calls: seq<seq<real>>)
    : (r: (Encoder, Option<seq<AudioFrame>>))
    requires |st.encoders| == Streams(l)
    decreases |calls|
  {
    if calls == [] then (st, Some([]))
    else
      var (st1, first) := EncodeAll(c, l, Fed(st, calls[0]));
      if first.None? then (st1, None)
      else
        var (st2, rest) := EncodeCalls(c, l, st1, calls[1..]);
        (st2, Before(first.value, rest))
  }

  /** Splitting the input across calls does not matter: some call fails exactly when one call
      on everything does, and otherwise frames and encoder are the same. */
  lemma {:induction false} CallsJoin(c: Codec, l: Layout, st: Encoder, calls: seq<seq<real>>)
    requires |st.encoders| == Streams(l) && |st.buffer| < FrameLen(l)
    ensures var (split, frames) := EncodeCalls(c, l, st, calls);
            var (whole, all) := EncodeAll(c, l, Fed(st, Concat(calls)));
            frames == all && (all.Some? ==> split == whole)
    decreases |calls|
  {
    if calls == [] {
      assert Fed(st, []) == st;
    } else {
      var later := Concat(calls[1..]);
      EncodeInParts(c, l, Fed(st, calls[0]), later);
      assert Fed(Fed(st, calls[0]), later) == Fed(st, Concat(calls)) by {
        assert st.buffer + calls[0] + later == st.buffer + (calls[0] + later);
      }
      var (st1, first) := EncodeAll(c, l, Fed(st, calls[0]));
      if first.Some? { CallsJoin(c, l, st1, calls[1..]); }
    }
  }

  /** Some stream refuses one of its packets of these samples. */
  ghost predicate SomeRefuses(c: Codec, l: Layout, es: seq<EncoderState>, samples: seq<real>)
    requires |es| == Streams(l)
  {
    exists k | 0 <= k < |es| :: Refuses(c, es[k], StreamOf(l, Chunks(FrameLen(l), samples), k))
  }

  lemma RefusesNext(c: Codec, l: Layout, st: Encoder)
    requires |st.encoders| == Streams(l) && |st.buffer| >= FrameLen(l)
    ensures var chunk := st.buffer[..FrameLen(l)];
            SomeRefuses(c, l, st.encoders, st.buffer) <==>
            || EncodeChunk(c, l, st.encoders, chunk).1.None?
            || SomeRefuses(c, l, NextPiece(c, l, st).encoders, NextPiece(c, l, st).buffer)
  {
    var chunks, next := Chunks(FrameLen(l), st.buffer), NextPiece(c, l, st);
    var later := Chunks(FrameLen(l), next.buffer);
    assert chunks[0] == st.buffer[..FrameLen(l)] && chunks[1..] == later;
    ChunkStreams(c, l, st.encoders, chunks[0]);
    forall k | 0 <= k < Streams(l)
      ensures Refuses(c, st.encoders[k], StreamOf(l, chunks, k)) <==>
              var (e, data) := c.enc(st.encoders[k], PacketOf(l, chunks[0], k));
              data.None? || Refuses(c, e, StreamOf(l, later, k))
    {
      StreamTail(l, chunks, k);
    }
  }

  /** A call fails exactly when some stream's encoder, fed its own packets alone, refuses one. */
  lemma {:induction false} EncodeFailsIff(c: Codec, l: Layout, st: Encoder)
    requires |st.encoders| == Streams(l)
    ensures EncodeAll(c, l, st).1.None? <==> SomeRefuses(c, l, st.encoders, st.buffer)
    decreases |st.buffer|
  {
    if |st.buffer| >= FrameLen(l) {
      RefusesNext(c, l, st);
      EncodeFailsIff(c, l, NextPiece(c, l, st));
    }
  }

  // ---- Demuxing ----

  function Zeros(n: nat): (z: seq<real>)
    ensures |z| == n
  {
    seq(n, _ => 0.0)
  }

  /** Decoded samples over a zeroed buffer of `size`; a packet that holds more is an error. */
  function DecodeInto(c: Codec, d: DecoderState, packet: seq<byte>, size: nat)
    : (r: (DecoderState, Option<seq<real>>))
    ensures r.1.Some? ==> |r.1.value| == size
  {
    match c.dec(d, packet)
    case (d', None) => (d', None)
    case (d', Some(s)) => if |s| > size then (d', None) else (d', Some(s + Zeros(size - |s|)))
  }

  /** A packet for each decoder from `from` on; data that ends early just stops the list. */
  function Demux(c: Codec, ds: seq<DecoderState>, data: seq<byte>, from: nat)
    : (r: (seq<DecoderState>, Option<seq<seq<real>>>))
    ensures |r.0| == |ds|
    ensures r.1.Some? ==> from + |r.1.value| <= Max(from, |ds|)
    ensures r.1.Some? ==> forall k | 0 <= k < |r.1.value| :: |r.1.value[k]| == 2 * FRAME_SIZE
    decreases |ds| - from
  {
    if from >= |ds| || |data| < 2 then (ds, Some([]))
    else
      var len := FromLe(data[..2]);
      if 2 + len > |data| then (ds, None)
      else
        var (d, pair) := DecodeInto(c, ds[from], data[2..2 + len], 2 * FRAME_SIZE);
        if pair.None? then (ds[from := d], None)
        else
          var (ds', more) := Demux(c, ds[from := d], data[2 + len..], from + 1);
          (ds', Before([pair.value], more))
  }

  /** One step of the demultiplexer in terms of a cursor into the data. */
  lemma DemuxAt(c: Codec, ds: seq<DecoderState>, data: seq<byte>, cur: nat, from: nat)
    requires from < |ds| && cur + 2 <= |data|
    ensures var len := FromLe(data[cur..cur + 2]);
            Demux(c, ds, data[cur..], from) ==
            if cur + 2 + len > |data| then (ds, None)
            else
              var (d, pair) := DecodeInto(c, ds[from], data[cur + 2..cur + 2 + len], 2 * FRAME_SIZE);
              if pair.None? then (ds[from := d], None)
              else
                var (ds', more) := Demux(c, ds[from := d], data[cur + 2 + len..], from + 1);
                (ds', Before([pair.value], more))
  {
    var rest := data[cur..];
    assert rest[..2] == data[cur..cur + 2];
    var len := FromLe(rest[..2]);
    if cur + 2 + len <= |data| {
      assert rest[2..2 + len] == data[cur + 2..cur + 2 + len] && rest[2 + len..] == data[cur + 2 + len..];
    }
  }

  /** ... and with the pairs decoded so far in front. */
  lemma DemuxMore(c: Codec, ds: seq<DecoderState>, data: seq<byte>, cur: nat, from: nat, decoded: seq<seq<real>>,
                  len: nat, d: DecoderState, pair: seq<real>)
    requires from < |ds| && cur + 2 <= |data| && len == FromLe(data[cur..cur + 2]) && cur + 2 + len <= |data|
    requires DecodeInto(c, ds[from], data[cur + 2..cur + 2 + len], 2 * FRAME_SIZE) == (d, Some(pair))
    ensures var (ds1, rest) := Demux(c, ds, data[cur..], from);
            var (ds2, more) := Demux(c, ds[from := d], data[cur + 2 + len..], from + 1);
            ds1 == ds2 && Before(decoded, rest) == Before(decoded + [pair], more)
  {
    DemuxAt(c, ds, data, cur, from);
    BeforeMore(decoded, [pair], Demux(c, ds[from := d], data[cur + 2 + len..], from + 1).1);
  }

  /** Pairs put back into channel order; a missing pair is silence. */
  function Interleave(pairs: seq<seq<real>>, n: nat): (out: seq<real>)
    requires n > 0 && forall k | 0 <= k < |pairs| :: |pairs[k]| == 2 * FRAME_SIZE
    ensures |out| == FRAME_SIZE * n
  {
    seq(FRAME_SIZE * n, i requires 0 <= i < FRAME_SIZE * n => (TimeBound(n, i); Woven(pairs, i / n, i % n)))
  }

  /** The sample at time `s` of channel `ch`. */
  function Woven(pairs: seq<seq<real>>, s: nat, ch: nat): real
    requires s < FRAME_SIZE && forall k | 0 <= k < |pairs| :: |pairs[k]| == 2 * FRAME_SIZE
  {
    if ch / 2 < |pairs| then pairs[ch / 2][2 * s + ch % 2] else 0.0
  }

  lemma ModBound(x: nat, m: nat, k: nat)
    requires m > 0 && x < k * m
    ensures x / m < k
  {
    var q := x / m;
    assert x == m * q + x % m;
    assert m * q - m * k == m * (q - k);
    assert q - k >= 0 ==> m * (q - k) >= 0;
  }

  lemma TimeBound(n: nat, i: nat)
    requires n > 0 && i < FRAME_SIZE * n
    ensures i / n < FRAME_SIZE && i == i / n * n + i % n
  {
    assert i == n * (i / n) + i % n;
    ModBound(i, n, FRAME_SIZE);
  }

  function DecodeFrame(c: Codec, l: Layout, ds: seq<DecoderState>, data: seq<byte>)
    : (r: (seq<DecoderState>, Option<seq<real>>))
    requires |ds| == Streams(l)
    ensures |r.0| == |ds|
  {
    if !l.Surround() then
      var (d, s) := c.dec(ds[0], data);
      ([d], if s.Some? && |s.value| > FrameLen(l) then None else s)
    else
      match Demux(c, ds, data, 0)
      case (ds', None) => (ds', None)
      case (ds', Some(pairs)) => (ds', Some(Interleave(pairs, l.Channels())))
  }

  /** Mono and stereo decode with the one decoder there is; more than 960 samples a channel is an
      error, as is a failing decoder. */
  lemma DecodesPlain(c: Codec, l: Layout, ds: seq<DecoderState>, data: seq<byte>)
    requires |ds| == 1 && l.Channels() <= 2
    ensures var (d, s) := c.dec(ds[0], data);
            DecodeFrame(c, l, ds, data) ==
            ([d], if s.Some? && |s.value| <= 960 * l.Channels() then s else None)
  {
  }

  // ---- Round trip ----

  lemma ThreeParts(a: seq<byte>, b: seq<byte>, c: seq<byte>)
    ensures (a + b + c)[..|a|] == a && (a + b + c)[|a|..|a| + |b|] == b && (a + b + c)[|a| + |b|..] == c
  {
  }

  lemma PacketParts(packet: seq<byte>, rest: seq<byte>)
    requires |packet| < 0x1_0000
    ensures var data := Prefixed(packet) + rest;
            FromLe(data[..2]) == |packet| && data[2..2 + |packet|] == packet && data[2 + |packet|..] == rest
  {
    var length := ToLe(|packet|, 2);
    assert Prefixed(packet) == length + packet;
    ThreeParts(length, packet, rest);
    assert FromLe(length) == |packet| by {
      assert Pow256(2) == 0x1_0000;
      LeRoundTrip(|packet|, 2);
    }
  }

  /** The encoders at one end and the decoders at the other, stream by stream. */
  function Paired(es: seq<EncoderState>, ds: seq<DecoderState>): (ss: seq<Stream>)
    requires |es| == |ds|
    ensures |ss| == |es| && forall k | 0 <= k < |ss| :: ss[k] == Stream(es[k], ds[k])
  {
    seq(|es|, k requires 0 <= k < |es| => Stream(es[k], ds[k]))
  }

  lemma DemuxOne(c: Codec, ds: seq<DecoderState>, packet: seq<byte>, rest: seq<byte>, from: nat)
    requires from < |ds| && |packet| < 0x1_0000
    requires c.dec(ds[from], packet).1.Some? && |c.dec(ds[from], packet).1.value| == 2 * FRAME_SIZE
    ensures var (d, pair) := c.dec(ds[from], packet);
            var (ds', more) := Demux(c, ds[from := d], rest, from + 1);
            Demux(c, ds, Prefixed(packet) + rest, from) == (ds', Before([pair.value], more))
  {
    PacketParts(packet, rest);
    var pair := c.dec(ds[from], packet).1.value;
    assert pair + Zeros(0) == pair;
  }

  /** The streams of pairs `from` onwards carry the chunk. */
  ghost predicate PairsCarried(c: Codec, es: seq<EncoderState>, ds: seq<DecoderState>, chunk: seq<real>, n: nat,
                               from: nat)
    requires |chunk| == FRAME_SIZE * n && n == 2 * |es| == 2 * |ds|
  {
    forall k | from <= k < |es| :: Carries(c, Stream(es[k], ds[k]), PairOf(chunk, n, k))
  }

  /** What the streams alone make of their pairs of the chunk, and the decoders once those from
      `from` on have. */
  function PairsHeard(c: Codec, es: seq<EncoderState>, ds: seq<DecoderState>, chunk: seq<real>, n: nat)
    : (ps: seq<seq<real>>)
    requires |chunk| == FRAME_SIZE * n && n == 2 * |es| == 2 * |ds|
    ensures |ps| == |es|
  {
    seq(|es|, k requires 0 <= k < |es| => HeardOf(c, Stream(es[k], ds[k]), PairOf(chunk, n, k)))
  }

  function DecodersAfter(c: Codec, es: seq<EncoderState>, ds: seq<DecoderState>, chunk: seq<real>, n: nat, from: nat)
    : seq<DecoderState>
    requires |chunk| == FRAME_SIZE * n && n == 2 * |es| == 2 * |ds|
  {
    seq(|ds|, k requires 0 <= k < |ds| =>
      if k < from then ds[k] else Through(c, Stream(es[k], ds[k]), PairOf(chunk, n, k)).0.dec)
  }

  lemma PairsNext(c: Codec, es: seq<EncoderState>, ds: seq<DecoderState>, chunk: seq<real>, n: nat, from: nat)
    requires |chunk| == FRAME_SIZE * n && n == 2 * |es| == 2 * |ds| && from < |es|
    ensures var (s, heard) := Through(c, Stream(es[from], ds[from]), PairOf(chunk, n, from));
            var es1, ds1 := es[from := s.enc], ds[from := s.dec];
            && DecodersAfter(c, es, ds, chunk, n, from) == DecodersAfter(c, es1, ds1, chunk, n, from + 1)
            && (heard.Some? ==> PairsHeard(c, es, ds, chunk, n)[from..] ==
                                [heard.value] + PairsHeard(c, es1, ds1, chunk, n)[from + 1..])
  {
  }

  /** Demultiplexing gives back each pair as its own stream would, and leaves every decoder
      as it would be. */
  lemma {:induction false} DemuxUndoesMux(c: Codec, es: seq<EncoderState>, ds: seq<DecoderState>,
                                          chunk: seq<real>, n: nat, from: nat)
    requires |chunk| == FRAME_SIZE * n && n == 2 * |es| == 2 * |ds| && from <= |es|
    requires PairsCarried(c, es, ds, chunk, n, from)
    ensures Muxed(c, es, chunk, n, from).1.Some?
    ensures Demux(c, ds, Muxed(c, es, chunk, n, from).1.value, from) ==
            (DecodersAfter(c, es, ds, chunk, n, from), Some(PairsHeard(c, es, ds, chunk, n)[from..]))
    decreases |es| - from
  {
    if from < |es| {
      var pair := PairOf(chunk, n, from);
      assert Carries(c, Stream(es[from], ds[from]), pair);
      var (e, packet) := c.enc(es[from], pair);
      var (d, heard) := c.dec(ds[from], packet.value);
      var es1, ds1 := es[from := e], ds[from := d];
      assert PairsCarried(c, es1, ds1, chunk, n, from + 1) by { CarriedRest(c, es, ds, chunk, n, from, e, d); }
      DemuxUndoesMux(c, es1, ds1, chunk, n, from + 1);
      PairsNext(c, es, ds, chunk, n, from);
      DemuxOne(c, ds, packet.value, Muxed(c, es1, chunk, n, from + 1).1.value, from);
    } else {
      assert DecodersAfter(c, es, ds, chunk, n, from) == ds && PairsHeard(c, es, ds, chunk, n)[from..] == [];
    }
  }

  lemma CarriedRest(c: Codec, es: seq<EncoderState>, ds: seq<DecoderState>, chunk: seq<real>, n: nat, from: nat,
                    e: EncoderState, d: DecoderState)
    requires |chunk| == FRAME_SIZE * n && n == 2 * |es| == 2 * |ds| && from < |es|
    requires PairsCarried(c, es, ds, chunk, n, from)
    ensures PairsCarried(c, es[from := e], ds[from := d], chunk, n, from + 1)
  {
    forall k | from < k < |es| ensures Carries(c, Stream(es[from := e][k], ds[from := d][k]), PairOf(chunk, n, k)) {
      assert Carries(c, Stream(es[k], ds[k]), PairOf(chunk, n, k));
    }
  }

  lemma PairSampleIsSample(chunk: seq<real>, n: nat, s: nat, ch: nat)
    requires |chunk| == FRAME_SIZE * n && n % 2 == 0 && s < FRAME_SIZE && ch < n
    ensures 2 * (ch / 2) + 1 < n && PairOf(chunk, n, ch / 2)[2 * s + ch % 2] == SampleAt(chunk, n, s, ch)
  {
    assert (2 * s + ch % 2) / 2 == s && (2 * s + ch % 2) % 2 == ch % 2;
  }

  lemma WovenIsSample(chunk: seq<real>, n: nat, pairs: seq<seq<real>>, s: nat, ch: nat)
    requires |chunk| == FRAME_SIZE * n && n % 2 == 0 && s < FRAME_SIZE && ch < n && |pairs| == n / 2
    requires forall k | 0 <= k < |pairs| :: |pairs[k]| == 2 * FRAME_SIZE
    requires pairs[ch / 2] == PairOf(chunk, n, ch / 2)
    ensures Woven(pairs, s, ch) == SampleAt(chunk, n, s, ch)
  {
    PairSampleIsSample(chunk, n, s, ch);
  }

  lemma WovenRestores(chunk: seq<real>, n: nat, pairs: seq<seq<real>>, s: nat, ch: nat, i: nat)
    requires |chunk| == FRAME_SIZE * n && n % 2 == 0 && s < FRAME_SIZE && ch < n && |pairs| == n / 2
    requires i < |chunk| && i == s * n + ch
    requires forall k | 0 <= k < |pairs| :: |pairs[k]| == 2 * FRAME_SIZE && pairs[k] == PairOf(chunk, n, k)
    ensures Woven(pairs, s, ch) == chunk[i]
  {
    WovenIsSample(chunk, n, pairs, s, ch);
  }

  lemma InterleavedAt(pairs: seq<seq<real>>, n: nat, s: nat, ch: nat, i: nat)
    requires n > 0 && s < FRAME_SIZE && ch < n && i < FRAME_SIZE * n && s == i / n && ch == i % n
    requires forall k | 0 <= k < |pairs| :: |pairs[k]| == 2 * FRAME_SIZE
    ensures Interleave(pairs, n)[i] == Woven(pairs, s, ch)
  {
  }

  lemma RestoredAt(chunk: seq<real>, n: nat, pairs: seq<seq<real>>, i: nat)
    requires |chunk| == FRAME_SIZE * n && n % 2 == 0 && n > 0 && i < |chunk| && |pairs| == n / 2
    requires forall k | 0 <= k < |pairs| :: |pairs[k]| == 2 * FRAME_SIZE
    requires forall k | 0 <= k < |pairs| :: pairs[k] == PairOf(chunk, n, k)
    ensures Interleave(pairs, n)[i] == chunk[i]
  {
    var s, ch := Coordinates(n, i);
    calc {
      Interleave(pairs, n)[i];
      { InterleavedAt(pairs, n, s, ch, i); }
      Woven(pairs, s, ch);
      { WovenRestores(chunk, n, pairs, s, ch, i); }
      chunk[i];
    }
  }

  lemma Coordinates(n: nat, i: nat) returns (s: nat, ch: nat)
    requires n > 0 && i < FRAME_SIZE * n
    ensures s == i / n && ch == i % n && s < FRAME_SIZE && ch < n && i == s * n + ch
  {
    TimeBound(n, i);
    s, ch := i / n, i % n;
  }

  lemma InterleaveUndoesPairs(chunk: seq<real>, n: nat, pairs: seq<seq<real>>)
    requires |chunk| == FRAME_SIZE * n && n % 2 == 0 && n > 0 && |pairs| == n / 2
    requires forall k | 0 <= k < |pairs| :: |pairs[k]| == 2 * FRAME_SIZE
    requires forall k | 0 <= k < |pairs| :: pairs[k] == PairOf(chunk, n, k)
    ensures Interleave(pairs, n) == chunk
  {
    var out := Interleave(pairs, n);
    forall i: nat | i < |chunk| ensures out[i] == chunk[i] { RestoredAt(chunk, n, pairs, i); }
  }

  /** The streams' samples of one chunk, in channel order. */
  function Mixed(l: Layout, parts: seq<seq<real>>): seq<real>
    requires |parts| == Streams(l)
  {
    if !l.Surround() then parts[0]
    else if forall p <- parts :: |p| == 2 * FRAME_SIZE then Interleave(parts, l.Channels())
    else []
  }

  /** What each stream alone makes of its packet of the chunk, and the streams afterwards. */
  function PartsHeard(c: Codec, l: Layout, ss: seq<Stream>, chunk: seq<real>): (parts: seq<seq<real>>)
    requires |ss| == Streams(l) && |chunk| == FrameLen(l)
    ensures |parts| == |ss|
  {
    seq(|ss|, k requires 0 <= k < |ss| => HeardOf(c, ss[k], PacketOf(l, chunk, k)))
  }

  function NextStreams(c: Codec, l: Layout, ss: seq<Stream>, chunk: seq<real>): (ss': seq<Stream>)
    requires |ss| == Streams(l) && |chunk| == FrameLen(l)
    ensures |ss'| == |ss|
  {
    seq(|ss|, k requires 0 <= k < |ss| => Through(c, ss[k], PacketOf(l, chunk, k)).0)
  }

  ghost predicate ChunkCarried(c: Codec, l: Layout, ss: seq<Stream>, chunk: seq<real>)
    requires |ss| == Streams(l) && |chunk| == FrameLen(l)
  {
    forall k | 0 <= k < |ss| :: Carries(c, ss[k], PacketOf(l, chunk, k))
  }

  lemma SurroundGoesThrough(c: Codec, l: Layout, es: seq<EncoderState>, ds: seq<DecoderState>, chunk: seq<real>)
    requires l.Surround() && |es| == |ds| == Streams(l) && |chunk| == FrameLen(l)
    requires ChunkCarried(c, l, Paired(es, ds), chunk)
    ensures var (es', data) := Muxed(c, es, chunk, l.Channels(), 0);
            && data.Some?
            && var (ds', pairs) := Demux(c, ds, data.value, 0);
               && pairs == Some(PartsHeard(c, l, Paired(es, ds), chunk))
               && Paired(es', ds') == NextStreams(c, l, Paired(es, ds), chunk)
  {
    var n, ss := l.Channels(), Paired(es, ds);
    assert PairsCarried(c, es, ds, chunk, n, 0) by {
      forall k | 0 <= k < |es| ensures Carries(c, Stream(es[k], ds[k]), PairOf(chunk, n, k)) {
        assert Carries(c, ss[k], PacketOf(l, chunk, k));
      }
    }
    DemuxUndoesMux(c, es, ds, chunk, n, 0);
    MuxedStreams(c, es, chunk, n, 0);
    ThroughParts(c, l, es, ds, chunk, Muxed(c, es, chunk, n, 0).0);
    assert PairsHeard(c, es, ds, chunk, n)[0..] == PairsHeard(c, es, ds, chunk, n);
  }

  lemma ThroughParts(c: Codec, l: Layout, es: seq<EncoderState>, ds: seq<DecoderState>, chunk: seq<real>,
                     es': seq<EncoderState>)
    requires l.Surround() && |es| == |ds| == |es'| == Streams(l) && |chunk| == FrameLen(l)
    requires ChunkCarried(c, l, Paired(es, ds), chunk)
    requires forall k | 0 <= k < |es| :: es'[k] == c.enc(es[k], PairOf(chunk, l.Channels(), k)).0
    ensures PairsHeard(c, es, ds, chunk, l.Channels()) == PartsHeard(c, l, Paired(es, ds), chunk)
    ensures Paired(es', DecodersAfter(c, es, ds, chunk, l.Channels(), 0)) == NextStreams(c, l, Paired(es, ds), chunk)
  {
    var ss, next := Paired(es, ds), NextStreams(c, l, Paired(es, ds), chunk);
    forall k | 0 <= k < |es|
      ensures next[k] == Stream(es'[k], DecodersAfter(c, es, ds, chunk, l.Channels(), 0)[k])
    {
      assert Carries(c, ss[k], PacketOf(l, chunk, k));
    }
  }

  /** One frame decodes to what every stream alone makes of its part, and leaves the streams as
      they would be alone: framing and multiplexing add nothing, drop nothing and mix no
      channels. */
  lemma ChunkGoesThrough(c: Codec, l: Layout, es: seq<EncoderState>, ds: seq<DecoderState>, chunk: seq<real>)
    requires |es| == |ds| == Streams(l) && |chunk| == FrameLen(l)
    requires ChunkCarried(c, l, Paired(es, ds), chunk)
    ensures var (es', data) := EncodeChunk(c, l, es, chunk);
            && data.Some?
            && var (ds', out) := DecodeFrame(c, l, ds, data.value);
               && out == Some(Mixed(l, PartsHeard(c, l, Paired(es, ds), chunk)))
               && Paired(es', ds') == NextStreams(c, l, Paired(es, ds), chunk)
  {
    if l.Surround() {
      SurroundGoesThrough(c, l, es, ds, chunk);
    } else {
      assert Carries(c, Paired(es, ds)[0], PacketOf(l, chunk, 0));
    }
  }

  /** Decoded samples of a list of frames, in order, up to the first that fails. */
  function DecodeAll(c: Codec, l: Layout, ds: seq<DecoderState>, frames: seq<AudioFrame>)
    : (r: (seq<DecoderState>, Option<seq<real>>))
    requires |ds| == Streams(l)
    decreases |frames|
  {
    if frames == [] then (ds, Some([]))
    else
      var (ds1, first) := DecodeFrame(c, l, ds, frames[0].data);
      if first.None? then (ds1, None)
      else
        var (ds2, rest) := DecodeAll(c, l, ds1, frames[1..]);
        (ds2, Before(first.value, rest))
  }

  /** Every stream carries its packets of all these chunks. */
  ghost predicate AllCarried(c: Codec, l: Layout, ss: seq<Stream>, chunks: seq<seq<real>>)
    requires |ss| == Streams(l) && forall j | 0 <= j < |chunks| :: |chunks[j]| == FrameLen(l)
  {
    forall k | 0 <= k < |ss| :: CarriesAll(c, ss[k], StreamOf(l, chunks, k))
  }

  /** Piece `j` as the streams give it back when each runs alone over all its packets. */
  function PieceHeard(c: Codec, l: Layout, ss: seq<Stream>, chunks: seq<seq<real>>, j: nat): seq<real>
    requires |ss| == Streams(l) && j < |chunks| && forall i | 0 <= i < |chunks| :: |chunks[i]| == FrameLen(l)
  {
    Mixed(l, PartsAt(c, l, ss, chunks, j))
  }

  function PartsAt(c: Codec, l: Layout, ss: seq<Stream>, chunks: seq<seq<real>>, j: nat): (parts: seq<seq<real>>)
    requires |ss| == Streams(l) && j < |chunks| && forall i | 0 <= i < |chunks| :: |chunks[i]| == FrameLen(l)
    ensures |parts| == |ss|
  {
    seq(|ss|, k requires 0 <= k < |ss| => Alone(c, ss[k], StreamOf(l, chunks, k))[j])
  }

  /** The pieces as they come back one after the other. */
  function PiecesHeard(c: Codec, l: Layout, ss: seq<Stream>, chunks: seq<seq<real>>): (heard: seq<seq<real>>)
    requires |ss| == Streams(l) && forall j | 0 <= j < |chunks| :: |chunks[j]| == FrameLen(l)
    ensures |heard| == |chunks|
    decreases |chunks|
  {
    if chunks == [] then []
    else
      [Mixed(l, PartsHeard(c, l, ss, chunks[0]))]
      + PiecesHeard(c, l, NextStreams(c, l, ss, chunks[0]), chunks[1..])
  }

  lemma CarriedNext(c: Codec, l: Layout, ss: seq<Stream>, chunks: seq<seq<real>>)
    requires |ss| == Streams(l) && chunks != [] && forall j | 0 <= j < |chunks| :: |chunks[j]| == FrameLen(l)
    requires AllCarried(c, l, ss, chunks)
    ensures ChunkCarried(c, l, ss, chunks[0])
    ensures AllCarried(c, l, NextStreams(c, l, ss, chunks[0]), chunks[1..])
  {
    forall k | 0 <= k < |ss|
      ensures Carries(c, ss[k], PacketOf(l, chunks[0], k))
      ensures CarriesAll(c, NextStreams(c, l, ss, chunks[0])[k], StreamOf(l, chunks[1..], k))
    {
      StreamTail(l, chunks, k);
    }
  }

  lemma AloneNext(c: Codec, l: Layout, ss: seq<Stream>, chunks: seq<seq<real>>, k: nat)
    requires k < |ss| == Streams(l) && chunks != [] && forall i | 0 <= i < |chunks| :: |chunks[i]| == FrameLen(l)
    ensures Alone(c, ss[k], StreamOf(l, chunks, k)) ==
            [PartsHeard(c, l, ss, chunks[0])[k]]
            + Alone(c, NextStreams(c, l, ss, chunks[0])[k], StreamOf(l, chunks[1..], k))
  {
    StreamTail(l, chunks, k);
  }

  lemma PartsNext(c: Codec, l: Layout, ss: seq<Stream>, chunks: seq<seq<real>>, j: nat)
    requires |ss| == Streams(l) && j < |chunks| && forall i | 0 <= i < |chunks| :: |chunks[i]| == FrameLen(l)
    ensures PartsAt(c, l, ss, chunks, j) ==
            if j == 0 then PartsHeard(c, l, ss, chunks[0])
            else PartsAt(c, l, NextStreams(c, l, ss, chunks[0]), chunks[1..], j - 1)
  {
    var parts := PartsAt(c, l, ss, chunks, j);
    if j == 0 {
      var first := PartsHeard(c, l, ss, chunks[0]);
      forall k | 0 <= k < |ss| ensures parts[k] == first[k] { AloneNext(c, l, ss, chunks, k); }
    } else {
      var later := PartsAt(c, l, NextStreams(c, l, ss, chunks[0]), chunks[1..], j - 1);
      forall k | 0 <= k < |ss| ensures parts[k] == later[k] { AloneNext(c, l, ss, chunks, k); }
    }
  }

  lemma PieceNext(c: Codec, l: Layout, ss: seq<Stream>, chunks: seq<seq<real>>, j: nat)
    requires |ss| == Streams(l) && j < |chunks| && forall i | 0 <= i < |chunks| :: |chunks[i]| == FrameLen(l)
    ensures PieceHeard(c, l, ss, chunks, j) ==
            if j == 0 then Mixed(l, PartsHeard(c, l, ss, chunks[0]))
            else PieceHeard(c, l, NextStreams(c, l, ss, chunks[0]), chunks[1..], j - 1)
  {
    PartsNext(c, l, ss, chunks, j);
  }

  /** Piece by piece, with the streams as the pieces before left them, is each stream alone over
      all its packets. */
  lemma {:induction false} PieceIs(c: Codec, l: Layout, ss: seq<Stream>, chunks: seq<seq<real>>, j: nat)
    requires |ss| == Streams(l) && j < |chunks| && forall i | 0 <= i < |chunks| :: |chunks[i]| == FrameLen(l)
    ensures PiecesHeard(c, l, ss, chunks)[j] == PieceHeard(c, l, ss, chunks, j)
    decreases j
  {
    PieceNext(c, l, ss, chunks, j);
    if j > 0 { PieceIs(c, l, NextStreams(c, l, ss, chunks[0]), chunks[1..], j - 1); }
  }

  /** What the frames of one call must be: one per piece, numbered on, decoding to the pieces
      as the streams alone give them back. */
  ghost predicate Transparent(c: Codec, l: Layout, ss: seq<Stream>, ds: seq<DecoderState>, chunks: seq<seq<real>>,
                              number: nat, frames: seq<AudioFrame>)
    requires |ss| == |ds| == Streams(l) && forall j | 0 <= j < |chunks| :: |chunks[j]| == FrameLen(l)
  {
    && |frames| == |chunks|
    && (forall k | 0 <= k < |frames| :: frames[k].number == number + k + 1 && frames[k].channels == l.Channels())
    && DecodeAll(c, l, ds, frames).1 == Some(Concat(PiecesHeard(c, l, ss, chunks)))
  }

  lemma TransparentNext(c: Codec, l: Layout, ss: seq<Stream>, ds: seq<DecoderState>, chunks: seq<seq<real>>,
                        number: nat, frames: seq<AudioFrame>)
    requires |ss| == |ds| == Streams(l) && chunks != [] && forall j | 0 <= j < |chunks| :: |chunks[j]| == FrameLen(l)
    requires frames != [] && frames[0].number == number + 1 && frames[0].channels == l.Channels()
    requires var (ds1, out) := DecodeFrame(c, l, ds, frames[0].data);
             && out == Some(Mixed(l, PartsHeard(c, l, ss, chunks[0])))
             && Transparent(c, l, NextStreams(c, l, ss, chunks[0]), ds1, chunks[1..], number + 1, frames[1..])
    ensures Transparent(c, l, ss, ds, chunks, number, frames)
  {
    var heard := PiecesHeard(c, l, ss, chunks);
    assert heard[1..] == PiecesHeard(c, l, NextStreams(c, l, ss, chunks[0]), chunks[1..]);
    NumberedOn(frames, number, l.Channels());
  }

  lemma NumberedOn(frames: seq<AudioFrame>, number: nat, n: nat)
    requires frames != [] && frames[0].number == number + 1 && frames[0].channels == n
    requires forall k | 0 <= k < |frames[1..]| ::
               frames[1..][k].number == number + 1 + k + 1 && frames[1..][k].channels == n
    ensures forall k | 0 <= k < |frames| :: frames[k].number == number + k + 1 && frames[k].channels == n
  {
    forall k | 0 < k < |frames| ensures frames[k].number == number + k + 1 && frames[k].channels == n {
      assert frames[k] == frames[1..][k - 1];
    }
  }

  /** One call through encoder, network and decoder. */
  lemma {:induction false} CallIsTransparent(c: Codec, l: Layout, st: Encoder, ds: seq<DecoderState>)
    requires |st.encoders| == |ds| == Streams(l)
    requires AllCarried(c, l, Paired(st.encoders, ds), Chunks(FrameLen(l), st.buffer))
    ensures var (st', frames) := EncodeAll(c, l, st);
            && frames.Some? && st'.buffer == Leftover(FrameLen(l), st.buffer)
            && Transparent(c, l, Paired(st.encoders, ds), ds, Chunks(FrameLen(l), st.buffer), st.number, frames.value)
    decreases |st.buffer|
  {
    var size, chunks, ss := FrameLen(l), Chunks(FrameLen(l), st.buffer), Paired(st.encoders, ds);
    if |st.buffer| >= size {
      assert chunks[0] == st.buffer[..size] && chunks[1..] == Chunks(size, st.buffer[size..]);
      var next, data := NextPiece(c, l, st), EncodeChunk(c, l, st.encoders, chunks[0]).1;
      CarriedNext(c, l, ss, chunks);
      ChunkGoesThrough(c, l, st.encoders, ds, chunks[0]);
      var ds1 := DecodeFrame(c, l, ds, data.value).0;
      CallIsTransparent(c, l, next, ds1);
      EncodeNext(c, l, st);
      var frames := EncodeAll(c, l, st).1.value;
      TransparentNext(c, l, ss, ds, chunks, st.number, frames);
    }
  }

  lemma EncodeNext(c: Codec, l: Layout, st: Encoder)
    requires |st.encoders| == Streams(l) && |st.buffer| >= FrameLen(l)
    requires EncodeChunk(c, l, st.encoders, st.buffer[..FrameLen(l)]).1.Some?
    requires EncodeAll(c, l, NextPiece(c, l, st)).1.Some?
    ensures var (st', frames) := EncodeAll(c, l, st);
            && st' == EncodeAll(c, l, NextPiece(c, l, st)).0
            && frames.Some? && frames.value != []
            && frames.value[0].data == EncodeChunk(c, l, st.encoders, st.buffer[..FrameLen(l)]).1.value
            && frames.value[0].number == st.number + 1 && frames.value[0].channels == l.Channels()
            && frames.value[1..] == EncodeAll(c, l, NextPiece(c, l, st)).1.value
  {
  }

  function NewEncoder(c: Codec, l: Layout): (st: Encoder)
    ensures |st.encoders| == Streams(l)
  {
    Encoder(seq(Streams(l), _ => c.enc0), [], 0)
  }

  function NewDecoders(c: Codec, l: Layout): (ds: seq<DecoderState>)
    ensures |ds| == Streams(l)
  {
    seq(Streams(l), _ => c.dec0)
  }

  function NewStreams(c: Codec, l: Layout): (ss: seq<Stream>)
    ensures |ss| == Streams(l)
  {
    seq(Streams(l), _ => Stream(c.enc0, c.dec0))
  }

  /** The pieces that `encode` makes of the whole input. */
  function Pieces(l: Layout, calls: seq<seq<real>>): (cs: seq<seq<real>>)
    ensures forall k | 0 <= k < |cs| :: |cs[k]| == FrameLen(l)
  {
    Chunks(FrameLen(l), Concat(calls))
  }

  /** Framing is transparent for any stateful codec: however the input is split across `encode`
      calls, decoding the emitted frames gives each 20 ms piece as the streams do when each runs
      alone over its own packets; the frames are numbered 1, 2, 3, and so on. */
  lemma FramingIsTransparent(c: Codec, l: Layout, calls: seq<seq<real>>)
    requires AllCarried(c, l, NewStreams(c, l), Pieces(l, calls))
    ensures var (st, frames) := EncodeCalls(c, l, NewEncoder(c, l), calls);
            && frames.Some? && st.buffer == Leftover(FrameLen(l), Concat(calls))
            && Transparent(c, l, NewStreams(c, l), NewDecoders(c, l), Pieces(l, calls), 0, frames.value)
    ensures var ss, chunks := NewStreams(c, l), Pieces(l, calls);
            forall j | 0 <= j < |chunks| :: PiecesHeard(c, l, ss, chunks)[j] == PieceHeard(c, l, ss, chunks, j)
  {
    forall j | 0 <= j < |Pieces(l, calls)|
      ensures PiecesHeard(c, l, NewStreams(c, l), Pieces(l, calls))[j] ==
              PieceHeard(c, l, NewStreams(c, l), Pieces(l, calls), j)
    {
      PieceIs(c, l, NewStreams(c, l), Pieces(l, calls), j);
    }
    var st, ds := NewEncoder(c, l), NewDecoders(c, l);
    assert Paired(st.encoders, ds) == NewStreams(c, l);
    assert Fed(st, Concat(calls)).buffer == Concat(calls);
    CallsJoin(c, l, st, calls);
    CallIsTransparent(c, l, Fed(st, Concat(calls)), ds);
  }

  lemma MixedRestores(l: Layout, chunk: seq<real>, parts: seq<seq<real>>)
    requires |parts| == Streams(l) && |chunk| == FrameLen(l)
    requires forall k | 0 <= k < |parts| :: parts[k] == PacketOf(l, chunk, k)
    ensures Mixed(l, parts) == chunk
  {
    if l.Surround() { InterleaveUndoesPairs(chunk, l.Channels(), parts); }
  }

  /** The streams give back all their packets unchanged. */
  ghost predicate Exact(c: Codec, l: Layout, ss: seq<Stream>, chunks: seq<seq<real>>)
    requires |ss| == Streams(l) && forall j | 0 <= j < |chunks| :: |chunks[j]| == FrameLen(l)
  {
    forall k | 0 <= k < |ss| :: Alone(c, ss[k], StreamOf(l, chunks, k)) == StreamOf(l, chunks, k)
  }

  lemma ExactPieces(c: Codec, l: Layout, ss: seq<Stream>, chunks: seq<seq<real>>)
    requires |ss| == Streams(l) && forall j | 0 <= j < |chunks| :: |chunks[j]| == FrameLen(l)
    requires Exact(c, l, ss, chunks)
    ensures PiecesHeard(c, l, ss, chunks) == chunks
  {
    forall j | 0 <= j < |chunks| ensures PiecesHeard(c, l, ss, chunks)[j] == chunks[j] {
      var parts := PartsAt(c, l, ss, chunks, j);
      forall k | 0 <= k < |parts| ensures parts[k] == PacketOf(l, chunks[j], k) {
        assert Alone(c, ss[k], StreamOf(l, chunks, k)) == StreamOf(l, chunks, k);
      }
      MixedRestores(l, chunks[j], parts);
      PieceIs(c, l, ss, chunks, j);
    }
  }

  /** Mux round trip: when the streams give their packets back unchanged, decoding every
      emitted frame gives back the longest prefix of the input made of whole frames, and the
      encoder holds the rest. */
  lemma MuxRoundTrip(c: Codec, l: Layout, calls: seq<seq<real>>)
    requires AllCarried(c, l, NewStreams(c, l), Pieces(l, calls)) && Exact(c, l, NewStreams(c, l), Pieces(l, calls))
    ensures var (st, frames) := EncodeCalls(c, l, NewEncoder(c, l), calls);
            && frames.Some?
            && var out := DecodeAll(c, l, NewDecoders(c, l), frames.value).1;
               && out.Some? && out.value + st.buffer == Concat(calls)
               && |out.value| == FrameLen(l) * |frames.value| && |st.buffer| < FrameLen(l)
  {
    FramingIsTransparent(c, l, calls);
    CutsRejoin(FrameLen(l), Concat(calls));
    ExactPieces(c, l, NewStreams(c, l), Pieces(l, calls));
  }

  // ---- Writing in place ----

  /** Cell `i` once all of times before `s`, and the first `p` pairs of time `s`, are written. */
  function CellUpTo(pairs: seq<seq<real>>, n: nat, s: nat, p: nat, i: nat): real
    requires n > 0 && i < FRAME_SIZE * n && forall k | 0 <= k < |pairs| :: |pairs[k]| == 2 * FRAME_SIZE
  {
    TimeBound(n, i);
    if i / n < s || (i / n == s && i % n / 2 < p) then Woven(pairs, i / n, i % n) else 0.0
  }

  ghost predicate WrittenUpTo(out: seq<real>, pairs: seq<seq<real>>, n: nat, s: nat, p: nat)
    requires n > 0 && forall k | 0 <= k < |pairs| :: |pairs[k]| == 2 * FRAME_SIZE
  {
    |out| == FRAME_SIZE * n && forall i: nat | i < |out| :: out[i] == CellUpTo(pairs, n, s, p, i)
  }

  lemma NothingWritten(out: seq<real>, pairs: seq<seq<real>>, n: nat)
    requires n > 0 && |out| == FRAME_SIZE * n && forall k | 0 <= k < |pairs| :: |pairs[k]| == 2 * FRAME_SIZE
    requires forall i | 0 <= i < |out| :: out[i] == 0.0
    ensures WrittenUpTo(out, pairs, n, 0, 0)
  {
    forall i: nat | i < |out| ensures out[i] == CellUpTo(pairs, n, 0, 0, i) { SilentCell(pairs, n, i); }
  }

  lemma SilentCell(pairs: seq<seq<real>>, n: nat, i: nat)
    requires n > 0 && i < FRAME_SIZE * n && forall k | 0 <= k < |pairs| :: |pairs[k]| == 2 * FRAME_SIZE
    ensures CellUpTo(pairs, n, 0, 0, i) == 0.0
  {
    TimeBound(n, i);
    var s, ch: nat := i / n, i % n;
    assert ch / 2 >= 0;
  }

  lemma PairCells(n: nat, s: nat, p: nat, i: nat)
    requires s < FRAME_SIZE && 2 * p + 1 < n && i < FRAME_SIZE * n
    ensures (i / n == s && i % n / 2 == p) <==> (i == s * n + p * 2 || i == s * n + p * 2 + 1)
    ensures i == s * n + p * 2 ==> i % n == 2 * p
    ensures i == s * n + p * 2 + 1 ==> i % n == 2 * p + 1
  {
    TimeBound(n, i);
    ModUnique(s * n + p * 2, n, s, p * 2);
    ModUnique(s * n + p * 2 + 1, n, s, p * 2 + 1);
  }

  lemma WriteOnePair(out: seq<real>, pairs: seq<seq<real>>, n: nat, s: nat, p: nat)
    requires n > 0 && n % 2 == 0 && |pairs| <= n / 2 && s < FRAME_SIZE && p < |pairs|
    requires forall k | 0 <= k < |pairs| :: |pairs[k]| == 2 * FRAME_SIZE
    requires WrittenUpTo(out, pairs, n, s, p)
    ensures s * n + p * 2 + 1 < |out|
    ensures var dstL := s * n + p * 2;
            WrittenUpTo(out[dstL := pairs[p][s * 2]][dstL + 1 := pairs[p][s * 2 + 1]], pairs, n, s, p + 1)
  {
    var dstL := s * n + p * 2;
    IndexBound(n, s, p * 2 + 1);
    var out' := out[dstL := pairs[p][s * 2]][dstL + 1 := pairs[p][s * 2 + 1]];
    forall i: nat | i < |out'| ensures out'[i] == CellUpTo(pairs, n, s, p + 1, i) {
      PairCells(n, s, p, i);
      assert out[i] == CellUpTo(pairs, n, s, p, i);
    }
  }

  lemma TimeDone(out: seq<real>, pairs: seq<seq<real>>, n: nat, s: nat)
    requires n > 0 && s < FRAME_SIZE && forall k | 0 <= k < |pairs| :: |pairs[k]| == 2 * FRAME_SIZE
    requires WrittenUpTo(out, pairs, n, s, |pairs|)
    ensures WrittenUpTo(out, pairs, n, s + 1, 0)
  {
    forall i: nat | i < |out| ensures out[i] == CellUpTo(pairs, n, s + 1, 0, i) {
      assert out[i] == CellUpTo(pairs, n, s, |pairs|, i);
    }
  }

  lemma AllWritten(out: seq<real>, pairs: seq<seq<real>>, n: nat)
    requires n > 0 && forall k | 0 <= k < |pairs| :: |pairs[k]| == 2 * FRAME_SIZE
    requires WrittenUpTo(out, pairs, n, FRAME_SIZE, 0)
    ensures out == Interleave(pairs, n)
  {
    forall i: nat | i < |out| ensures out[i] == Interleave(pairs, n)[i] {
      TimeBound(n, i);
      assert out[i] == CellUpTo(pairs, n, FRAME_SIZE, 0, i);
    }
  }

  // ---- The encoder and the decoder ----

  class AudioEncoder {
    const codec: Codec
    const layout: Layout
    var encoders: seq<EncoderState>
    var sampleBuffer: seq<real>
    var number: nat

    ghost predicate Valid()
      reads this
    {
      |encoders| == Streams(layout)
    }

    ghost function State(): Encoder
      reads this
    {
      Encoder(encoders, sampleBuffer, number)
    }

    constructor (codec: Codec, layout: Layout)
      ensures Valid() && this.codec == codec && this.layout == layout && State() == NewEncoder(codec, layout)
    {
      var made: seq<EncoderState> := [];
      var remaining := layout.Channels();
      while remaining >= 2
        invariant 2 * |made| + remaining == layout.Channels()
        invariant forall k | 0 <= k < |made| :: made[k] == codec.enc0
      {
        made := made + [codec.enc0];
        remaining := remaining - 2;
      }
      if remaining == 1 {
        made := made + [codec.enc0];
      }
      this.codec, this.layout := codec, layout;
      encoders, sampleBuffer, number := made, [], 0;
    }

    /** The pairs of one chunk, each encoded behind its length; none when an encoder fails. */
    method Mux(chunk: seq<real>, n: nat) returns (r: Option<seq<byte>>)
      requires |chunk| == FRAME_SIZE * n && n == 2 * |encoders|
      modifies this`encoders
      ensures (encoders, r) == Muxed(codec, old(encoders), chunk, n, 0)
    {
      var combined: seq<byte> := [];
      ghost var whole := Muxed(codec, encoders, chunk, n, 0);
      BeforeNothing(whole.1);
      for pairIdx := 0 to |encoders|
        invariant n == 2 * |encoders| && |encoders| == |old(encoders)|
        invariant var (es, rest) := Muxed(codec, encoders, chunk, n, pairIdx);
                  (es, Before(combined, rest)) == whole
      {
        var pair := PairOf(chunk, n, pairIdx);
        var (e, buf) := codec.enc(encoders[pairIdx], pair);
        encoders := encoders[pairIdx := e];
        if buf.None? {
          return None;
        }
        ghost var before := combined;
        combined := combined + ToLe(|buf.value| % 0x1_0000, 2);
        combined := combined + buf.value;
        assert combined == before + Prefixed(buf.value);
        BeforeMore(before, Prefixed(buf.value), Muxed(codec, encoders, chunk, n, pairIdx + 1).1);
      }
      assert combined + [] == combined;
      return Some(combined);
    }

    /** The packet of one chunk. */
    method EncodePacket(chunk: seq<real>) returns (data: Option<seq<byte>>)
      requires Valid() && |chunk| == FrameLen(layout)
      modifies this`encoders
      ensures (encoders, data) == EncodeChunk(codec, layout, old(encoders), chunk)
    {
      if layout.Mono? || layout.Stereo? {
        var (e, packet) := codec.enc(encoders[0], chunk);
        encoders := encoders[0 := e];
        assert encoders == [e];
        return packet;
      }
      data := Mux(chunk, layout.Channels());
    }

    /** All frames of one call, or the codec's error. */
    method Encode(samples: seq<real>) returns (r: Option<seq<AudioFrame>>)
      requires Valid()
      modifies this
      ensures Valid() && (State(), r) == EncodeAll(codec, layout, Fed(old(State()), samples))
    {
      var frameSamples := FrameLen(layout);
      ghost var whole := EncodeAll(codec, layout, Fed(State(), samples));
      sampleBuffer := sampleBuffer + samples;
      var out: seq<AudioFrame> := [];
      BeforeNothing(whole.1);
      while |sampleBuffer| >= frameSamples
        invariant Valid()
        invariant var (st, rest) := EncodeAll(codec, layout, State());
                  (st, Before(out, rest)) == whole
        decreases |sampleBuffer|
      {
        var chunk := sampleBuffer[..frameSamples];
        sampleBuffer := sampleBuffer[frameSamples..];
        var data := EncodePacket(chunk);
        if data.None? {
          return None;
        }
        number := number + 1;
        var frame := AudioFrame(number, data.value, layout.Channels());
        BeforeMore(out, [frame], EncodeAll(codec, layout, State()).1);
        out := out + [frame];
      }
      assert out + [] == out;
      return Some(out);
    }
  }

  class AudioDecoder {
    const codec: Codec
    const layout: Layout
    var decoders: seq<DecoderState>

    ghost predicate Valid()
      reads this
    {
      |decoders| == Streams(layout)
    }

    constructor (codec: Codec, layout: Layout)
      ensures Valid() && this.codec == codec && this.layout == layout && decoders == NewDecoders(codec, layout)
    {
      var made: seq<DecoderState> := [];
      var remaining := layout.Channels();
      while remaining >= 2
        invariant 2 * |made| + remaining == layout.Channels()
        invariant forall k | 0 <= k < |made| :: made[k] == codec.dec0
      {
        made := made + [codec.dec0];
        remaining := remaining - 2;
      }
      if remaining == 1 {
        made := made + [codec.dec0];
      }
      this.codec, this.layout := codec, layout;
      decoders := made;
    }

    /** Split the data of a surround frame into its decoded pairs. */
    method SplitPairs(data: seq<byte>) returns (pairs: Option<seq<seq<real>>>)
      modifies this`decoders
      ensures (decoders, pairs) == Demux(codec, old(decoders), data, 0)
    {
      var decoded: seq<seq<real>> := [];
      var cur := 0;
      ghost var whole := Demux(codec, decoders, data, 0);
      assert data[0..] == data;
      BeforeNothing(whole.1);
      for k := 0 to |decoders|
        invariant 0 <= cur <= |data| && |decoders| == |old(decoders)|
        invariant var (ds, rest) := Demux(codec, decoders, data[cur..], k);
                  (ds, Before(decoded, rest)) == whole
      {
        if cur + 2 > |data| {
          break;
        }
        var len := FromLe(data[cur..cur + 2]);
        if cur + 2 + len > |data| {
          DemuxAt(codec, decoders, data, cur, k);
          return None;
        }
        var (d, pairOut) := DecodeInto(codec, decoders[k], data[cur + 2..cur + 2 + len], 2 * FRAME_SIZE);
        if pairOut.Some? {
          DemuxMore(codec, decoders, data, cur, k, decoded, len, d, pairOut.value);
        } else {
          DemuxAt(codec, decoders, data, cur, k);
        }
        decoders := decoders[k := d];
        if pairOut.None? {
          return None;
        }
        cur := cur + 2 + len;
        decoded := decoded + [pairOut.value];
      }
      assert decoded + [] == decoded;
      return Some(decoded);
    }

    /** Write both samples of pair `p` at time `s`. */
    static method WritePair(out: array<real>, pairs: seq<seq<real>>, n: nat, s: nat, p: nat)
      requires n > 0 && n % 2 == 0 && |pairs| <= n / 2 && s < FRAME_SIZE && p < |pairs|
      requires forall k | 0 <= k < |pairs| :: |pairs[k]| == 2 * FRAME_SIZE
      requires WrittenUpTo(out[..], pairs, n, s, p)
      modifies out
      ensures WrittenUpTo(out[..], pairs, n, s, p + 1)
    {
      ghost var before := out[..];
      WriteOnePair(before, pairs, n, s, p);
      var dstL := s * n + p * 2;
      out[dstL] := pairs[p][s * 2];
      out[dstL + 1] := pairs[p][s * 2 + 1];
      assert out[..] == before[dstL := pairs[p][s * 2]][dstL + 1 := pairs[p][s * 2 + 1]];
    }

    /** Write the pairs into channel order over a silent buffer. */
    method WritePairs(pairs: seq<seq<real>>, n: nat) returns (out: array<real>)
      requires n > 0 && n % 2 == 0 && |pairs| <= n / 2
      requires forall k | 0 <= k < |pairs| :: |pairs[k]| == 2 * FRAME_SIZE
      ensures fresh(out) && out[..] == Interleave(pairs, n)
    {
      out := new real[FRAME_SIZE * n](_ => 0.0);
      NothingWritten(out[..], pairs, n);
      for s := 0 to FRAME_SIZE
        invariant WrittenUpTo(out[..], pairs, n, s, 0)
      {
        for p := 0 to |pairs|
          invariant WrittenUpTo(out[..], pairs, n, s, p)
        {
          WritePair(out, pairs, n, s, p);
        }
        TimeDone(out[..], pairs, n, s);
      }
      AllWritten(out[..], pairs, n);
    }

    method Decode(data: seq<byte>) returns (r: Option<seq<real>>)
      requires Valid()
      modifies this`decoders
      ensures Valid() && (decoders, r) == DecodeFrame(codec, layout, old(decoders), data)
    {
      var n := layout.Channels();
      if layout.Mono? || layout.Stereo? {
        var (d, s) := codec.dec(decoders[0], data);
        decoders := decoders[0 := d];
        assert decoders == [d];
        if s.None? || |s.value| > FRAME_SIZE * n {
          return None;
        }
        return s;
      }
      var pairs := SplitPairs(data);
      if pairs.None? {
        return None;
      }
      var out := WritePairs(pairs.value, n);
      return Some(out[..]);
    }
  }
}
