/** Framing of the relay transport: a 4-byte length header in front of a payload
    that is encrypted once ciphers are installed. */
module RelayTransport {
  import opened Common
  import opened Bytes
  import opened Crypto

  const MAX_PLAINTEXT_BYTES: nat := 4 * 1024 * 1024 - 24
  const MAX_FRAME_BYTES: nat := 4 * 1024 * 1024 + 4

  datatype SendError = TooLarge | Cipher(error: Error) | ChannelClosed

  datatype Outcome = Nothing | Payload(plain: seq<byte>) | Oversized | Rejected(error: Error)

  /** `as u32` keeps the low 32 bits of the length. */
  function Frame(payload: seq<byte>): (f: seq<byte>)
    ensures |f| == |payload| + 4 && f[4..] == payload
  {
    ToLe(|payload| % 0x1_0000_0000, 4) + payload
  }

  /** What arrives for a frame under the receiving cipher; the header's value is
      not consulted. */
  function ReceiveWith(a: Aead, key: Key, recorded: set<nat>, frame: seq<byte>): (set<nat>, Outcome) {
    if |frame| < 4 then (recorded, Nothing)
    else if |frame| > MAX_FRAME_BYTES then (recorded, Oversized)
    else match DecryptWith(a, key, recorded, frame[4..])
         case (after, Ok(p)) => (after, Payload(p))
         case (after, Err(e)) => (after, Rejected(e))
  }

  function ReceivePlain(frame: seq<byte>): Outcome {
    if |frame| < 4 then Nothing
    else if |frame| > MAX_FRAME_BYTES then Oversized
    else Payload(frame[4..])
  }

  /** Every admitted message becomes a frame the peer's size limit lets through and
      that opens to the same bytes unless its number is stale; messages beyond the
      limit are exactly the ones whose frame the peer would refuse. */
  lemma AdmittedFramesFit(a: Aead, key: Key, n: nat, data: seq<byte>, recorded: set<nat>)
    requires Lawful(a) && n < U64 && EncryptAt(a, key, n, data).Ok?
    ensures var frame := Frame(EncryptAt(a, key, n, data).value);
            && (|data| <= MAX_PLAINTEXT_BYTES <==> |frame| <= MAX_FRAME_BYTES)
            && (|data| <= MAX_PLAINTEXT_BYTES ==>
                  ReceiveWith(a, key, recorded, frame) ==
                  if Accepts(recorded, n) then (recorded + {n}, Payload(data)) else (recorded, Rejected(Replay)))
  {
    SealedDecryptsIffAcceptable(a, key, n, data, recorded);
  }

  /** Up to the size limit, sealing succeeds for exactly the first 2^64 - 2 numbers. */
  lemma AdmittedSendsUnlessExhausted(a: Aead, key: Key, n: nat, data: seq<byte>)
    requires Lawful(a) && |data| <= MAX_PLAINTEXT_BYTES && n < U64
    ensures |data| <= 4_194_280
    ensures EncryptAt(a, key, n, data).Ok? <==> n < 18_446_744_073_709_551_614
  {
    SealsIff(a, key, n, data);
  }

  /** A frame is the payload's length in four bytes, lowest first, and the payload. */
  lemma FrameLayout(payload: seq<byte>, i: nat)
    requires |payload| < 0x1_0000_0000 && i < 4
    ensures |Frame(payload)| == 4 + |payload| && Frame(payload)[4..] == payload
    ensures Frame(payload)[i] == |payload| / Pow256(i) % 256
  {
    var header := ToLe(|payload|, 4);
    assert Frame(payload) == header + payload;
    LeByteAt(|payload|, 4, i);
    assert Frame(payload)[i] == header[i];
  }

  /** Without a cipher a payload of up to 4 MiB arrives as it was sent, a longer one is refused,
      and a piece of a header is skipped. */
  lemma PlainRoundTrip(data: seq<byte>)
    ensures ReceivePlain(Frame(data)) == if |data| <= 4_194_304 then Payload(data) else Oversized
    ensures |data| < 4 <==> ReceivePlain(data) == Nothing
  {
  }

  /** What a receiver does with a frame under a cipher: a piece of a header is skipped, more than
      4 MiB and 4 bytes is refused, and of anything else the header is dropped and the rest
      decrypted. */
  lemma ReceiveAnswers(a: Aead, key: Key, recorded: set<nat>, frame: seq<byte>)
    ensures var (after, r) := ReceiveWith(a, key, recorded, frame);
            if |frame| < 4 then r == Nothing && after == recorded
            else if |frame| > 4_194_308 then r == Oversized && after == recorded
            else
              var (after', d) := DecryptWith(a, key, recorded, frame[4..]);
              after == after' && r == if d.Ok? then Payload(d.value) else Rejected(d.error)
  {
  }

  /** With a cipher the limits of the two ends are 4 MiB less 24 bytes for a message and
      4 MiB and 4 bytes for a frame. */
  lemma Limits(a: Aead, key: Key, n: nat, data: seq<byte>, recorded: set<nat>)
    requires Lawful(a) && n < U64 && EncryptAt(a, key, n, data).Ok?
    ensures var frame := Frame(EncryptAt(a, key, n, data).value);
            && (ReceiveWith(a, key, recorded, frame).1 == Oversized <==> |data| > 4_194_280)
            && (|data| <= MAX_PLAINTEXT_BYTES <==> |data| <= 4_194_280)
  {
    SealedDecryptsIffAcceptable(a, key, n, data, recorded);
  }

  class Transport {
    var txCipher: SessionCipher?
    var rxCipher: SessionCipher?
    /** Frames handed to the socket writer, oldest first. */
    var outgoing: seq<seq<byte>>
    /** Frames the socket reader has queued, oldest first. */
    var incoming: seq<seq<byte>>

    ghost predicate Valid()
      reads this, txCipher, rxCipher, if txCipher == null then {} else {txCipher.replay},
            if rxCipher == null then {} else {rxCipher.replay}
    {
      && (txCipher != null ==> txCipher.Valid())
      && (rxCipher != null ==> rxCipher.Valid())
    }

    constructor ()
      ensures Valid() && txCipher == null && rxCipher == null && outgoing == [] && incoming == []
    {
      txCipher, rxCipher, outgoing, incoming := null, null, [], [];
    }

    method InstallCiphers(tx: SessionCipher, rx: SessionCipher)
      requires tx.Valid() && rx.Valid()
      modifies this`txCipher, this`rxCipher
      ensures Valid() && txCipher == tx && rxCipher == rx
    {
      txCipher, rxCipher := tx, rx;
    }

    /** Oversized data is refused before the cipher is asked, so it costs no number; a closed
        channel is noticed after, so it does. `open` says whether the socket writer still takes
        frames. */
    method Send(data: seq<byte>, open: bool) returns (e: Option<SendError>)
      requires Valid()
      modifies this`outgoing, if txCipher == null then {} else {txCipher}
      ensures Valid() && txCipher == old(txCipher)
      ensures e.Some? ==> outgoing == old(outgoing)
      ensures |data| > MAX_PLAINTEXT_BYTES ==> e == Some(TooLarge)
      ensures |data| <= MAX_PLAINTEXT_BYTES && txCipher == null ==>
                if open then e == None && outgoing == old(outgoing) + [Frame(data)] else e == Some(ChannelClosed)
      ensures txCipher != null ==>
                txCipher.sendNonce == if |data| <= MAX_PLAINTEXT_BYTES then NextCounter(old(txCipher.sendNonce))
                                      else old(txCipher.sendNonce)
      ensures |data| <= MAX_PLAINTEXT_BYTES && txCipher != null ==>
                match EncryptAt(txCipher.aead, txCipher.key, old(txCipher.sendNonce), data)
                case Ok(wire) =>
                  if open then e == None && outgoing == old(outgoing) + [Frame(wire)] else e == Some(ChannelClosed)
                case Err(why) => e == Some(Cipher(why))
    {
      if |data| > MAX_PLAINTEXT_BYTES {
        return Some(TooLarge);
      }
      var payload := data;
      if txCipher != null {
        var r := txCipher.Encrypt(data);
        if r.Err? {
          return Some(Cipher(r.error));
        }
        payload := r.value;
      }
      var frame := ToLe(|payload| % 0x1_0000_0000, 4);
      frame := frame + payload;
      if !open {
        return Some(ChannelClosed);
      }
      outgoing := outgoing + [frame];
      return None;
    }

    method Receive() returns (r: Outcome)
      requires Valid()
      modifies this`incoming, if rxCipher == null then {} else {rxCipher.replay}
      ensures Valid() && rxCipher == old(rxCipher)
      ensures old(incoming) == [] ==> r == Nothing && incoming == []
      ensures old(incoming) != [] ==> incoming == old(incoming)[1..]
      ensures old(incoming) != [] && rxCipher == null ==> r == ReceivePlain(old(incoming)[0])
      ensures old(incoming) != [] && rxCipher != null ==>
                (rxCipher.replay.recorded, r) ==
                ReceiveWith(rxCipher.aead, rxCipher.key, old(rxCipher.replay.recorded), old(incoming)[0])
    {
      if incoming == [] {
        return Nothing;
      }
      var frame := incoming[0];
      incoming := incoming[1..];
      if |frame| < 4 {
        return Nothing;
      }
      if |frame| > MAX_FRAME_BYTES {
        return Oversized;
      }
      var payload := frame[4..];
      if rxCipher == null {
        return Payload(payload);
      }
      var d := rxCipher.Decrypt(payload);
      match d {
        case Ok(p) => return Payload(p);
        case Err(e) => return Rejected(e);
      }
    }
  }
}
