/** The encrypted channel as a whole: two senders, two receivers, and a network that
    may drop, repeat, reorder and make up frames at will. */
module Channel {
  import opened Common
  import opened Bytes
  import opened Crypto
  import opened RelayTransport
  import H = Handshake

  datatype Direction = HostToViewer | ViewerToHost

  /** A message as the sender's `call`-th use of its cipher sealed it. */
  datatype Sent = Sent(call: nat, plain: seq<byte>)

  datatype Delivered = Delivered(number: nat, plain: seq<byte>)

  /** `calls` counts uses of the send cipher, refused ones included. */
  datatype Lane = Lane(calls: nat, sent: seq<Sent>, recorded: set<nat>, delivered: seq<Delivered>)

  datatype Session = Session(aead: Aead, h2vKey: Key, v2hKey: Key) {
    function KeyOf(d: Direction): Key {
      if d == HostToViewer then h2vKey else v2hKey
    }
  }

  datatype State = State(h2v: Lane, v2h: Lane) {
    function At(d: Direction): Lane {
      if d == HostToViewer then h2v else v2h
    }
    function With(d: Direction, l: Lane): State {
      if d == HostToViewer then this.(h2v := l) else this.(v2h := l)
    }
  }

  /** Someone sends `data`, or any frame at all reaches a receiver. The network needs
      no state: losing a frame is never letting it arrive. */
  datatype Event = Send(dir: Direction, data: seq<byte>) | Arrive(dir: Direction, frame: seq<byte>)

  const Idle: Lane := Lane(0, [], {}, [])

  function SendOn(s: Session, key: Key, l: Lane, data: seq<byte>): Lane {
    if |data| > MAX_PLAINTEXT_BYTES then l
    else
      var l' := l.(calls := l.calls + 1);
      if EncryptAt(s.aead, key, SeqOfCall(l.calls), data).Ok?
      then l'.(sent := l.sent + [Sent(l.calls, data)]) else l'
  }

  function ArriveOn(s: Session, key: Key, l: Lane, frame: seq<byte>): Lane {
    match ReceiveWith(s.aead, key, l.recorded, frame)
    case (after, Payload(p)) =>
      l.(recorded := after, delivered := l.delivered + [Delivered(SeqOf(frame[4..]), p)])
    case (after, _) => l.(recorded := after)
  }

  function Step(s: Session, st: State, e: Event): State {
    match e
    case Send(d, data) => st.With(d, SendOn(s, s.KeyOf(d), st.At(d), data))
    case Arrive(d, frame) => st.With(d, ArriveOn(s, s.KeyOf(d), st.At(d), frame))
  }

  function Run(s: Session, run: seq<Event>): State {
    if run == [] then State(Idle, Idle)
    else Step(s, Run(s, run[..|run| - 1]), run[|run| - 1])
  }

  /** Something was sealed under `key` with this number and text. */
  ghost predicate Sealed(s: Session, st: State, key: Key, number: nat, plain: seq<byte>) {
    exists d: Direction, i: nat ::
      s.KeyOf(d) == key && i < |st.At(d).sent| && SeqOfCall(st.At(d).sent[i].call) == number
      && st.At(d).sent[i].plain == plain
  }

  /** Ideal authenticated encryption: bytes open under a session key only if that text
      was sealed under that key and number before. */
  ghost predicate Unforged(s: Session, st: State, e: Event) {
    e.Arrive? && |e.frame| >= 4 + MIN_CIPHERTEXT_LEN ==>
      var data := e.frame[4..];
      var p := s.aead.open(s.KeyOf(e.dir), NonceFromU64(SeqOf(data)), data[8..]);
      p.Some? ==> Sealed(s, st, s.KeyOf(e.dir), SeqOf(data), p.value)
  }

  ghost predicate IdealRun(s: Session, run: seq<Event>) {
    run != [] ==>
      && IdealRun(s, run[..|run| - 1])
      && Unforged(s, Run(s, run[..|run| - 1]), run[|run| - 1])
  }

  /** What every step keeps about the sender of one direction, whatever the network does. */
  ghost predicate SenderInv(l: Lane) {
    && (forall i | 0 <= i < |l.sent| :: l.sent[i].call < l.calls)
    && (forall i, j | 0 <= i < j < |l.sent| :: l.sent[i].call < l.sent[j].call)
    && (forall i | 0 <= i < |l.sent| :: !Exhausted(SeqOfCall(l.sent[i].call)))
  }

  lemma SendKeepsSender(s: Session, key: Key, l: Lane, data: seq<byte>)
    requires SenderInv(l)
    ensures SenderInv(SendOn(s, key, l, data))
  {
  }

  lemma {:induction false} RunKeepsSenders(s: Session, run: seq<Event>, d: Direction)
    ensures SenderInv(Run(s, run).At(d))
  {
    if run != [] {
      var before, last := run[..|run| - 1], run[|run| - 1];
      RunKeepsSenders(s, before, d);
      if last.Send? && last.dir == d { SendKeepsSender(s, s.KeyOf(d), Run(s, before).At(d), last.data); }
    }
  }

  /** What every step keeps about the receiver of one direction. */
  ghost predicate LaneInv(l: Lane) {
    && (forall i | 0 <= i < |l.delivered| :: l.delivered[i].number in l.recorded)
    && (forall i, j | 0 <= i < j < |l.delivered| :: l.delivered[i].number != l.delivered[j].number)
    && (forall i | 0 <= i < |l.delivered| :: HasSource(l, i))
  }

  ghost predicate HasSource(l: Lane, i: int) {
    exists j: nat | j < |l.sent| :: Carries(l, i, j)
  }

  /** Delivery `i` is the text of sent message `j`. */
  ghost predicate Carries(l: Lane, i: int, j: int) {
    && 0 <= i < |l.delivered| && 0 <= j < |l.sent|
    && l.delivered[i].plain == l.sent[j].plain
    && l.delivered[i].number == SeqOfCall(l.sent[j].call)
  }

  lemma SendKeepsLane(s: Session, key: Key, l: Lane, data: seq<byte>)
    requires LaneInv(l)
    ensures LaneInv(SendOn(s, key, l, data))
  {
    var l' := SendOn(s, key, l, data);
    forall i | 0 <= i < |l'.delivered|
      ensures HasSource(l', i)
    {
      assert HasSource(l, i);
      var j: nat :| j < |l.sent| && Carries(l, i, j);
      assert Carries(l', i, j);
    }
  }

  lemma ArriveKeepsLane(s: Session, d: Direction, st: State, frame: seq<byte>)
    requires s.h2vKey != s.v2hKey
    requires LaneInv(st.At(d)) && Unforged(s, st, Arrive(d, frame))
    ensures LaneInv(ArriveOn(s, s.KeyOf(d), st.At(d), frame))
  {
    var l := st.At(d);
    var l' := ArriveOn(s, s.KeyOf(d), l, frame);
    forall i | 0 <= i < |l'.delivered|
      ensures HasSource(l', i)
    {
      if i < |l.delivered| {
        assert HasSource(l, i);
        var j: nat :| j < |l.sent| && Carries(l, i, j);
        assert Carries(l', i, j);
      } else {
        var data := frame[4..];
        var p := s.aead.open(s.KeyOf(d), NonceFromU64(SeqOf(data)), data[8..]).value;
        assert Sealed(s, st, s.KeyOf(d), SeqOf(data), p);
        var d', j: nat :| s.KeyOf(d') == s.KeyOf(d) && j < |st.At(d').sent|
          && SeqOfCall(st.At(d').sent[j].call) == SeqOf(data) && st.At(d').sent[j].plain == p;
        assert d' == d;
        assert Carries(l', i, j);
      }
    }
  }

  lemma {:induction false} RunKeepsLanes(s: Session, run: seq<Event>)
    requires s.h2vKey != s.v2hKey && IdealRun(s, run)
    ensures LaneInv(Run(s, run).h2v) && LaneInv(Run(s, run).v2h)
  {
    if run != [] {
      var before := run[..|run| - 1];
      RunKeepsLanes(s, before);
      match run[|run| - 1]
      case Send(d, data) => SendKeepsLane(s, s.KeyOf(d), Run(s, before).At(d), data);
      case Arrive(d, frame) => ArriveKeepsLane(s, d, Run(s, before), frame);
    }
  }

  /** `source` names, for each delivery, the sent message it came from, no message twice. */
  ghost predicate OneToOne(l: Lane, source: seq<nat>) {
    && |source| == |l.delivered|
    && (forall i | 0 <= i < |source| :: source[i] < |l.sent| && l.delivered[i].plain == l.sent[source[i]].plain)
    && (forall i, j | 0 <= i < j < |source| :: source[i] != source[j])
  }

  /** Channel safety over whole runs: whatever the network does, each direction's
      deliveries map one-to-one into what the peer sent in that same direction. */
  lemma DeliveriesMatchSends(s: Session, run: seq<Event>, d: Direction)
    requires s.h2vKey != s.v2hKey && IdealRun(s, run)
    ensures exists source :: OneToOne(Run(s, run).At(d), source)
  {
    RunKeepsLanes(s, run);
    var l := Run(s, run).At(d);
    var source := seq(|l.delivered|, (i: int) requires 0 <= i < |l.delivered| && LaneInv(l) =>
      (assert HasSource(l, i); var j: nat :| j < |l.sent| && Carries(l, i, j); j));
    assert forall i | 0 <= i < |source| :: Carries(l, i, source[i]);
    assert OneToOne(l, source);
  }

  /** Within 2^64 uses of a cipher, no two sealed messages of a direction share a nonce,
      whatever arrives and whichever keys are in use. */
  lemma SentNoncesDistinct(s: Session, run: seq<Event>, d: Direction, i: nat, j: nat)
    requires Run(s, run).At(d).calls <= U64
    requires i < j < |Run(s, run).At(d).sent|
    ensures var sent := Run(s, run).At(d).sent;
            NonceFromU64(SeqOfCall(sent[i].call)) != NonceFromU64(SeqOfCall(sent[j].call))
  {
    RunKeepsSenders(s, run, d);
    var l := Run(s, run).At(d);
    NoncesDistinctIff(l.calls);
    NonceInjective(SeqOfCall(l.sent[i].call), SeqOfCall(l.sent[j].call));
  }

  // ---- What the transport does is a step of the channel ----

  function Opposite(d: Direction): Direction {
    if d == HostToViewer then ViewerToHost else HostToViewer
  }

  /** The transport at the sending end of `d`: its counter and its replay window are where the
      two directions stand. */
  ghost predicate Follows(t: Transport, s: Session, d: Direction, st: State)
    reads t, t.txCipher, t.rxCipher, if t.txCipher == null then {} else {t.txCipher.replay},
          if t.rxCipher == null then {} else {t.rxCipher.replay}
  {
    && t.Valid() && t.txCipher != null && t.rxCipher != null
    && t.txCipher.aead == t.rxCipher.aead == s.aead
    && t.txCipher.key == s.KeyOf(d) && t.rxCipher.key == s.KeyOf(Opposite(d))
    && t.txCipher.sendNonce == SeqOfCall(st.At(d).calls)
    && t.rxCipher.replay.recorded == st.At(Opposite(d)).recorded
  }

  /** With fresh ciphers it stands at the beginning. */
  method Connect(s: Session, d: Direction) returns (t: Transport)
    ensures fresh(t) && Follows(t, s, d, State(Idle, Idle)) && t.outgoing == [] && t.incoming == []
  {
    t := new Transport();
    var tx := new SessionCipher(s.aead, s.KeyOf(d));
    var rx := new SessionCipher(s.aead, s.KeyOf(Opposite(d)));
    t.InstallCiphers(tx, rx);
  }

  /** Sending is the step `Send`: the message joins the sent ones unless its size or the cipher
      refuses it, and what goes out is exactly its frame. While the channel is open, each of the
      first 2^64 - 2 messages of admitted size goes out. */
  method SendStep(t: Transport, s: Session, d: Direction, data: seq<byte>, open: bool, ghost st: State)
    returns (e: Option<SendError>)
    requires Follows(t, s, d, st)
    modifies t`outgoing, t.txCipher
    ensures Follows(t, s, d, Step(s, st, Send(d, data)))
    ensures var sent, sent' := st.At(d).sent, Step(s, st, Send(d, data)).At(d).sent;
            && (e == None || e == Some(ChannelClosed) <==> |sent'| == |sent| + 1)
            && t.outgoing == old(t.outgoing) + if e == None then [WireFrame(s, d, sent'[|sent|])] else []
    ensures Lawful(s.aead) && |data| <= 4_194_280 && open && st.At(d).calls < 18_446_744_073_709_551_614 ==> e == None
  {
    CounterAfter(st.At(d).calls);
    if Lawful(s.aead) && |data| <= 4_194_280 && st.At(d).calls < 18_446_744_073_709_551_614 {
      SmallNumber(st.At(d).calls);
      SealsIff(s.aead, s.KeyOf(d), st.At(d).calls, data);
    }
    e := t.Send(data, open);
  }

  /** Receiving is the step `Arrive` of the oldest queued frame, and hands out exactly what that
      delivers. */
  method ReceiveStep(t: Transport, s: Session, d: Direction, ghost st: State) returns (r: Outcome)
    requires Follows(t, s, d, st) && t.incoming != []
    modifies t`incoming, t.rxCipher.replay
    ensures t.incoming == old(t.incoming)[1..]
    ensures Follows(t, s, d, Step(s, st, Arrive(Opposite(d), old(t.incoming)[0])))
    ensures var got := st.At(Opposite(d)).delivered;
            var got' := Step(s, st, Arrive(Opposite(d), old(t.incoming)[0])).At(Opposite(d)).delivered;
            if r.Payload? then |got'| == |got| + 1 && got'[|got|].plain == r.plain else got' == got
  {
    r := t.Receive();
  }

  // ---- From handshake to channel ----

  /** The keys of both ends after a handshake whose two messages arrive as sent. */
  function HostKeys(c: H.Suite, vEph: H.Secret, vId: H.Secret, hEph: H.Secret, hId: H.Secret, sessionId: seq<byte>)
    : H.HandshakeResult<H.Keys>
  {
    match H.HostRespond(c, hEph, hId, sessionId, H.ViewerHello(c, vEph, vId), true)
    case Done(r) => H.Done(r.1)
    case Failed(why) => H.Failed(why)
  }

  function ViewerKeys(c: H.Suite, vEph: H.Secret, vId: H.Secret, hEph: H.Secret, hId: H.Secret, sessionId: seq<byte>)
    : H.HandshakeResult<H.Keys>
  {
    match H.HostRespond(c, hEph, hId, sessionId, H.ViewerHello(c, vEph, vId), true)
    case Done(r) => H.ViewerFinish(c, vEph, r.0)
    case Failed(why) => H.Failed(why)
  }

  /** From handshake to deliveries: an honest handshake gives both ends the keys of one session,
      and in that session deliveries map one-to-one into the peer's sends of that direction. */
  lemma HandshakenChannelIsSafe(c: H.Suite, a: Aead, vEph: H.Secret, vId: H.Secret, hEph: H.Secret, hId: H.Secret,
                                sessionId: seq<byte>, run: seq<Event>, d: Direction)
    requires H.Lawful(c)
    ensures var host := HostKeys(c, vEph, vId, hEph, hId, sessionId);
            var viewer := ViewerKeys(c, vEph, vId, hEph, hId, sessionId);
            && host.Done? && viewer.Done?
            && var s := Session(a, host.value.tx, viewer.value.tx);
               && host.value.rx == s.v2hKey && viewer.value.rx == s.h2vKey
               && (IdealRun(s, run) ==> exists source :: OneToOne(Run(s, run).At(d), source))
  {
    H.HonestRunAgrees(c, vEph, vId, hEph, hId, sessionId);
    var host := HostKeys(c, vEph, vId, hEph, hId, sessionId).value;
    var viewer := ViewerKeys(c, vEph, vId, hEph, hId, sessionId).value;
    var s := Session(a, host.tx, viewer.tx);
    if IdealRun(s, run) { DeliveriesMatchSends(s, run, d); }
  }

  /** The frame a sent message put on the wire. */
  function WireFrame(s: Session, d: Direction, m: Sent): seq<byte> {
    match EncryptAt(s.aead, s.KeyOf(d), SeqOfCall(m.call), m.plain)
    case Ok(wire) => Frame(wire)
    case Err(_) => []
  }

  lemma {:induction false} SentWereSealed(s: Session, run: seq<Event>, d: Direction, j: nat)
    requires j < |Run(s, run).At(d).sent|
    ensures var m := Run(s, run).At(d).sent[j];
            |m.plain| <= MAX_PLAINTEXT_BYTES && EncryptAt(s.aead, s.KeyOf(d), SeqOfCall(m.call), m.plain).Ok?
  {
    var before := run[..|run| - 1];
    if j < |Run(s, before).At(d).sent| { SentWereSealed(s, before, d, j); }
  }

  /** At any point of any run, a sent message's own frame delivers it exactly when its
      number is not recorded and less than 128 below the highest recorded one; forged
      frames that carry its number therefore cost its delivery, and nothing else does. */
  lemma GenuineFrameDelivers(s: Session, run: seq<Event>, d: Direction, j: nat)
    requires Lawful(s.aead) && j < |Run(s, run).At(d).sent|
    ensures var l := Run(s, run).At(d);
            var l' := Step(s, Run(s, run), Arrive(d, WireFrame(s, d, l.sent[j]))).At(d);
            var n := SeqOfCall(l.sent[j].call);
            l' == if Accepts(l.recorded, n)
                  then l.(recorded := l.recorded + {n}, delivered := l.delivered + [Delivered(n, l.sent[j].plain)])
                  else l
  {
    SentWereSealed(s, run, d, j);
    var l := Run(s, run).At(d);
    var m := l.sent[j];
    var n := SeqOfCall(m.call);
    AdmittedFramesFit(s.aead, s.KeyOf(d), n, m.plain, l.recorded);
    SealedDecryptsIffAcceptable(s.aead, s.KeyOf(d), n, m.plain, l.recorded);
  }

  /** Any frame long enough to carry a number uses that number up when it is fresh,
      whether or not it opens. */
  lemma ForgeryUsesNumber(s: Session, st: State, d: Direction, frame: seq<byte>)
    requires 4 + MIN_CIPHERTEXT_LEN <= |frame| <= MAX_FRAME_BYTES
    ensures var l, l' := st.At(d), Step(s, st, Arrive(d, frame)).At(d);
            var n := SeqOf(frame[4..]);
            && (Accepts(l.recorded, n) ==> l'.recorded == l.recorded + {n})
            && !Accepts(l'.recorded, n)
            && (|l'.delivered| > |l.delivered| <==>
                  Accepts(l.recorded, n)
                  && s.aead.open(s.KeyOf(d), NonceFromU64(n), frame[4..][8..]).Some?)
  {
  }

  // ---- What gets through ----

  /** The messages of at most 4 MiB less 24 bytes handed to the sender of a direction. */
  function Offered(run: seq<Event>, d: Direction): seq<seq<byte>> {
    if run == [] then []
    else
      var last := run[|run| - 1];
      Offered(run[..|run| - 1], d)
      + if last.Send? && last.dir == d && |last.data| <= 4_194_280 then [last.data] else []
  }

  function InOrder(msgs: seq<seq<byte>>): (sent: seq<Sent>)
    ensures |sent| == |msgs| && forall i | 0 <= i < |msgs| :: sent[i] == Sent(i, msgs[i])
  {
    seq(|msgs|, i requires 0 <= i < |msgs| => Sent(i, msgs[i]))
  }

  lemma OfferedSent(s: Session, l: Lane, d: Direction, msgs: seq<seq<byte>>, data: seq<byte>)
    requires Lawful(s.aead) && l.calls == |msgs| && |data| <= 4_194_280 && |l.sent| <= |msgs|
    requires |msgs| <= 18_446_744_073_709_551_614 ==> l.sent == InOrder(msgs)
    requires |msgs| > 18_446_744_073_709_551_614 ==> |l.sent| < |msgs|
    ensures var l', msgs' := SendOn(s, s.KeyOf(d), l, data), msgs + [data];
            && l'.calls == |msgs'| && |l'.sent| <= |msgs'|
            && (|msgs'| <= 18_446_744_073_709_551_614 ==> l'.sent == InOrder(msgs'))
            && (|msgs'| > 18_446_744_073_709_551_614 ==> |l'.sent| < |msgs'|)
  {
    var n := |msgs|;
    SealsIff(s.aead, s.KeyOf(d), SeqOfCall(n), data);
    if n < 18_446_744_073_709_551_614 {
      SmallNumber(n);
      assert InOrder(msgs + [data]) == InOrder(msgs) + [Sent(n, data)];
    }
  }

  lemma {:induction false} SentSoFar(s: Session, run: seq<Event>, d: Direction)
    requires Lawful(s.aead)
    ensures var l, msgs := Run(s, run).At(d), Offered(run, d);
            && l.calls == |msgs| && |l.sent| <= |msgs|
            && (|msgs| <= 18_446_744_073_709_551_614 ==> l.sent == InOrder(msgs))
            && (|msgs| > 18_446_744_073_709_551_614 ==> |l.sent| < |msgs|)
  {
    if run != [] {
      var before, last := run[..|run| - 1], run[|run| - 1];
      SentSoFar(s, before, d);
      if last.Send? && last.dir == d && |last.data| <= 4_194_280 {
        OfferedSent(s, Run(s, before).At(d), d, Offered(before, d), last.data);
      }
    }
  }

  /** Sending works: in any run, whatever arrives, every message of up to 4 MiB less 24 bytes
      that was handed over is sealed, in order, exactly as long as there are at most 2^64 - 2
      of them. */
  lemma AllSealedIff(s: Session, run: seq<Event>, d: Direction)
    requires Lawful(s.aead)
    ensures Run(s, run).At(d).sent == InOrder(Offered(run, d)) <==>
            |Offered(run, d)| <= 18_446_744_073_709_551_614
  {
    SentSoFar(s, run, d);
  }

  function Below(n: nat): (ns: set<nat>)
    ensures forall i: nat :: i in ns <==> i < n
  {
    if n == 0 then {} else Below(n - 1) + {n - 1}
  }

  /** A message is sent, and its frame arrives. */
  function Exchange(s: Session, d: Direction, k: nat, data: seq<byte>): seq<Event> {
    [Send(d, data), Arrive(d, WireFrame(s, d, Sent(k, data)))]
  }

  function Conversation(s: Session, d: Direction, msgs: seq<seq<byte>>): seq<Event> {
    if msgs == [] then []
    else
      var n := |msgs| - 1;
      Conversation(s, d, msgs[..n]) + Exchange(s, d, n, msgs[n])
  }

  function Received(msgs: seq<seq<byte>>): (got: seq<Delivered>)
    ensures |got| == |msgs| && forall i | 0 <= i < |msgs| :: got[i] == Delivered(i, msgs[i])
  {
    seq(|msgs|, i requires 0 <= i < |msgs| => Delivered(i, msgs[i]))
  }

  lemma OneSent(s: Session, d: Direction, l: Lane, msgs: seq<seq<byte>>, data: seq<byte>)
    requires Lawful(s.aead) && |data| <= 4_194_280 && |msgs| < 18_446_744_073_709_551_614
    requires l.calls == |msgs| && l.sent == InOrder(msgs)
    ensures SendOn(s, s.KeyOf(d), l, data) == l.(calls := |msgs| + 1, sent := InOrder(msgs + [data]))
  {
    SmallNumber(|msgs|);
    SealsIff(s.aead, s.KeyOf(d), |msgs|, data);
    assert InOrder(msgs + [data]) == InOrder(msgs) + [Sent(|msgs|, data)];
  }

  lemma FrameArrives(a: Aead, key: Key, n: nat, data: seq<byte>, recorded: set<nat>)
    requires Lawful(a) && |data| <= 4_194_280 && n < 18_446_744_073_709_551_614 && Accepts(recorded, n)
    ensures EncryptAt(a, key, n, data).Ok?
    ensures var frame := Frame(EncryptAt(a, key, n, data).value);
            |frame| >= 12 && SeqOf(frame[4..]) == n
            && ReceiveWith(a, key, recorded, frame) == (recorded + {n}, Payload(data))
  {
    SealsIff(a, key, n, data);
    AdmittedFramesFit(a, key, n, data, recorded);
    SealedDecryptsIffAcceptable(a, key, n, data, recorded);
  }

  lemma FrameOfNumber(s: Session, d: Direction, n: nat, data: seq<byte>)
    requires EncryptAt(s.aead, s.KeyOf(d), n, data).Ok? && n < 18_446_744_073_709_551_616
    ensures WireFrame(s, d, Sent(n, data)) == Frame(EncryptAt(s.aead, s.KeyOf(d), n, data).value)
  {
    SmallNumber(n);
  }

  lemma OneReceived(s: Session, key: Key, l: Lane, msgs: seq<seq<byte>>, data: seq<byte>, frame: seq<byte>)
    requires l.recorded == Below(|msgs|) && l.delivered == Received(msgs)
    requires |frame| >= 12 && SeqOf(frame[4..]) == |msgs|
    requires ReceiveWith(s.aead, key, l.recorded, frame) == (l.recorded + {|msgs|}, Payload(data))
    ensures ArriveOn(s, key, l, frame) == l.(recorded := Below(|msgs| + 1), delivered := Received(msgs + [data]))
  {
    assert l.recorded + {|msgs|} == Below(|msgs| + 1);
    assert Received(msgs + [data]) == Received(msgs) + [Delivered(|msgs|, data)];
  }

  lemma OneExchange(s: Session, d: Direction, st: State, msgs: seq<seq<byte>>, data: seq<byte>)
    requires Lawful(s.aead) && |data| <= 4_194_280 && |msgs| < 18_446_744_073_709_551_614
    requires st.At(d) == Lane(|msgs|, InOrder(msgs), Below(|msgs|), Received(msgs))
    ensures var n, all := |msgs|, msgs + [data];
            var st' := Step(s, Step(s, st, Send(d, data)), Arrive(d, WireFrame(s, d, Sent(n, data))));
            st'.At(d) == Lane(n + 1, InOrder(all), Below(n + 1), Received(all))
  {
    var l := SendOn(s, s.KeyOf(d), st.At(d), data);
    var frame := WireFrame(s, d, Sent(|msgs|, data));
    OneSent(s, d, st.At(d), msgs, data);
    FrameArrives(s.aead, s.KeyOf(d), |msgs|, data, l.recorded);
    FrameOfNumber(s, d, |msgs|, data);
    OneReceived(s, s.KeyOf(d), l, msgs, data, frame);
  }

  lemma TwoMore(s: Session, run: seq<Event>, e1: Event, e2: Event)
    ensures Run(s, run + [e1, e2]) == Step(s, Step(s, Run(s, run), e1), e2)
  {
    assert (run + [e1, e2])[..|run| + 1] == run + [e1] && (run + [e1])[..|run|] == run;
  }

  /** Communication works: over a network that passes every frame on at once, the receiver gets
      exactly the messages sent, in order, for up to 2^64 - 2 messages of admitted size. */
  lemma {:induction false} ConversationDelivers(s: Session, d: Direction, msgs: seq<seq<byte>>)
    requires Lawful(s.aead) && |msgs| <= 18_446_744_073_709_551_614
    requires forall i | 0 <= i < |msgs| :: |msgs[i]| <= 4_194_280
    ensures Run(s, Conversation(s, d, msgs)).At(d) ==
            Lane(|msgs|, InOrder(msgs), Below(|msgs|), Received(msgs))
    decreases |msgs|
  {
    if msgs != [] {
      var n := |msgs| - 1;
      var before := msgs[..n];
      ConversationDelivers(s, d, before);
      OneExchange(s, d, Run(s, Conversation(s, d, before)), before, msgs[n]);
      assert before + [msgs[n]] == msgs;
      var frame := WireFrame(s, d, Sent(n, msgs[n]));
      TwoMore(s, Conversation(s, d, before), Send(d, msgs[n]), Arrive(d, frame));
    }
  }

  /** Reordering: at any point of any run a sent message's frame is delivered exactly when its
      number is not recorded and no recorded number is 128 or more above it. */
  lemma DelayedFrameDeliversIff(s: Session, run: seq<Event>, d: Direction, j: nat)
    requires Lawful(s.aead) && j < |Run(s, run).At(d).sent|
    ensures var l := Run(s, run).At(d);
            var l' := Step(s, Run(s, run), Arrive(d, WireFrame(s, d, l.sent[j]))).At(d);
            var n := l.sent[j].call % 18_446_744_073_709_551_616;
            |l'.delivered| == |l.delivered| + 1 <==> n !in l.recorded && forall m <- l.recorded :: m < n + 128
  {
    GenuineFrameDelivers(s, run, d, j);
  }
}
