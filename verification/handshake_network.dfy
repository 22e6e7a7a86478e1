/** Many handshakes of many identities over a network that delivers, changes, repeats and makes
    up messages at will, and that holds identities of its own. */
module HandshakeNetwork {
  import opened Bytes
  import opened Handshake

  // ---- Ideal primitives ----

  /** A shared secret made with someone's ephemeral key can be had only with one of the two
      ephemeral secrets and the other's public key. */
  ghost predicate IdealExchange(c: Suite) {
    && (forall a, b :: c.pub(a) == c.pub(b) ==> a == b)
    && (forall x, p, a, b {:trigger c.dh(x, p), c.dh(a, c.pub(b))} ::
          c.dh(x, p) == c.dh(a, c.pub(b)) ==> (x == a && p == c.pub(b)) || (x == b && p == c.pub(a)))
  }

  ghost predicate IdealExpansion(c: Suite) {
    forall k, s, l, k', s', l' {:trigger c.hkdf(k, s, l), c.hkdf(k', s', l')} ::
      c.hkdf(k, s, l) == c.hkdf(k', s', l') ==> k == k' && s == s' && l == l'
  }

  ghost predicate Ideal(c: Suite) {
    Lawful(c) && IdealExchange(c) && IdealExpansion(c)
  }

  /** A nat as bytes that no other nat's bytes begin with. */
  function Unary(n: nat): (s: seq<byte>)
    ensures |s| == n + 1
  {
    if n == 0 then [1] else [0] + Unary(n - 1)
  }

  lemma {:induction false} UnaryPrefix(m: nat, x: seq<byte>, n: nat, y: seq<byte>)
    requires Unary(m) + x == Unary(n) + y
    ensures m == n && x == y
  {
    var l, r := Unary(m) + x, Unary(n) + y;
    assert l[0] == (if m == 0 then 1 else 0) && r[0] == (if n == 0 then 1 else 0);
    assert l[1..] == (if m == 0 then x else Unary(m - 1) + x);
    assert r[1..] == (if n == 0 then y else Unary(n - 1) + y);
    if m > 0 { UnaryPrefix(m - 1, x, n - 1, y); }
  }

  /** An exchange that spells out both secrets, the smaller first; what is no public key gives
      something else. */
  function Exchanged(x: Secret, p: Public): seq<byte> {
    if p != [] && p == Unary(|p| - 1) then
      var y := |p| - 1;
      if x <= y then Unary(x) + Unary(y) else Unary(y) + Unary(x)
    else []
  }

  function Expanded(k: seq<byte>, salt: seq<byte>, info: string): seq<byte> {
    Unary(|k|) + (k + (Unary(|salt|) + (salt + Spelled(info))))
  }

  lemma ExchangedIdeal(x: Secret, p: Public, a: Secret, b: Secret)
    requires Exchanged(x, p) == Exchanged(a, Unary(b))
    ensures (x == a && p == Unary(b)) || (x == b && p == Unary(a))
  {
    var y, u, v := |p| - 1, if a <= b then a else b, if a <= b then b else a;
    var s, t := if x <= y then x else y, if x <= y then y else x;
    assert p == Unary(y);
    UnaryPrefix(s, Unary(t), u, Unary(v));
    UnaryPrefix(t, [], v, []) by { assert Unary(t) + [] == Unary(v) + []; }
  }

  lemma ExpandedIdeal(k: seq<byte>, s: seq<byte>, l: string, k': seq<byte>, s': seq<byte>, l': string)
    requires Expanded(k, s, l) == Expanded(k', s', l')
    ensures k == k' && s == s' && l == l'
  {
    var after, after' := Unary(|s|) + (s + Spelled(l)), Unary(|s'|) + (s' + Spelled(l'));
    UnaryPrefix(|k|, k + after, |k'|, k' + after');
    assert (k + after)[..|k|] == k && (k' + after')[..|k|] == k';
    assert (k + after)[|k|..] == after && (k' + after')[|k|..] == after';
    UnaryPrefix(|s|, s + Spelled(l), |s'|, s' + Spelled(l'));
    assert (s + Spelled(l))[..|s|] == s && (s' + Spelled(l'))[..|s|] == s';
    assert (s + Spelled(l))[|s|..] == Spelled(l) && (s' + Spelled(l'))[|s|..] == Spelled(l');
    SpelledInjective(l, l');
  }

  /** Primitives that just write their arguments down. */
  function WrittenSuite(): Suite {
    Suite(
      s => Unary(s),
      (s, p) => Exchanged(s, p),
      (k, salt, info) => Expanded(k, salt, info),
      s => Unary(s),
      (s, m) => Unary(s) + m,
      (p, m, sig) => sig == p + m
    )
  }

  lemma WrittenExchange()
    ensures IdealExchange(WrittenSuite())
  {
    var c := WrittenSuite();
    forall a, b | c.pub(a) == c.pub(b) ensures a == b {
      assert |Unary(a)| == |Unary(b)|;
    }
    forall x, p, a, b | c.dh(x, p) == c.dh(a, c.pub(b)) ensures (x == a && p == c.pub(b)) || (x == b && p == c.pub(a)) {
      ExchangedIdeal(x, p, a, b);
    }
  }

  lemma WrittenExpansion()
    ensures IdealExpansion(WrittenSuite())
  {
    var c := WrittenSuite();
    forall k, s, l, k', s', l' | c.hkdf(k, s, l) == c.hkdf(k', s', l') ensures k == k' && s == s' && l == l' {
      ExpandedIdeal(k, s, l, k', s', l');
    }
  }

  lemma WrittenLawful()
    ensures Lawful(WrittenSuite())
  {
    var c := WrittenSuite();
    forall a: nat, b: nat ensures c.dh(a, c.pub(b)) == c.dh(b, c.pub(a)) {
      assert |Unary(a)| == a + 1 && |Unary(b)| == b + 1;
    }
    forall k, l, l' | c.hkdf(k, SUBKEY_SALT, l) == c.hkdf(k, SUBKEY_SALT, l') ensures l == l' {
      ExpandedIdeal(k, SUBKEY_SALT, l, k, SUBKEY_SALT, l');
    }
  }

  /** Ideal primitives exist. */
  lemma IdealSuiteExists()
    ensures Ideal(WrittenSuite())
  {
    WrittenLawful();
    WrittenExchange();
    WrittenExpansion();
  }

  // ---- Runs ----

  /** The secrets of one end of one handshake. */
  datatype Party = Party(eph: Secret, id: Secret)

  datatype Viewer =
    | Waiting(self: Party)
    | Finished(self: Party, peer: KeyField, keys: Keys)
    | Aborted(self: Party)

  datatype Host = Host(self: Party, peer: KeyField, keys: Keys)

  datatype State = State(viewers: seq<Viewer>, hosts: seq<Host>)

  /** A viewer sends its Hello; some Hello reaches a host; some HelloAck reaches a viewer. */
  datatype Event =
    | Starts(self: Party)
    | Answers(self: Party, sessionId: seq<byte>, hello: Hello, codecsAgree: bool)
    | Completes(viewer: nat, ack: HelloAck)

  /** A host that refuses has made no keys yet. */
  function AnswerStep(c: Suite, st: State, p: Party, sessionId: seq<byte>, hello: Hello, codecsAgree: bool): State {
    match HostRespond(c, p.eph, p.id, sessionId, hello, codecsAgree)
    case Failed(_) => st
    case Done((_, keys)) => st.(hosts := st.hosts + [Host(p, hello.keys, keys)])
  }

  function CompleteStep(c: Suite, st: State, v: nat, ack: HelloAck): State {
    if v < |st.viewers| && st.viewers[v].Waiting? then
      var self := st.viewers[v].self;
      var after := match ViewerFinish(c, self.eph, ack)
                   case Failed(_) => Aborted(self)
                   case Done(keys) => Finished(self, ack.keys, keys);
      st.(viewers := st.viewers[v := after])
    else st
  }

  function Step(c: Suite, st: State, e: Event): State {
    match e
    case Starts(p) => st.(viewers := st.viewers + [Waiting(p)])
    case Answers(p, sessionId, hello, codecsAgree) => AnswerStep(c, st, p, sessionId, hello, codecsAgree)
    case Completes(v, ack) => CompleteStep(c, st, v, ack)
  }

  function Run(c: Suite, run: seq<Event>): State {
    if run == [] then State([], [])
    else Step(c, Run(c, run[..|run| - 1]), run[|run| - 1])
  }

  // ---- What the network cannot do ----

  ghost predicate Made(st: State, p: Party) {
    (exists v :: 0 <= v < |st.viewers| && st.viewers[v].self == p) ||
    (exists h :: 0 <= h < |st.hosts| && st.hosts[h].self == p)
  }

  /** Someone took part with this identity and this ephemeral key, and so signed the pair. */
  ghost predicate MadeBy(c: Suite, st: State, k: KeyField) {
    exists p: Party :: Made(st, p) && c.idPub(p.id) == k.identity && c.pub(p.eph) == k.eph
  }

  /** Ephemeral secrets are new, and taking part is for honest identities. */
  ghost predicate New(c: Suite, honest: set<Public>, st: State, p: Party) {
    c.idPub(p.id) in honest && forall q: Party | Made(st, q) :: q.eph != p.eph
  }

  /** A signature that verifies for an honest identity was made by it. */
  ghost predicate Unforged(c: Suite, honest: set<Public>, st: State, k: KeyField) {
    KeysVerify(c, k) && k.identity in honest ==> MadeBy(c, st, k)
  }

  ghost predicate Allowed(c: Suite, honest: set<Public>, st: State, e: Event) {
    match e
    case Starts(p) => New(c, honest, st, p)
    case Answers(p, _, hello, _) => New(c, honest, st, p) && Unforged(c, honest, st, hello.keys)
    case Completes(_, ack) => Unforged(c, honest, st, ack.keys)
  }

  ghost predicate IdealRun(c: Suite, honest: set<Public>, run: seq<Event>) {
    run != [] ==>
      && IdealRun(c, honest, run[..|run| - 1])
      && Allowed(c, honest, Run(c, run[..|run| - 1]), run[|run| - 1])
  }

  // ---- What every run keeps ----

  /** No two ends share an ephemeral secret. */
  ghost predicate Apart(st: State) {
    && (forall i, j | 0 <= i < j < |st.viewers| :: st.viewers[i].self.eph != st.viewers[j].self.eph)
    && (forall i, j | 0 <= i < j < |st.hosts| :: st.hosts[i].self.eph != st.hosts[j].self.eph)
    && (forall i, j | 0 <= i < |st.viewers| && 0 <= j < |st.hosts| :: st.viewers[i].self.eph != st.hosts[j].self.eph)
  }

  ghost predicate Honest(c: Suite, honest: set<Public>, st: State) {
    && (forall v | 0 <= v < |st.viewers| :: c.idPub(st.viewers[v].self.id) in honest)
    && (forall h | 0 <= h < |st.hosts| :: c.idPub(st.hosts[h].self.id) in honest)
  }

  /** What an end accepted: keys derived from the peer's field, which is genuine if the
      identity in it is honest. */
  ghost predicate Derived(c: Suite, honest: set<Public>, st: State, self: Party, peer: KeyField, keys: Keys,
                          isHost: bool)
  {
    && keys == SessionKeys(c, self.eph, peer, keys.sessionId, isHost)
    && (peer.identity in honest ==> MadeBy(c, st, peer))
  }

  ghost predicate EndsOk(c: Suite, honest: set<Public>, st: State) {
    && (forall v | 0 <= v < |st.viewers| && st.viewers[v].Finished? ::
          Derived(c, honest, st, st.viewers[v].self, st.viewers[v].peer, st.viewers[v].keys, false))
    && (forall h | 0 <= h < |st.hosts| ::
          Derived(c, honest, st, st.hosts[h].self, st.hosts[h].peer, st.hosts[h].keys, true))
  }

  /** Parties stay. */
  lemma MadeStays(c: Suite, st: State, e: Event, p: Party)
    requires Made(st, p)
    ensures Made(Step(c, st, e), p)
  {
    var st' := Step(c, st, e);
    if v :| 0 <= v < |st.viewers| && st.viewers[v].self == p {
      assert st'.viewers[v].self == p;
    } else {
      var h :| 0 <= h < |st.hosts| && st.hosts[h].self == p;
      assert st'.hosts[h].self == p;
    }
  }

  lemma DerivedStays(c: Suite, honest: set<Public>, st: State, e: Event, self: Party, peer: KeyField, keys: Keys,
                     isHost: bool)
    requires Derived(c, honest, st, self, peer, keys, isHost)
    ensures Derived(c, honest, Step(c, st, e), self, peer, keys, isHost)
  {
    if peer.identity in honest {
      var p: Party :| Made(st, p) && c.idPub(p.id) == peer.identity && c.pub(p.eph) == peer.eph;
      MadeStays(c, st, e, p);
    }
  }

  lemma ApartKept(c: Suite, honest: set<Public>, st: State, e: Event)
    requires Apart(st) && Honest(c, honest, st) && Allowed(c, honest, st, e)
    ensures Apart(Step(c, st, e)) && Honest(c, honest, Step(c, st, e))
  {
    if !e.Completes? { NewIsApart(c, honest, st, e.self); }
  }

  lemma NewIsApart(c: Suite, honest: set<Public>, st: State, p: Party)
    requires New(c, honest, st, p)
    ensures forall v | 0 <= v < |st.viewers| :: st.viewers[v].self.eph != p.eph
    ensures forall h | 0 <= h < |st.hosts| :: st.hosts[h].self.eph != p.eph
  {
    assert forall v | 0 <= v < |st.viewers| :: Made(st, st.viewers[v].self);
    assert forall h | 0 <= h < |st.hosts| :: Made(st, st.hosts[h].self);
  }

  lemma EndsKept(c: Suite, honest: set<Public>, st: State, e: Event)
    requires EndsOk(c, honest, st) && Allowed(c, honest, st, e)
    ensures EndsOk(c, honest, Step(c, st, e))
  {
    var st' := Step(c, st, e);
    forall v | 0 <= v < |st'.viewers| && st'.viewers[v].Finished?
      ensures Derived(c, honest, st', st'.viewers[v].self, st'.viewers[v].peer, st'.viewers[v].keys, false)
    {
      var w := st'.viewers[v];
      assert Derived(c, honest, st, w.self, w.peer, w.keys, false);
      DerivedStays(c, honest, st, e, w.self, w.peer, w.keys, false);
    }
    forall h | 0 <= h < |st'.hosts|
      ensures Derived(c, honest, st', st'.hosts[h].self, st'.hosts[h].peer, st'.hosts[h].keys, true)
    {
      var w := st'.hosts[h];
      assert Derived(c, honest, st, w.self, w.peer, w.keys, true);
      DerivedStays(c, honest, st, e, w.self, w.peer, w.keys, true);
    }
  }

  lemma {:induction false} RunKeeps(c: Suite, honest: set<Public>, run: seq<Event>)
    requires IdealRun(c, honest, run)
    ensures Apart(Run(c, run)) && Honest(c, honest, Run(c, run)) && EndsOk(c, honest, Run(c, run))
  {
    if run != [] {
      var before, last := run[..|run| - 1], run[|run| - 1];
      RunKeeps(c, honest, before);
      ApartKept(c, honest, Run(c, before), last);
      EndsKept(c, honest, Run(c, before), last);
    }
  }

  /** One ephemeral secret, one party. */
  lemma SameEphemeral(st: State, p: Party, q: Party)
    requires Apart(st) && Made(st, p) && Made(st, q) && p.eph == q.eph
    ensures p == q
  {
  }

  // ---- Who shares keys with whom ----

  ghost predicate Agree(v: Viewer, h: Host)
    requires v.Finished?
  {
    v.keys.tx == h.keys.rx && v.keys.rx == h.keys.tx
  }

  /** Each used the other's ephemeral key, and both the same session id. */
  ghost predicate Matching(c: Suite, v: Viewer, h: Host)
    requires v.Finished?
  {
    v.peer.eph == c.pub(h.self.eph) && h.peer.eph == c.pub(v.self.eph) && v.keys.sessionId == h.keys.sessionId
  }

  ghost predicate Ends(st: State, v: nat, h: nat) {
    v < |st.viewers| && st.viewers[v].Finished? && h < |st.hosts|
  }

  /** Equal traffic keys come from equal shared secrets and session ids. */
  lemma SameSecret(c: Suite, x: Secret, k: KeyField, sid: seq<byte>, y: Secret, k': KeyField, sid': seq<byte>,
                   isHost: bool)
    requires IdealExpansion(c)
    requires SessionKeys(c, x, k, sid, isHost).tx == SessionKeys(c, y, k', sid', !isHost).rx
    ensures c.dh(x, k.eph) == c.dh(y, k'.eph) && sid == sid'
  {
    var key, key' := c.hkdf(c.dh(x, k.eph), sid, LABEL_SESSION), c.hkdf(c.dh(y, k'.eph), sid', LABEL_SESSION);
    assert key == key' by {
      var info := if isHost then LABEL_H2V else LABEL_V2H;
      assert c.hkdf(key, SUBKEY_SALT, info) == c.hkdf(key', SUBKEY_SALT, info);
    }
  }

  /** With ephemeral keys that honest ends made, a shared secret means matching keys. */
  lemma SecretMatches(c: Suite, x: Secret, p: Public, y: Secret, q: Public, z: Secret)
    requires IdealExchange(c) && x != y && c.dh(x, p) == c.dh(y, q)
    requires p == c.pub(z) || q == c.pub(z)
    ensures p == c.pub(y) && q == c.pub(x)
  {
    if p == c.pub(z) {
      assert c.dh(y, q) == c.dh(x, c.pub(z));
    } else {
      assert c.dh(x, p) == c.dh(y, c.pub(z));
    }
  }

  /** Agreement: when either end takes its peer for an honest identity, both hold the keys of
      one session exactly when each used the other's ephemeral key and both the same
      session id. */
  lemma AgreeIff(c: Suite, honest: set<Public>, run: seq<Event>, v: nat, h: nat)
    requires Ideal(c) && IdealRun(c, honest, run) && Ends(Run(c, run), v, h)
    requires var viewer, host := Run(c, run).viewers[v], Run(c, run).hosts[h];
             viewer.keys.peerIdentity in honest || host.keys.peerIdentity in honest
    ensures var viewer, host := Run(c, run).viewers[v], Run(c, run).hosts[h];
            Agree(viewer, host) <==> Matching(c, viewer, host)
  {
    RunKeeps(c, honest, run);
    var st := Run(c, run);
    var viewer, host := st.viewers[v], st.hosts[h];
    assert Derived(c, honest, st, viewer.self, viewer.peer, viewer.keys, false);
    assert Derived(c, honest, st, host.self, host.peer, host.keys, true);
    if Agree(viewer, host) {
      var sid, sid' := host.keys.sessionId, viewer.keys.sessionId;
      SameSecret(c, host.self.eph, host.peer, sid, viewer.self.eph, viewer.peer, sid', true);
      if viewer.peer.identity in honest {
        var p: Party :| Made(st, p) && c.idPub(p.id) == viewer.peer.identity && c.pub(p.eph) == viewer.peer.eph;
        SecretMatches(c, host.self.eph, host.peer.eph, viewer.self.eph, viewer.peer.eph, p.eph);
      } else {
        var p: Party :| Made(st, p) && c.idPub(p.id) == host.peer.identity && c.pub(p.eph) == host.peer.eph;
        SecretMatches(c, host.self.eph, host.peer.eph, viewer.self.eph, viewer.peer.eph, p.eph);
      }
    }
    if Matching(c, viewer, host) {
      MatchingAgree(c, viewer.self.eph, viewer.peer, host.self.eph, host.peer, viewer.keys.sessionId);
    }
  }

  lemma MatchingAgree(c: Suite, v: Secret, vPeer: KeyField, h: Secret, hPeer: KeyField, sid: seq<byte>)
    requires Lawful(c) && vPeer.eph == c.pub(h) && hPeer.eph == c.pub(v)
    ensures var viewer, host := SessionKeys(c, v, vPeer, sid, false), SessionKeys(c, h, hPeer, sid, true);
            viewer.tx == host.rx && viewer.rx == host.tx
  {
    assert c.dh(v, c.pub(h)) == c.dh(h, c.pub(v));
  }

  /** Attribution: of two ends that used each other's keys, each names the other exactly when
      the identity it names is honest at all. */
  lemma AttributionIff(c: Suite, honest: set<Public>, run: seq<Event>, v: nat, h: nat)
    requires Ideal(c) && IdealRun(c, honest, run) && Ends(Run(c, run), v, h)
    requires Matching(c, Run(c, run).viewers[v], Run(c, run).hosts[h])
    ensures var viewer, host := Run(c, run).viewers[v], Run(c, run).hosts[h];
            && (viewer.keys.peerIdentity == c.idPub(host.self.id) <==> viewer.keys.peerIdentity in honest)
            && (host.keys.peerIdentity == c.idPub(viewer.self.id) <==> host.keys.peerIdentity in honest)
  {
    RunKeeps(c, honest, run);
    var st := Run(c, run);
    var viewer, host := st.viewers[v], st.hosts[h];
    assert Derived(c, honest, st, viewer.self, viewer.peer, viewer.keys, false);
    assert Derived(c, honest, st, host.self, host.peer, host.keys, true);
    assert Made(st, viewer.self) && Made(st, host.self);
    if viewer.peer.identity in honest {
      var p: Party :| Made(st, p) && c.idPub(p.id) == viewer.peer.identity && c.pub(p.eph) == viewer.peer.eph;
      SameEphemeral(st, p, host.self);
    }
    if host.peer.identity in honest {
      var p: Party :| Made(st, p) && c.idPub(p.id) == host.peer.identity && c.pub(p.eph) == host.peer.eph;
      SameEphemeral(st, p, viewer.self);
    }
  }

  /** An end that names an honest identity uses an ephemeral key which that identity made for
      some handshake, as viewer or as host. */
  lemma NamedPeerTookPart(c: Suite, honest: set<Public>, run: seq<Event>, v: nat)
    requires IdealRun(c, honest, run) && v < |Run(c, run).viewers| && Run(c, run).viewers[v].Finished?
    requires Run(c, run).viewers[v].keys.peerIdentity in honest
    ensures MadeBy(c, Run(c, run), Run(c, run).viewers[v].peer)
    ensures Run(c, run).viewers[v].peer.identity == Run(c, run).viewers[v].keys.peerIdentity
  {
    RunKeeps(c, honest, run);
    var viewer := Run(c, run).viewers[v];
    assert Derived(c, honest, Run(c, run), viewer.self, viewer.peer, viewer.keys, false);
  }

  /** Of all hosts, replays of its Hello included, a viewer that takes its peer for an honest
      identity shares keys with at most one. */
  lemma AgreesWithOneHost(c: Suite, honest: set<Public>, run: seq<Event>, v: nat, h: nat, h': nat)
    requires Ideal(c) && IdealRun(c, honest, run) && Ends(Run(c, run), v, h) && Ends(Run(c, run), v, h')
    requires Run(c, run).viewers[v].keys.peerIdentity in honest
    requires Agree(Run(c, run).viewers[v], Run(c, run).hosts[h]) && Agree(Run(c, run).viewers[v], Run(c, run).hosts[h'])
    ensures h == h'
  {
    RunKeeps(c, honest, run);
    AgreeIff(c, honest, run, v, h);
    AgreeIff(c, honest, run, v, h');
  }

  /** Whoever can derive a host's keys holds that host's ephemeral secret, or one that the
      identity it names had made. */
  lemma KeyHolders(c: Suite, honest: set<Public>, run: seq<Event>, h: nat, x: Secret, k: KeyField, sid: seq<byte>)
    requires Ideal(c) && IdealRun(c, honest, run) && h < |Run(c, run).hosts|
    requires Run(c, run).hosts[h].keys.peerIdentity in honest
    requires SessionKeys(c, x, k, sid, false).rx == Run(c, run).hosts[h].keys.tx
    ensures var host := Run(c, run).hosts[h];
            x == host.self.eph ||
            exists p: Party :: Made(Run(c, run), p) && p.eph == x && c.idPub(p.id) == host.keys.peerIdentity
  {
    RunKeeps(c, honest, run);
    var st, host := Run(c, run), Run(c, run).hosts[h];
    assert Derived(c, honest, st, host.self, host.peer, host.keys, true);
    var p: Party :| Made(st, p) && c.idPub(p.id) == host.peer.identity && c.pub(p.eph) == host.peer.eph;
    SameSecret(c, host.self.eph, host.peer, host.keys.sessionId, x, k, sid, true);
    assert c.dh(x, k.eph) == c.dh(host.self.eph, c.pub(p.eph));
  }

  // ---- What the handshake does not promise ----

  /** A Hello is accepted again: at any point of any run, any new host answers any Hello sent
      before and takes the sender for its peer. */
  lemma HelloReplays(c: Suite, honest: set<Public>, run: seq<Event>, v: nat, p: Party, sid: seq<byte>)
    requires Lawful(c) && IdealRun(c, honest, run) && v < |Run(c, run).viewers| && New(c, honest, Run(c, run), p)
    ensures var self := Run(c, run).viewers[v].self;
            var again := Answers(p, sid, ViewerHello(c, self.eph, self.id), true);
            && IdealRun(c, honest, run + [again])
            && |Run(c, run + [again]).hosts| == |Run(c, run).hosts| + 1
            && Run(c, run + [again]).hosts[|Run(c, run).hosts|].keys.peerIdentity == c.idPub(self.id)
  {
    var self := Run(c, run).viewers[v].self;
    var again := Answers(p, sid, ViewerHello(c, self.eph, self.id), true);
    assert (run + [again])[..|run|] == run;
    assert Made(Run(c, run), self);
    assert MadeBy(c, Run(c, run), ViewerHello(c, self.eph, self.id).keys);
  }

  /** A signature does not say which end made it: a viewer's own Hello, turned into an answer,
      is accepted by that viewer, with no host at all. */
  lemma RoleUnsigned(c: Suite, honest: set<Public>, p: Party, sid: seq<byte>)
    requires Lawful(c) && c.idPub(p.id) in honest
    ensures var run := [Starts(p), Completes(0, HelloAck(sid, ViewerHello(c, p.eph, p.id).keys))];
            && IdealRun(c, honest, run) && |Run(c, run).viewers| == 1 && Run(c, run).hosts == []
            && Run(c, run).viewers[0].Finished? && Run(c, run).viewers[0].keys.peerIdentity == c.idPub(p.id)
  {
    var e1, e2 := Starts(p), Completes(0, HelloAck(sid, ViewerHello(c, p.eph, p.id).keys));
    assert [e1, e2][..1] == [e1] && [e1][..0] == [];
    assert Run(c, []) == State([], []) && IdealRun(c, honest, []);
    assert Run(c, [e1]) == State([Waiting(p)], []) && IdealRun(c, honest, [e1]);
    assert Run(c, [e1]).viewers[0].self == p && Made(Run(c, [e1]), p);
  }

  /** The session id is not signed: a viewer accepts a host's answer under another session id,
      names that host, and shares no key with it. */
  lemma SessionIdUnsigned(c: Suite, honest: set<Public>, pv: Party, ph: Party, sid: seq<byte>, other: seq<byte>)
    requires Ideal(c) && c.idPub(pv.id) in honest && c.idPub(ph.id) in honest && pv.eph != ph.eph && sid != other
    ensures var hello, ack := ViewerHello(c, pv.eph, pv.id), HelloAck(other, MakeKeys(c, ph.eph, ph.id));
            var run := [Starts(pv), Answers(ph, sid, hello, true), Completes(0, ack)];
            && IdealRun(c, honest, run) && Ends(Run(c, run), 0, 0)
            && var viewer, host := Run(c, run).viewers[0], Run(c, run).hosts[0];
               && viewer.keys.peerIdentity == c.idPub(ph.id) && host.keys.peerIdentity == c.idPub(pv.id)
               && !Agree(viewer, host)
  {
    var hello, ack := ViewerHello(c, pv.eph, pv.id), HelloAck(other, MakeKeys(c, ph.eph, ph.id));
    ThreeSteps(c, honest, pv, ph, sid, hello, ack);
    AgreeIff(c, honest, [Starts(pv), Answers(ph, sid, hello, true), Completes(0, ack)], 0, 0);
  }

  /** A signature covers the ephemeral key, but not who made it: someone else's identity can be
      put to a viewer's ephemeral key. Both ends then share keys, and the host names the wrong
      peer. */
  lemma HostNamesAnother(c: Suite, honest: set<Public>, pv: Party, ph: Party, o: Secret, sid: seq<byte>)
    requires Ideal(c) && c.idPub(pv.id) in honest && c.idPub(ph.id) in honest && pv.eph != ph.eph
    requires c.idPub(o) !in honest
    ensures var hello := Hello(PROTOCOL_VERSION, MakeKeys(c, pv.eph, o));
            var ack := HelloAck(sid, MakeKeys(c, ph.eph, ph.id));
            var run := [Starts(pv), Answers(ph, sid, hello, true), Completes(0, ack)];
            && IdealRun(c, honest, run) && Ends(Run(c, run), 0, 0)
            && var viewer, host := Run(c, run).viewers[0], Run(c, run).hosts[0];
               Agree(viewer, host) && viewer.keys.peerIdentity == c.idPub(ph.id) && host.keys.peerIdentity == c.idPub(o)
  {
    var hello, ack := Hello(PROTOCOL_VERSION, MakeKeys(c, pv.eph, o)), HelloAck(sid, MakeKeys(c, ph.eph, ph.id));
    ThreeSteps(c, honest, pv, ph, sid, hello, ack);
    AgreeIff(c, honest, [Starts(pv), Answers(ph, sid, hello, true), Completes(0, ack)], 0, 0);
  }

  /** One viewer, one host, one answer. */
  lemma ThreeSteps(c: Suite, honest: set<Public>, pv: Party, ph: Party, sid: seq<byte>, hello: Hello, ack: HelloAck)
    requires c.idPub(pv.id) in honest && c.idPub(ph.id) in honest && pv.eph != ph.eph
    requires hello.version == PROTOCOL_VERSION && KeysVerify(c, hello.keys)
    requires hello.keys.identity in honest ==> hello.keys.identity == c.idPub(pv.id) && hello.keys.eph == c.pub(pv.eph)
    requires KeysVerify(c, ack.keys) && ack.keys.identity == c.idPub(ph.id) && ack.keys.eph == c.pub(ph.eph)
    ensures var run := [Starts(pv), Answers(ph, sid, hello, true), Completes(0, ack)];
            && IdealRun(c, honest, run)
            && var viewer := Finished(pv, ack.keys, SessionKeys(c, pv.eph, ack.keys, ack.sessionId, false));
               var host := Host(ph, hello.keys, SessionKeys(c, ph.eph, hello.keys, sid, true));
               Run(c, run) == State([viewer], [host])
  {
    var e1, e2, e3 := Starts(pv), Answers(ph, sid, hello, true), Completes(0, ack);
    assert [e1, e2, e3][..2] == [e1, e2] && [e1, e2][..1] == [e1] && [e1][..0] == [];
    var answered := Host(ph, hello.keys, SessionKeys(c, ph.eph, hello.keys, sid, true));
    var st1, st2 := State([Waiting(pv)], []), State([Waiting(pv)], [answered]);
    assert Run(c, []) == State([], []) && IdealRun(c, honest, []);
    assert Run(c, [e1]) == st1 && IdealRun(c, honest, [e1]);
    assert st1.viewers[0].self == pv && Made(st1, pv);
    assert Step(c, st1, e2) == st2;
    assert Run(c, [e1, e2]) == st2 && IdealRun(c, honest, [e1, e2]);
    assert st2.hosts[0].self == ph && Made(st2, ph);
  }
}
