/** Key agreement between viewer and host and the directional split of the session key. */
module Handshake {
  import opened Bytes
  import opened Crypto

  type Secret = nat
  type Public = seq<byte>

  /** The primitives: X25519, Ed25519 and HKDF. */
  datatype Suite = Suite(
    pub: Secret -> Public,
    dh: (Secret, Public) -> seq<byte>,
    hkdf: (seq<byte>, seq<byte>, string) -> Key,
    idPub: Secret -> Public,
    sign: (Secret, seq<byte>) -> seq<byte>,
    verify: (Public, seq<byte>, seq<byte>) -> bool
  )

  /** ASCII of "miru-subkey-v1" and "miru-handshake-v1". */
  const SUBKEY_SALT: seq<byte> := [109, 105, 114, 117, 45, 115, 117, 98, 107, 101, 121, 45, 118, 49]
  const CHALLENGE_PREFIX: seq<byte> :=
    [109, 105, 114, 117, 45, 104, 97, 110, 100, 115, 104, 97, 107, 101, 45, 118, 49]
  const LABEL_H2V := "miru-h2v-v1"
  const LABEL_V2H := "miru-v2h-v1"
  const LABEL_SESSION := "miru-session-v1"
  const PROTOCOL_VERSION: nat := 1

  ghost predicate Lawful(c: Suite) {
    && (forall a, b :: c.dh(a, c.pub(b)) == c.dh(b, c.pub(a)))
    && (forall i, m :: c.verify(c.idPub(i), m, c.sign(i, m)))
    && (forall k: seq<byte>, l, l' {:trigger c.hkdf(k, SUBKEY_SALT, l), c.hkdf(k, SUBKEY_SALT, l')} ::
          c.hkdf(k, SUBKEY_SALT, l) == c.hkdf(k, SUBKEY_SALT, l') ==> l == l')
  }

  /** The laws can be met: with a constant shared secret, signatures that always verify, and an
      expansion that spells out its label. */
  lemma LawfulSuiteExists()
    ensures var pub := (s: Secret) => [];
            var dh := (s: Secret, p: Public) => [];
            var hkdf := (k: seq<byte>, salt: seq<byte>, info: string) => Spelled(info);
            var sign := (s: Secret, m: seq<byte>) => [];
            var verify := (p: Public, m: seq<byte>, sig: seq<byte>) => true;
            Lawful(Suite(pub, dh, hkdf, pub, sign, verify))
  {
    forall l: string, l': string | Spelled(l) == Spelled(l') ensures l == l' { SpelledInjective(l, l'); }
  }

  /** Three bytes a character. */
  function Spelled(text: string): seq<byte> {
    if text == "" then []
    else
      var c := text[0] as int;
      [c / 0x1_0000 % 256, c / 0x100 % 256, c % 256] + Spelled(text[1..])
  }

  lemma {:induction false} SpelledInjective(a: string, b: string)
    requires Spelled(a) == Spelled(b)
    ensures a == b
  {
    if a != "" && b != "" {
      var x, y := Spelled(a), Spelled(b);
      assert x[0] == y[0] && x[1] == y[1] && x[2] == y[2];
      CharFromBytes(a[0] as int);
      CharFromBytes(b[0] as int);
      assert x[3..] == Spelled(a[1..]) && y[3..] == Spelled(b[1..]);
      SpelledInjective(a[1..], b[1..]);
      assert a == [a[0]] + a[1..] && b == [b[0]] + b[1..];
    }
  }

  lemma CharFromBytes(c: nat)
    requires c < 0x100_0000
    ensures c == c / 0x1_0000 % 256 * 0x1_0000 + c / 0x100 % 256 * 0x100 + c % 256
  {
  }

  datatype KeyField = KeyField(eph: Public, identity: Public, sig: seq<byte>)
  datatype Hello = Hello(version: nat, keys: KeyField)
  datatype HelloAck = HelloAck(sessionId: seq<byte>, keys: KeyField)
  datatype Keys = Keys(tx: Key, rx: Key, sessionId: seq<byte>, peerIdentity: Public)
  datatype Failure = VersionMismatch | BadSignature | NoCommonCodec

  datatype HandshakeResult<+T> = Done(value: T) | Failed(why: Failure)

  function SplitDirectional(c: Suite, sessionKey: Key, isHost: bool): (Key, Key) {
    var h2v := c.hkdf(sessionKey, SUBKEY_SALT, LABEL_H2V);
    var v2h := c.hkdf(sessionKey, SUBKEY_SALT, LABEL_V2H);
    if isHost then (h2v, v2h) else (v2h, h2v)
  }

  function Challenge(eph: Public, identity: Public): seq<byte> {
    CHALLENGE_PREFIX + eph + identity
  }

  function MakeKeys(c: Suite, ephemeral: Secret, id: Secret): KeyField {
    KeyField(c.pub(ephemeral), c.idPub(id), c.sign(id, Challenge(c.pub(ephemeral), c.idPub(id))))
  }

  predicate KeysVerify(c: Suite, k: KeyField) {
    c.verify(k.identity, Challenge(k.eph, k.identity), k.sig)
  }

  function SessionKeys(c: Suite, own: Secret, peer: KeyField, sessionId: seq<byte>, isHost: bool): Keys {
    var sessionKey := c.hkdf(c.dh(own, peer.eph), sessionId, LABEL_SESSION);
    var (tx, rx) := SplitDirectional(c, sessionKey, isHost);
    Keys(tx, rx, sessionId, peer.identity)
  }

  function ViewerHello(c: Suite, ephemeral: Secret, id: Secret): Hello {
    Hello(PROTOCOL_VERSION, MakeKeys(c, ephemeral, id))
  }

  function HostRespond(c: Suite, ephemeral: Secret, id: Secret, sessionId: seq<byte>,
                       hello: Hello, codecsAgree: bool): HandshakeResult<(HelloAck, Keys)>
  {
    if hello.version != PROTOCOL_VERSION then Failed(VersionMismatch)
    else if !KeysVerify(c, hello.keys) then Failed(BadSignature)
    else if !codecsAgree then Failed(NoCommonCodec)
    else
      var ack := HelloAck(sessionId, MakeKeys(c, ephemeral, id));
      Done((ack, SessionKeys(c, ephemeral, hello.keys, sessionId, true)))
  }

  function ViewerFinish(c: Suite, ephemeral: Secret, ack: HelloAck): HandshakeResult<Keys> {
    if !KeysVerify(c, ack.keys) then Failed(BadSignature)
    else Done(SessionKeys(c, ephemeral, ack.keys, ack.sessionId, false))
  }

  // ---- The protocol written out ----

  /** The keys of a session, host to viewer and viewer to host; the salt of the second step is
      "miru-subkey-v1". */
  function TrafficKeys(c: Suite, shared: seq<byte>, sessionId: seq<byte>): (Key, Key) {
    var session := c.hkdf(shared, sessionId, "miru-session-v1");
    var salt := [109, 105, 114, 117, 45, 115, 117, 98, 107, 101, 121, 45, 118, 49];
    (c.hkdf(session, salt, "miru-h2v-v1"), c.hkdf(session, salt, "miru-v2h-v1"))
  }

  /** "miru-handshake-v1", ephemeral key and identity: what is signed. */
  function Signed(eph: Public, identity: Public): seq<byte> {
    [109, 105, 114, 117, 45, 104, 97, 110, 100, 115, 104, 97, 107, 101, 45, 118, 49] + eph + identity
  }

  predicate SignsItself(c: Suite, k: KeyField) {
    c.verify(k.identity, Signed(k.eph, k.identity), k.sig)
  }

  /** What a host answers: version 1, a signature that verifies and a common codec are asked for
      in that order; the answer carries the host's own signed keys, and the session's keys are
      those of the shared secret. */
  lemma HostAnswers(c: Suite, ephemeral: Secret, id: Secret, sessionId: seq<byte>, hello: Hello, codecsAgree: bool)
    ensures var r := HostRespond(c, ephemeral, id, sessionId, hello, codecsAgree);
            && (r == Failed(VersionMismatch) <==> hello.version != 1)
            && (r == Failed(BadSignature) <==> hello.version == 1 && !SignsItself(c, hello.keys))
            && (r == Failed(NoCommonCodec) <==> hello.version == 1 && SignsItself(c, hello.keys) && !codecsAgree)
            && (r.Done? ==>
                  var (ack, keys) := r.value;
                  var own := Signed(c.pub(ephemeral), c.idPub(id));
                  var (h2v, v2h) := TrafficKeys(c, c.dh(ephemeral, hello.keys.eph), sessionId);
                  && ack == HelloAck(sessionId, KeyField(c.pub(ephemeral), c.idPub(id), c.sign(id, own)))
                  && keys == Keys(h2v, v2h, sessionId, hello.keys.identity))
  {
  }

  /** What a viewer makes of an answer, and the Hello it sends. */
  lemma ViewerAccepts(c: Suite, ephemeral: Secret, id: Secret, ack: HelloAck)
    ensures var r := ViewerFinish(c, ephemeral, ack);
            && (r == Failed(BadSignature) <==> !SignsItself(c, ack.keys))
            && (SignsItself(c, ack.keys) ==>
                  var (h2v, v2h) := TrafficKeys(c, c.dh(ephemeral, ack.keys.eph), ack.sessionId);
                  r == Done(Keys(v2h, h2v, ack.sessionId, ack.keys.identity)))
    ensures var own := Signed(c.pub(ephemeral), c.idPub(id));
            ViewerHello(c, ephemeral, id) == Hello(1, KeyField(c.pub(ephemeral), c.idPub(id), c.sign(id, own)))
  {
  }

  /** When both messages arrive as sent, each side's sending key is the other's
      receiving key, the two directions have different keys, and each learns the
      other's identity. */
  lemma HonestRunAgrees(c: Suite, vEph: Secret, vId: Secret, hEph: Secret, hId: Secret, sessionId: seq<byte>)
    requires Lawful(c)
    ensures var host := HostRespond(c, hEph, hId, sessionId, ViewerHello(c, vEph, vId), true);
            && host.Done?
            && var viewer := ViewerFinish(c, vEph, host.value.0);
               && viewer.Done?
               && viewer.value.tx == host.value.1.rx
               && viewer.value.rx == host.value.1.tx
               && viewer.value.tx != viewer.value.rx
               && viewer.value.sessionId == host.value.1.sessionId
               && viewer.value.peerIdentity == c.idPub(hId)
               && host.value.1.peerIdentity == c.idPub(vId)
  {
    assert c.dh(vEph, c.pub(hEph)) == c.dh(hEph, c.pub(vEph));
    assert LABEL_H2V[5] != LABEL_V2H[5];
    assert LABEL_H2V != LABEL_V2H;
  }
}
