/** The rendezvous side of the signal server: the per-IP request limiter and the
    device registry. Times are nanoseconds. */
module Rendezvous {
  import opened Common

  const CONNECT_RATE_LIMIT: nat := 20
  const CONNECT_RATE_WINDOW: nat := 60 * 1_000_000_000

  type Ip = nat

  datatype ConnectBucket = ConnectBucket(count: nat, windowStart: nat)

  // ---- Request limiter ----

  /** One request against a single address's counter, `None` before its first. */
  function CheckOne(b: Option<ConnectBucket>, now: nat): (ConnectBucket, bool) {
    var entry := match b case None => ConnectBucket(0, now) case Some(x) => x;
    var current := if Since(entry.windowStart, now) >= CONNECT_RATE_WINDOW then ConnectBucket(0, now) else entry;
    if current.count < CONNECT_RATE_LIMIT then (current.(count := current.count + 1), true) else (current, false)
  }

  type RateTable = map<Ip, ConnectBucket>

  function Lookup(m: RateTable, ip: Ip): Option<ConnectBucket> {
    if ip in m then Some(m[ip]) else None
  }

  /** `retain`: addresses whose window began two windows ago or more are forgotten. */
  function Prune(m: RateTable, now: nat): RateTable {
    map ip | ip in m && Since(m[ip].windowStart, now) < 2 * CONNECT_RATE_WINDOW :: m[ip]
  }

  function CheckRate(m: RateTable, ip: Ip, now: nat): (RateTable, bool) {
    var kept := Prune(m, now);
    var (b, ok) := CheckOne(Lookup(kept, ip), now);
    (kept[ip := b], ok)
  }

  /** A check forgets exactly the counters whose window began 120 s or more before. */
  lemma PruneIs(m: RateTable, ip: Ip, now: nat)
    ensures ip in Prune(m, now) <==> ip in m && now < m[ip].windowStart + 120_000_000_000
    ensures ip in Prune(m, now) ==> Prune(m, now)[ip] == m[ip]
  {
  }

  datatype Request = Request(ip: Ip, now: nat)

  function TableAfter(rs: seq<Request>): RateTable {
    if rs == [] then map[] else CheckRate(TableAfter(rs[..|rs| - 1]), rs[|rs| - 1].ip, rs[|rs| - 1].now).0
  }

  /** The answer to the last of a nonempty run of requests. */
  function LastAnswer(rs: seq<Request>): bool
    requires rs != []
  {
    CheckRate(TableAfter(rs[..|rs| - 1]), rs[|rs| - 1].ip, rs[|rs| - 1].now).1
  }

  /** The counter of one address in a server that never prunes. */
  function CounterAfter(rs: seq<Request>, ip: Ip): Option<ConnectBucket> {
    if rs == [] then None
    else
      var before := CounterAfter(rs[..|rs| - 1], ip);
      if rs[|rs| - 1].ip == ip then Some(CheckOne(before, rs[|rs| - 1].now).0) else before
  }

  ghost predicate Nondecreasing(rs: seq<Request>) {
    forall i, j | 0 <= i < j < |rs| :: rs[i].now <= rs[j].now
  }

  lemma {:induction false} PruneLosesOnlyExpired(rs: seq<Request>, ip: Ip)
    requires Nondecreasing(rs)
    ensures var kept, full := Lookup(TableAfter(rs), ip), CounterAfter(rs, ip);
            && (kept.Some? ==> kept == full)
            && (kept.None? && full.Some? ==>
                  rs != [] && rs[|rs| - 1].now - full.value.windowStart >= CONNECT_RATE_WINDOW)
            && (full.Some? ==> rs != [] && full.value.windowStart <= rs[|rs| - 1].now)
  {
    if rs != [] {
      var before := rs[..|rs| - 1];
      PruneLosesOnlyExpired(before, ip);
      if before != [] { assert before[|before| - 1].now <= rs[|rs| - 1].now; }
    }
  }

  /** Pruning is invisible: each request is answered as by a server that keeps one
      counter per address forever. */
  lemma PruningInvisible(rs: seq<Request>)
    requires Nondecreasing(rs) && rs != []
    ensures var last := rs[|rs| - 1];
            LastAnswer(rs) == CheckOne(CounterAfter(rs[..|rs| - 1], last.ip), last.now).1
  {
    var before, last := rs[..|rs| - 1], rs[|rs| - 1];
    PruneLosesOnlyExpired(before, last.ip);
    if before != [] { assert before[|before| - 1].now <= last.now; }
  }

  /** Requests of `ip` let through at times from `t0` to just before one window later. */
  function LetThrough(rs: seq<Request>, ip: Ip, t0: nat): nat {
    if rs == [] then 0
    else
      var last := rs[|rs| - 1];
      LetThrough(rs[..|rs| - 1], ip, t0)
      + if last.ip == ip && t0 <= last.now < t0 + 60_000_000_000 && LastAnswer(rs) then 1 else 0
  }

  lemma {:induction false} LetThroughAccounted(rs: seq<Request>, ip: Ip, t0: nat)
    requires Nondecreasing(rs)
    ensures var n, b := LetThrough(rs, ip, t0), CounterAfter(rs, ip);
            && (b.None? ==> n == 0)
            && (rs != [] && rs[|rs| - 1].now < t0 ==> n == 0)
            && (b.Some? ==>
                  && b.value.count <= CONNECT_RATE_LIMIT
                  && n <= (if b.value.windowStart < t0 then b.value.count
                           else if b.value.windowStart < t0 + CONNECT_RATE_WINDOW
                           then CONNECT_RATE_LIMIT + b.value.count
                           else 2 * CONNECT_RATE_LIMIT))
  {
    if rs != [] {
      var before, last := rs[..|rs| - 1], rs[|rs| - 1];
      LetThroughAccounted(before, ip, t0);
      PruningInvisible(rs);
      PruneLosesOnlyExpired(before, ip);
      if before != [] { assert before[|before| - 1].now <= last.now; }
    }
  }

  /** In any half-open minute an address gets at most twice the limit through. */
  lemma ConnectRateBound(rs: seq<Request>, ip: Ip, t0: nat)
    requires Nondecreasing(rs)
    ensures LetThrough(rs, ip, t0) <= 40
  {
    LetThroughAccounted(rs, ip, t0);
  }

  /** Requests of one address in the run. */
  function CountOf(rs: seq<Request>, ip: Ip): nat {
    if rs == [] then 0 else CountOf(rs[..|rs| - 1], ip) + if rs[|rs| - 1].ip == ip then 1 else 0
  }

  function FirstOf(rs: seq<Request>, ip: Ip): Option<nat> {
    if rs == [] then None
    else
      var earlier := FirstOf(rs[..|rs| - 1], ip);
      if earlier == None && rs[|rs| - 1].ip == ip then Some(rs[|rs| - 1].now) else earlier
  }

  lemma {:induction false} FirstWindow(rs: seq<Request>, ip: Ip)
    requires Nondecreasing(rs)
    requires FirstOf(rs, ip).Some? ==> rs[|rs| - 1].now < FirstOf(rs, ip).value + 60_000_000_000
    ensures CounterAfter(rs, ip) ==
            match FirstOf(rs, ip) case None => None case Some(t) => Some(ConnectBucket(Min(CountOf(rs, ip), 20), t))
    ensures FirstOf(rs, ip).Some? <==> CountOf(rs, ip) > 0
    ensures rs != [] && FirstOf(rs, ip).Some? ==> FirstOf(rs, ip).value <= rs[|rs| - 1].now
  {
    if rs != [] {
      var before := rs[..|rs| - 1];
      if before != [] { assert before[|before| - 1].now <= rs[|rs| - 1].now; }
      FirstWindow(before, ip);
    }
  }

  /** The limit is 20 a minute: within 60 s of an address's first request, its requests pass
      exactly up to the twentieth, whatever other addresses ask. */
  lemma TwentyAMinute(rs: seq<Request>)
    requires rs != [] && Nondecreasing(rs)
    requires var ip := rs[|rs| - 1].ip; rs[|rs| - 1].now < FirstOf(rs, ip).value + 60_000_000_000
    ensures LastAnswer(rs) <==> CountOf(rs, rs[|rs| - 1].ip) <= 20
  {
    var before, last := rs[..|rs| - 1], rs[|rs| - 1];
    PruningInvisible(rs);
    if before != [] { assert before[|before| - 1].now <= last.now; }
    FirstWindow(before, last.ip);
    assert CheckOne(CounterAfter(before, last.ip), last.now).1 == LastAnswer(rs);
  }

  /** A window that is over does not count: 60 s after it began the next request passes, and
      begins a new one. */
  lemma WindowRestarts(b: ConnectBucket, now: nat)
    requires now >= b.windowStart + 60_000_000_000
    ensures CheckOne(Some(b), now) == (ConnectBucket(1, now), true)
  {
  }

  // ---- Registry ----

  datatype Registration = Registration(
    deviceId: string,
    pubkey: string,
    pubAddr: Option<string>,
    pubPort: Option<nat>,
    signature: Option<string>,
    signedAt: Option<nat>
  )

  datatype Verdict = Verified | Unsigned | Invalid

  /** `verify_register_signature`; `genuine` is what the timestamp and Ed25519 checks say. */
  function VerdictOn(reg: Registration, genuine: bool): Verdict {
    if reg.signature.None? || reg.signedAt.None? then Unsigned else if genuine then Verified else Invalid
  }

  /** A connection, which stands for its message channel. */
  type Conn = nat

  /** `owner` is whose channel gets the offers for this device. `verified` is history: the
      verdict on the registration that made the entry. */
  datatype Entry = Entry(
    owner: Conn,
    pubAddr: Option<string>,
    pubPort: Option<nat>,
    lockedPubkey: Option<string>,
    verified: bool
  )

  type Registry = map<string, Entry>

  datatype Reply = RegisterAck | Refused(code: nat)

  predicate Oversized(reg: Registration) {
    || |reg.deviceId| > 256 || |reg.pubkey| > 64
    || (reg.pubAddr.Some? && |reg.pubAddr.value| > 128)
    || (reg.signature.Some? && |reg.signature.value| > 128)
  }

  predicate ClaimsKey(reg: Registration) {
    reg.signature.Some? && reg.pubkey != ""
  }

  predicate ClaimsThis(reg: Registration, key: string) {
    ClaimsKey(reg) && reg.pubkey == key
  }

  function EntryOf(conn: Conn, reg: Registration, verdict: Verdict): Entry {
    var lockedPubkey := if ClaimsKey(reg) then Some(reg.pubkey) else None;
    Entry(conn, reg.pubAddr, reg.pubPort, lockedPubkey, verdict == Verified)
  }

  /** The refusals that come before the registry's size is looked at. */
  function Refusal(r: Registry, reg: Registration, rateOk: bool, genuine: bool, strict: bool): Option<nat> {
    if !rateOk then Some(429)
    else if Oversized(reg) then Some(400)
    else
      var verdict := VerdictOn(reg, genuine);
      if verdict == Invalid || (verdict == Unsigned && strict) then Some(403)
      else if reg.deviceId in r && r[reg.deviceId].lockedPubkey.Some?
              && !ClaimsThis(reg, r[reg.deviceId].lockedPubkey.value) then Some(403)
      else None
  }

  /** One registration that no other one overlaps. */
  function Register(r: Registry, conn: Conn, reg: Registration, rateOk: bool, genuine: bool,
                    strict: bool, maxDevices: nat): (Registry, Reply)
  {
    match Refusal(r, reg, rateOk, genuine, strict)
    case Some(code) => (r, Refused(code))
    case None =>
      if |r| >= maxDevices then (r, Refused(503))
      else (r[reg.deviceId := EntryOf(conn, reg, VerdictOn(reg, genuine))], RegisterAck)
  }

  /** Registration with everything written out: what is accepted, the first reason for what is
      refused, and the entry made. Lengths are at most 256, 64, 128 and 128. */
  lemma RegisterIs(r: Registry, conn: Conn, reg: Registration, rateOk: bool, genuine: bool, strict: bool,
                   maxDevices: nat)
    ensures var (r', reply) := Register(r, conn, reg, rateOk, genuine, strict, maxDevices);
            var signed := reg.signature.Some? && reg.signedAt.Some?;
            var keyed := reg.signature.Some? && reg.pubkey != "";
            && reply ==
               (if !rateOk then Refused(429)
                else if || |reg.deviceId| > 256 || |reg.pubkey| > 64
                        || (reg.pubAddr.Some? && |reg.pubAddr.value| > 128)
                        || (reg.signature.Some? && |reg.signature.value| > 128) then Refused(400)
                else if signed && !genuine then Refused(403)
                else if !signed && strict then Refused(403)
                else if && reg.deviceId in r && r[reg.deviceId].lockedPubkey.Some?
                        && (!keyed || reg.pubkey != r[reg.deviceId].lockedPubkey.value) then Refused(403)
                else if |r| >= maxDevices then Refused(503)
                else RegisterAck)
            && r' == if reply != RegisterAck then r else r[reg.deviceId :=
                 Entry(conn, reg.pubAddr, reg.pubPort, if keyed then Some(reg.pubkey) else None, signed)]
  {
  }

  function WithoutId(r: Registry, myId: Option<string>): Registry {
    match myId case None => r case Some(id) => r - {id}
  }

  /** An accepted registration locks its entry without having been verified exactly when
      it carries a signature and a key but no signing time. */
  lemma LockUnverifiedIff(r: Registry, conn: Conn, reg: Registration, genuine: bool, strict: bool,
                          maxDevices: nat)
    requires Register(r, conn, reg, true, genuine, strict, maxDevices).1 == RegisterAck
    ensures var e := Register(r, conn, reg, true, genuine, strict, maxDevices).0[reg.deviceId];
            e.lockedPubkey.Some? && !e.verified <==> ClaimsKey(reg) && reg.signedAt.None?
  {
  }

  /** Such a registration: any key and any signature text, no signing time. */
  function WithoutTime(id: string, key: string): Registration {
    Registration(id, key, None, None, Some("x"), None)
  }

  /** In permissive mode it is accepted on a free id and locks it. */
  lemma UnverifiedLock(id: string, key: string, conn: Conn)
    requires |id| <= 256 && 0 < |key| <= 64
    ensures var (r, reply) := Register(map[], conn, WithoutTime(id, key), true, false, false, 1);
            reply == RegisterAck && id in r && r[id].lockedPubkey == Some(key) && !r[id].verified
  {
  }

  /** Taking over a locked id: an accepted registration moves the entry to the newcomer's
      channel and address under the same key, unverified exactly when it has no signing time. */
  lemma TakeoverUnverifiedIff(r: Registry, conn: Conn, reg: Registration, genuine: bool, strict: bool,
                              maxDevices: nat)
    requires reg.deviceId in r && r[reg.deviceId].lockedPubkey.Some?
    requires Register(r, conn, reg, true, genuine, strict, maxDevices).1 == RegisterAck
    ensures var e := Register(r, conn, reg, true, genuine, strict, maxDevices).0[reg.deviceId];
            && e.owner == conn && e.pubAddr == reg.pubAddr && e.pubPort == reg.pubPort
            && e.lockedPubkey == r[reg.deviceId].lockedPubkey
            && (!e.verified <==> reg.signedAt.None?)
  {
  }

  class AppState {
    var registry: Registry
    var connectRate: RateTable
    const maxDevices: nat
    const requireSignedRegister: bool

    constructor (maxDevices: nat, requireSignedRegister: bool)
      ensures registry == map[] && connectRate == map[]
      ensures this.maxDevices == maxDevices && this.requireSignedRegister == requireSignedRegister
    {
      this.maxDevices, this.requireSignedRegister := maxDevices, requireSignedRegister;
      registry, connectRate := map[], map[];
    }

    method CheckConnectRate(ip: Ip, now: nat) returns (ok: bool)
      modifies this`connectRate
      ensures (connectRate, ok) == CheckRate(old(connectRate), ip, now)
    {
      connectRate := Prune(connectRate, now);
      ghost var kept := connectRate;
      if ip !in connectRate {
        connectRate := connectRate[ip := ConnectBucket(0, now)];
      }
      var entry := connectRate[ip];
      if Since(entry.windowStart, now) >= CONNECT_RATE_WINDOW {
        entry := ConnectBucket(0, now);
      }
      if entry.count < CONNECT_RATE_LIMIT {
        entry := entry.(count := entry.count + 1);
        ok := true;
      } else {
        ok := false;
      }
      connectRate := connectRate[ip := entry];
      assert connectRate == kept[ip := entry];
    }

    /** `myId` is the connection's own record of its device, before and after. */
    method ProcessRegister(conn: Conn, reg: Registration, ip: Ip, now: nat, genuine: bool, myId: Option<string>)
      returns (reply: Reply, newId: Option<string>)
      modifies this
      ensures connectRate == CheckRate(old(connectRate), ip, now).0
      ensures var rateOk := CheckRate(old(connectRate), ip, now).1;
              (registry, reply) ==
              Register(old(registry), conn, reg, rateOk, genuine, requireSignedRegister, maxDevices)
      ensures newId == if reply.RegisterAck? then Some(reg.deviceId) else myId
    {
      newId := myId;
      var rateOk := CheckConnectRate(ip, now);
      if !rateOk {
        return Refused(429), newId;
      }
      if |reg.deviceId| > 256 || |reg.pubkey| > 64 {
        return Refused(400), newId;
      }
      if reg.pubAddr.Some? && |reg.pubAddr.value| > 128 {
        return Refused(400), newId;
      }
      if reg.signature.Some? && |reg.signature.value| > 128 {
        return Refused(400), newId;
      }
      var verdict := VerdictOn(reg, genuine);
      match verdict {
        case Verified =>
        case Unsigned =>
          if requireSignedRegister {
            return Refused(403), newId;
          }
        case Invalid =>
          return Refused(403), newId;
      }
      if reg.deviceId in registry {
        var existing := registry[reg.deviceId];
        if existing.lockedPubkey.Some? {
          var validSamePk := reg.signature.Some? && reg.pubkey != "" && reg.pubkey == existing.lockedPubkey.value;
          if !validSamePk {
            return Refused(403), newId;
          }
        }
      }
      if |registry| >= maxDevices {
        return Refused(503), newId;
      }
      newId := Some(reg.deviceId);
      var lockedPubkey := if reg.signature.Some? && reg.pubkey != "" then Some(reg.pubkey) else None;
      registry := registry[reg.deviceId := Entry(conn, reg.pubAddr, reg.pubPort, lockedPubkey, verdict == Verified)];
      return RegisterAck, newId;
    }

    /** The end of a connection: the entry under its own id goes, whoever it points to. */
    method Disconnect(myId: Option<string>)
      modifies this`registry
      ensures registry == WithoutId(old(registry), myId)
    {
      if myId.Some? {
        registry := registry - {myId.value};
      }
    }
  }
}
