/** The gate every agent action passes: token checks, human confirmation with a bounded cache
    of recent approvals, and one audit entry a call. Concurrent calls are interleaved steps. */
module AgentGate {
  import opened Common
  import opened Capabilities
  import AuditLog

  const MAX_AUTO_APPROVE_ENTRIES: nat := 1000
  const MAX_SCOPE_KEY_BYTES: nat := 4096
  /** 30 seconds, in nanoseconds of the monotonic clock. */
  const APPROVAL: nat := 30_000_000_000

  datatype Token = Token(jti: string, caps: set<Capability>, expiresAt: nat)

  /** One `authorize` call; `scope` is a string of bytes. */
  datatype Request = Request(capability: Capability, action: string, scope: string)

  datatype AutoApprove = AutoApprove(capability: Capability, scope: string, until: nat)

  datatype Error = SessionRevoked | TokenRevoked | NotGranted | TokenExpired | DeniedByUser | LogFailed

  datatype Reply = Allowed | Refused(error: Error)

  // ---- The approval cache ----

  type Cache = seq<AutoApprove>

  /** `retain` of the entries still valid at `now`. */
  function Prune(c: Cache, now: nat): Cache {
    if c == [] then [] else (if c[0].until > now then [c[0]] else []) + Prune(c[1..], now)
  }

  predicate Covers(e: AutoApprove, r: Request) {
    e.capability == r.capability && e.scope == r.scope
  }

  predicate Hits(c: Cache, r: Request) {
    exists e <- c :: Covers(e, r)
  }

  /** Oversized scopes are not cached; a full cache loses its oldest entry. */
  function Push(c: Cache, r: Request, now: nat): Cache {
    if |r.scope| > MAX_SCOPE_KEY_BYTES then c
    else (if |c| >= MAX_AUTO_APPROVE_ENTRIES then c[1..] else c) + [AutoApprove(r.capability, r.scope, now + APPROVAL)]
  }

  ghost predicate Nondecreasing(c: Cache) {
    forall i, j | 0 <= i < j < |c| :: c[i].until <= c[j].until
  }

  lemma {:induction false} PruneKeepsUnexpired(c: Cache, now: nat)
    requires forall e <- c :: e.until > now
    ensures Prune(c, now) == c
  {
    if c != [] { PruneKeepsUnexpired(c[1..], now); }
  }

  /** How many entries at the front of the cache have expired. */
  function ExpiredFront(c: Cache, now: nat): (k: nat)
    ensures k <= |c| && (k < |c| ==> c[k].until > now)
    ensures forall e <- c[..k] :: e.until <= now
  {
    if c == [] || c[0].until > now then 0
    else
      assert forall k | 0 < k <= |c| :: c[..k] == [c[0]] + c[1..][..k - 1];
      1 + ExpiredFront(c[1..], now)
  }

  /** On a sorted cache, pruning cuts off a prefix: the expired entries and no others. */
  lemma {:induction false} PruneDropsExpiredPrefix(c: Cache, now: nat)
    requires Nondecreasing(c)
    ensures Prune(c, now) == c[ExpiredFront(c, now)..]
    ensures forall e <- Prune(c, now) :: e.until > now
  {
    if c == [] {
    } else if c[0].until > now {
      assert forall e <- c :: e.until > now;
      PruneKeepsUnexpired(c, now);
      assert ExpiredFront(c, now) == 0 && c[0..] == c;
    } else {
      assert c[1..][ExpiredFront(c[1..], now)..] == c[ExpiredFront(c, now)..];
      PruneDropsExpiredPrefix(c[1..], now);
    }
  }

  // ---- Steps ----

  /** Where a call stands. `Looking` is about to read the clock for the cache check, `Timed` has
      read it and is about to take the lock; `Closing` is about to write its audit entry. */
  datatype Phase =
    | Vetting
    | Looking
    | Timed(at: nat)
    | Asking
    | Caching
    | Closing(confirmed: Option<bool>, reply: Reply)

  datatype Call = Call(request: Request, phase: Phase)

  /** What a run leaves behind, in order. */
  datatype Mark =
    | Entered(id: nat)
    | RevokeCalled
    | Checked(id: nat, listed: bool, wallClock: nat)
    | Confirmed(id: nat, request: Request)
    | Cached(id: nat, request: Request, at: nat)
    | Hit(id: nat, request: Request, at: nat)
    | Logged(id: nat, request: Request, confirmed: Option<bool>, outcome: AuditLog.Outcome)
    | Returned(id: nat, request: Request, reply: Reply)

  datatype State = State(now: nat, revoked: bool, cache: Cache, calls: map<nat, Call>, trail: seq<Mark>)

  /** `ticks` is the time passed since the previous event. */
  datatype Event =
    | Enter(id: nat, request: Request)
    | Vet(id: nat, listed: bool, wallClock: nat)
    | ReadClock(id: nat, ticks: nat)
    | Look(id: nat)
    | Answer(id: nat, allow: bool)
    | Keep(id: nat, ticks: nat)
    | Finish(id: nat, written: bool)
    | Revoke

  /** The token checks, in the order the code makes them. */
  function Vetted(token: Token, capability: Capability, listed: bool, wallClock: nat): Option<Error> {
    if listed then Some(TokenRevoked)
    else if capability !in token.caps then Some(NotGranted)
    else if token.expiresAt <= wallClock then Some(TokenExpired)
    else None
  }

  function OutcomeOf(reply: Reply): AuditLog.Outcome {
    if reply.Allowed? then AuditLog.Ok else AuditLog.Denied
  }

  function Moved(st: State, id: nat, phase: Phase): State
    requires id in st.calls
  {
    st.(calls := st.calls[id := st.calls[id].(phase := phase)])
  }

  function Marked(st: State, m: Mark): State {
    st.(trail := st.trail + [m])
  }

  predicate At(st: State, id: nat, phase: Phase) {
    id in st.calls && st.calls[id].phase == phase
  }

  /** Call identities name calls, so each is used once. */
  predicate NewId(st: State, id: nat) {
    id !in st.calls && forall m <- st.trail :: m.RevokeCalled? || m.id != id
  }

  /** The flag check at the start of a call. */
  function Arrived(revoked: bool, r: Request): Call {
    Call(r, if revoked then Closing(None, Refused(SessionRevoked)) else Vetting)
  }

  function EnterStep(st: State, id: nat, r: Request): State {
    if NewId(st, id) then
      Marked(st, Entered(id)).(calls := st.calls[id := Arrived(st.revoked, r)])
    else st
  }

  function VetStep(st: State, token: Token, id: nat, listed: bool, wallClock: nat): State {
    if At(st, id, Vetting) then
      var capability := st.calls[id].request.capability;
      var verdict := Vetted(token, capability, listed, wallClock);
      var phase :=
        if verdict.Some? then Closing(None, Refused(verdict.value))
        else if RequiresConfirmation(capability) then Looking
        else Closing(None, Allowed);
      Marked(Moved(st, id, phase), Checked(id, listed, wallClock))
    else st
  }

  function ReadClockStep(st: State, id: nat, now: nat): State {
    if At(st, id, Looking) then Moved(st, id, Timed(now)).(now := now) else st
  }

  predicate HasTime(st: State, id: nat) {
    id in st.calls && st.calls[id].phase.Timed?
  }

  /** The look finds the request in the cache, at the time its call read. */
  predicate LookHits(st: State, id: nat) {
    HasTime(st, id) && Hits(Prune(st.cache, st.calls[id].phase.at), st.calls[id].request)
  }

  function LookStep(st: State, id: nat): State {
    if HasTime(st, id) then
      var at, r := st.calls[id].phase.at, st.calls[id].request;
      var pruned := st.(cache := Prune(st.cache, at));
      if LookHits(st, id) then Marked(Moved(pruned, id, Closing(Some(true), Allowed)), Hit(id, r, at))
      else Moved(pruned, id, Asking)
    else st
  }

  function AnswerStep(st: State, id: nat, allow: bool): State {
    if !At(st, id, Asking) then st
    else if allow then Marked(Moved(st, id, Caching), Confirmed(id, st.calls[id].request))
    else Moved(st, id, Closing(Some(false), Refused(DeniedByUser)))
  }

  function KeptTrail(trail: seq<Mark>, id: nat, r: Request, now: nat): seq<Mark> {
    if |r.scope| <= 4096 then trail + [Cached(id, r, now)] else trail
  }

  function KeepStep(st: State, id: nat, now: nat): State {
    if At(st, id, Caching) then
      var r := st.calls[id].request;
      var closing, trail := Moved(st, id, Closing(Some(true), Allowed)), KeptTrail(st.trail, id, r, now);
      closing.(cache := Push(st.cache, r, now), now := now, trail := trail)
    else st
  }

  /** A failed write makes the call an error, whatever was decided. */
  function FinishStep(st: State, id: nat, written: bool): State {
    if id in st.calls && st.calls[id].phase.Closing? then
      var c := st.calls[id];
      var log := if written
                 then [Logged(id, c.request, c.phase.confirmed, OutcomeOf(c.phase.reply))] else [];
      var reply := if written then c.phase.reply else Refused(LogFailed);
      st.(calls := st.calls - {id}, trail := st.trail + log + [Returned(id, c.request, reply)])
    else st
  }

  function RevokeStep(st: State): State {
    Marked(st, RevokeCalled).(revoked := true)
  }

  function Step(st: State, token: Token, e: Event): State {
    match e
    case Enter(id, r) => EnterStep(st, id, r)
    case Vet(id, listed, wallClock) => VetStep(st, token, id, listed, wallClock)
    case ReadClock(id, ticks) => ReadClockStep(st, id, st.now + ticks)
    case Look(id) => LookStep(st, id)
    case Answer(id, allow) => AnswerStep(st, id, allow)
    case Keep(id, ticks) => KeepStep(st, id, st.now + ticks)
    case Finish(id, written) => FinishStep(st, id, written)
    case Revoke => RevokeStep(st)
  }

  function Run(token: Token, run: seq<Event>): State {
    if run == [] then State(0, false, [], map[], [])
    else Step(Run(token, run[..|run| - 1]), token, run[|run| - 1])
  }

  // ---- What justifies a mark ----

  /** Audit entries written by one call. */
  function LogsOf(trail: seq<Mark>, id: nat): seq<AuditLog.Outcome> {
    if trail == [] then []
    else
      var last := trail[|trail| - 1];
      LogsOf(trail[..|trail| - 1], id) + if last.Logged? && last.id == id then [last.outcome] else []
  }

  /** The call entered when `revoke` had already been called. */
  predicate EnteredRevoked(trail: seq<Mark>, id: nat) {
    trail != [] &&
      var before, last := trail[..|trail| - 1], trail[|trail| - 1];
      EnteredRevoked(before, id) || (last == Entered(id) && RevokeCalled in before)
  }

  /** A user granted this very call, or the cache answered for it. */
  ghost predicate Backed(trail: seq<Mark>, id: nat, r: Request) {
    Confirmed(id, r) in trail || exists t: nat :: Hit(id, r, t) in trail
  }

  /** The token passed its checks, not on the revocation list and before it expired. */
  ghost predicate Passed(token: Token, trail: seq<Mark>, id: nat) {
    exists w: nat :: Checked(id, false, w) in trail && w < token.expiresAt
  }

  /** What must have been found for this answer: each refusal has its reason, and what is allowed
      or denied by the user passed every check before. */
  ghost predicate Found(token: Token, trail: seq<Mark>, id: nat, r: Request, reply: Reply) {
    match reply
    case Allowed => r.capability in token.caps && Passed(token, trail, id)
    case Refused(DeniedByUser) => r.capability in token.caps && Passed(token, trail, id)
    case Refused(TokenRevoked) => exists w: nat :: Checked(id, true, w) in trail
    case Refused(NotGranted) => r.capability !in token.caps && exists w: nat :: Checked(id, false, w) in trail
    case Refused(TokenExpired) => exists w: nat :: Checked(id, false, w) in trail && token.expiresAt <= w
    case _ => true
  }

  ghost predicate FreshGrant(trail: seq<Mark>, m: Mark, r: Request, at: nat) {
    && m in trail && m.Cached? && at < m.at + 30_000_000_000
    && m.request.capability == r.capability && m.request.scope == r.scope
  }

  /** What must come before a mark. */
  ghost predicate Justified(token: Token, before: seq<Mark>, m: Mark) {
    match m
    case Cached(id, r, _) => Confirmed(id, r) in before
    case Hit(_, r, at) => exists g: Mark :: FreshGrant(before, g, r, at)
    case Returned(id, r, reply) =>
      && LogsOf(before, id) ==
         (if reply == Refused(LogFailed) then [] else [if reply.Allowed? then AuditLog.Ok else AuditLog.Denied])
      && Found(token, before, id, r, reply)
      && (reply != Refused(LogFailed) ==> (EnteredRevoked(before, id) <==> reply == Refused(SessionRevoked)))
      && (reply.Allowed? && RequiresConfirmation(r.capability) ==> Backed(before, id, r))
    case _ => true
  }

  ghost predicate AllJustified(token: Token, trail: seq<Mark>) {
    trail != [] ==>
      var before := trail[..|trail| - 1];
      AllJustified(token, before) && Justified(token, before, trail[|trail| - 1])
  }

  lemma AppendJustified(token: Token, trail: seq<Mark>, m: Mark)
    requires AllJustified(token, trail) && Justified(token, trail, m)
    ensures AllJustified(token, trail + [m])
  {
    assert (trail + [m])[..|trail|] == trail;
  }

  lemma {:induction false} JustifiedAt(token: Token, trail: seq<Mark>, j: nat)
    requires AllJustified(token, trail) && j < |trail|
    ensures AllJustified(token, trail[..j]) && Justified(token, trail[..j], trail[j])
  {
    if j < |trail| - 1 {
      assert trail[..|trail| - 1][..j] == trail[..j];
      JustifiedAt(token, trail[..|trail| - 1], j);
    }
  }

  lemma {:induction false} EnteredRevokedAt(trail: seq<Mark>, id: nat, k: nat)
    requires k < |trail| && trail[k] == Entered(id) && RevokeCalled in trail[..k]
    ensures EnteredRevoked(trail, id)
  {
    if k < |trail| - 1 {
      assert trail[..|trail| - 1][..k] == trail[..k];
      EnteredRevokedAt(trail[..|trail| - 1], id, k);
    }
  }

  /** No mark, no audit entry. */
  lemma {:induction false} NoMarks(trail: seq<Mark>, id: nat)
    requires forall m <- trail :: m.RevokeCalled? || m.id != id
    ensures !EnteredRevoked(trail, id) && LogsOf(trail, id) == []
  {
    if trail != [] { NoMarks(trail[..|trail| - 1], id); }
  }

  // ---- Invariants ----

  ghost predicate CallOk(token: Token, st: State, id: nat)
    requires id in st.calls
  {
    var c := st.calls[id];
    && LogsOf(st.trail, id) == []
    && (EnteredRevoked(st.trail, id) <==> c.phase.Closing? && c.phase.reply == Refused(SessionRevoked))
    && (!c.phase.Vetting? ==>
          Found(token, st.trail, id, c.request, if c.phase.Closing? then c.phase.reply else Allowed))
    && (c.phase == Caching || (c.phase.Closing? && c.phase.reply.Allowed? && RequiresConfirmation(c.request.capability))
        ==> Backed(st.trail, id, c.request))
    && (c.phase == Caching ==> Confirmed(id, c.request) in st.trail)
    && (c.phase.Closing? ==> c.phase.reply != Refused(LogFailed))
  }

  ghost predicate CallsOk(token: Token, st: State) {
    && (st.revoked <==> RevokeCalled in st.trail)
    && (forall id <- st.calls :: CallOk(token, st, id))
  }

  /** Every approval ever cached. */
  function GrantsOf(trail: seq<Mark>): Cache {
    if trail == [] then []
    else
      var last := trail[|trail| - 1];
      GrantsOf(trail[..|trail| - 1]) +
      if last.Cached? then [AutoApprove(last.request.capability, last.request.scope, last.at + 30_000_000_000)] else []
  }

  /** The cache is the latest grants: a grant is missing only when it expired or 1000 newer came. */
  ghost predicate LatestGrants(c: Cache, grants: Cache, now: nat) {
    && |c| <= MAX_AUTO_APPROVE_ENTRIES && |c| <= |grants|
    && Nondecreasing(grants)
    && (forall k | 0 <= k < |grants| :: grants[k].until <= now + APPROVAL)
    && (forall k | 0 <= k < |c| :: c[k] == grants[|grants| - |c| + k])
    && (|c| < |grants| && |c| < MAX_AUTO_APPROVE_ENTRIES ==> grants[|grants| - |c| - 1].until <= now)
  }

  ghost predicate CacheOk(st: State) {
    LatestGrants(st.cache, GrantsOf(st.trail), st.now)
  }

  /** No call holds a time that has not come. */
  ghost predicate TimesOk(st: State) {
    forall id | HasTime(st, id) :: st.calls[id].phase.at <= st.now
  }

  /** Appending a mark, as seen by one call. */
  lemma Extends(trail: seq<Mark>, m: Mark, id: nat)
    ensures LogsOf(trail + [m], id) == LogsOf(trail, id) + if m.Logged? && m.id == id then [m.outcome] else []
    ensures EnteredRevoked(trail + [m], id) <==>
              EnteredRevoked(trail, id) || (m == Entered(id) && RevokeCalled in trail)
    ensures forall r :: Backed(trail, id, r) ==> Backed(trail + [m], id, r)
    ensures forall w: nat, listed :: Checked(id, listed, w) in trail ==> Checked(id, listed, w) in trail + [m]
  {
    var longer := trail + [m];
    assert longer[..|trail|] == trail;
    forall r | Backed(trail, id, r) ensures Backed(longer, id, r) {
      if Confirmed(id, r) !in trail {
        var t: nat :| Hit(id, r, t) in trail;
        assert Hit(id, r, t) in longer;
      }
    }
  }

  /** A mark that is not the call's own leaves the call as it was. */
  lemma CallKept(token: Token, st: State, st': State, id: nat, m: Mark)
    requires id in st.calls && CallOk(token, st, id) && id in st'.calls && st'.calls[id] == st.calls[id]
    requires st'.trail == st.trail + [m] && (m.RevokeCalled? || m.id != id)
    ensures CallOk(token, st', id)
  {
    Extends(st.trail, m, id);
  }

  ghost predicate Good(token: Token, st: State) {
    AllJustified(token, st.trail) && CallsOk(token, st)
  }

  /** A mark of one call leaves the others as they were. */
  lemma OthersKeep(token: Token, st: State, st': State, id: nat, m: Mark)
    requires CallsOk(token, st) && id in st.calls
    requires st'.trail == st.trail + [m] && st'.revoked == st.revoked
    requires st'.calls - {id} == st.calls - {id}
    requires !m.RevokeCalled? && !m.Entered? && m.id == id
    requires id in st'.calls ==> CallOk(token, st', id)
    ensures CallsOk(token, st')
  {
    forall other | other in st'.calls && other != id ensures CallOk(token, st', other) {
      assert other in st'.calls - {id} && other in st.calls - {id};
      assert (st'.calls - {id})[other] == (st.calls - {id})[other];
      CallKept(token, st, st', other, m);
    }
  }

  lemma EnteredCallOk(token: Token, st: State, st': State, id: nat, r: Request)
    requires NewId(st, id) && (st.revoked <==> RevokeCalled in st.trail)
    requires st'.trail == st.trail + [Entered(id)] && id in st'.calls && st'.calls[id] == Arrived(st.revoked, r)
    ensures CallOk(token, st', id)
  {
    NoMarks(st.trail, id);
    Extends(st.trail, Entered(id), id);
  }

  lemma EnterKeeps(token: Token, st: State, e: Event)
    requires Good(token, st) && e.Enter?
    ensures Good(token, Step(st, token, e))
  {
    if NewId(st, e.id) {
      var st' := Step(st, token, e);
      AppendJustified(token, st.trail, Entered(e.id));
      EnteredCallOk(token, st, st', e.id, e.request);
      forall id | id in st'.calls && id != e.id ensures CallOk(token, st', id) {
        CallKept(token, st, st', id, Entered(e.id));
      }
    }
  }

  lemma VetCallOk(token: Token, st: State, st': State, id: nat, m: Mark, phase: Phase)
    requires At(st, id, Vetting) && CallOk(token, st, id) && m.Checked? && m.id == id
    requires st'.trail == st.trail + [m] && At(st', id, phase) && st'.calls[id].request == st.calls[id].request
    requires phase.Looking? || (phase.Closing? && phase.reply.Refused? && phase.reply.error in
               {TokenRevoked, NotGranted, TokenExpired}) ||
             (phase.Closing? && phase.reply.Allowed? && !RequiresConfirmation(st.calls[id].request.capability))
    requires Found(token, [m], id, st.calls[id].request, if phase.Closing? then phase.reply else Allowed)
    ensures CallOk(token, st', id)
  {
    Extends(st.trail, m, id);
    assert m in st'.trail;
  }

  lemma VetFinds(token: Token, st: State, id: nat, listed: bool, w: nat)
    requires At(st, id, Vetting)
    ensures var r, c' := st.calls[id].request, VetStep(st, token, id, listed, w).calls[id];
            && c'.request == r && (c'.phase.Looking? || c'.phase.Closing?)
            && Found(token, [Checked(id, listed, w)], id, r, if c'.phase.Closing? then c'.phase.reply else Allowed)
  {
    assert Checked(id, listed, w) in [Checked(id, listed, w)];
  }

  lemma VetKeeps(token: Token, st: State, e: Event)
    requires Good(token, st) && e.Vet?
    ensures Good(token, Step(st, token, e))
  {
    if At(st, e.id, Vetting) {
      var m, st' := Checked(e.id, e.listed, e.wallClock), Step(st, token, e);
      AppendJustified(token, st.trail, m);
      VetFinds(token, st, e.id, e.listed, e.wallClock);
      VetCallOk(token, st, st', e.id, m, st'.calls[e.id].phase);
      OthersKeep(token, st, st', e.id, m);
    }
  }

  lemma ReadClockKeeps(token: Token, st: State, e: Event)
    requires Good(token, st) && e.ReadClock?
    ensures Good(token, Step(st, token, e))
  {
  }

  lemma HitCallOk(token: Token, st: State, st': State, id: nat, m: Mark)
    requires HasTime(st, id) && CallOk(token, st, id) && m.Hit? && m == Hit(id, st.calls[id].request, m.at)
    requires st'.trail == st.trail + [m] && At(st', id, Closing(Some(true), Allowed))
    requires st'.calls[id].request == st.calls[id].request
    ensures CallOk(token, st', id)
  {
    Extends(st.trail, m, id);
    assert m in st'.trail;
  }

  lemma HitKeeps(token: Token, st: State, st': State, id: nat, m: Mark)
    requires CallsOk(token, st) && HasTime(st, id) && m.Hit? && m == Hit(id, st.calls[id].request, m.at)
    requires st'.trail == st.trail + [m] && st'.revoked == st.revoked
    requires st'.calls == st.calls[id := st.calls[id].(phase := Closing(Some(true), Allowed))]
    ensures CallsOk(token, st')
  {
    HitCallOk(token, st, st', id, m);
    OthersKeep(token, st, st', id, m);
  }

  /** A look that hits has a fresh grant behind it. */
  ghost predicate LookBacked(st: State, id: nat) {
    LookHits(st, id) ==> exists g: Mark :: FreshGrant(st.trail, g, st.calls[id].request, st.calls[id].phase.at)
  }

  lemma LookHitStep(token: Token, st: State, e: Event)
    requires e.Look? && LookHits(st, e.id)
    ensures var st' := Step(st, token, e);
            && st'.trail == st.trail + [Hit(e.id, st.calls[e.id].request, st.calls[e.id].phase.at)]
            && st'.revoked == st.revoked
            && st'.calls == st.calls[e.id := st.calls[e.id].(phase := Closing(Some(true), Allowed))]
  {
  }

  lemma LookMissKeeps(token: Token, st: State, e: Event)
    requires Good(token, st) && e.Look? && !LookHits(st, e.id)
    ensures Good(token, Step(st, token, e))
  {
    assert Step(st, token, e).trail == st.trail;
  }

  lemma LookKeeps(token: Token, st: State, e: Event)
    requires Good(token, st) && e.Look? && LookBacked(st, e.id)
    ensures Good(token, Step(st, token, e))
  {
    if LookHits(st, e.id) {
      var m := Hit(e.id, st.calls[e.id].request, st.calls[e.id].phase.at);
      AppendJustified(token, st.trail, m);
      LookHitStep(token, st, e);
      HitKeeps(token, st, Step(st, token, e), e.id, m);
    } else {
      LookMissKeeps(token, st, e);
    }
  }

  lemma AnswerCallOk(token: Token, st: State, st': State, id: nat, m: Mark)
    requires At(st, id, Asking) && CallOk(token, st, id) && m == Confirmed(id, st.calls[id].request)
    requires st'.trail == st.trail + [m] && At(st', id, Caching) && st'.calls[id].request == st.calls[id].request
    ensures CallOk(token, st', id)
  {
    Extends(st.trail, m, id);
    assert m in st'.trail;
  }

  lemma AnswerKeeps(token: Token, st: State, e: Event)
    requires Good(token, st) && e.Answer?
    ensures Good(token, Step(st, token, e))
  {
    if At(st, e.id, Asking) && e.allow {
      var m, st' := Confirmed(e.id, st.calls[e.id].request), Step(st, token, e);
      AppendJustified(token, st.trail, m);
      AnswerCallOk(token, st, st', e.id, m);
      OthersKeep(token, st, st', e.id, m);
    }
  }

  lemma KeepCallOk(token: Token, st: State, st': State, id: nat, m: Mark)
    requires At(st, id, Caching) && CallOk(token, st, id) && m.Cached? && m.id == id
    requires st'.trail in {st.trail, st.trail + [m]} && At(st', id, Closing(Some(true), Allowed))
    requires st'.calls[id].request == st.calls[id].request
    ensures CallOk(token, st', id)
  {
    Extends(st.trail, m, id);
  }

  lemma KeptKeeps(token: Token, st: State, st': State, id: nat, m: Mark)
    requires Good(token, st) && At(st, id, Caching) && m.Cached? && m.id == id && m.request == st.calls[id].request
    requires st'.trail in {st.trail, st.trail + [m]} && st'.revoked == st.revoked
    requires st'.calls == st.calls[id := st.calls[id].(phase := Closing(Some(true), Allowed))]
    ensures Good(token, st')
  {
    KeepCallOk(token, st, st', id, m);
    if st'.trail != st.trail {
      AppendJustified(token, st.trail, m);
      OthersKeep(token, st, st', id, m);
    }
  }

  lemma KeepKeeps(token: Token, st: State, e: Event)
    requires Good(token, st) && e.Keep?
    ensures Good(token, Step(st, token, e))
  {
    if At(st, e.id, Caching) {
      KeptKeeps(token, st, Step(st, token, e), e.id, Cached(e.id, st.calls[e.id].request, st.now + e.ticks));
    }
  }

  lemma FinishKeeps(token: Token, st: State, e: Event)
    requires Good(token, st) && e.Finish?
    ensures Good(token, Step(st, token, e))
  {
    if e.id in st.calls && st.calls[e.id].phase.Closing? {
      var c, st' := st.calls[e.id], Step(st, token, e);
      if e.written {
        var logged := Logged(e.id, c.request, c.phase.confirmed, OutcomeOf(c.phase.reply));
        LoggedReturnJustified(token, st, e.id);
        LogThenReturn(token, st, st', e.id, logged, Returned(e.id, c.request, c.phase.reply));
      } else {
        UnwrittenKeeps(token, st, st', e.id, Returned(e.id, c.request, Refused(LogFailed)));
      }
    }
  }

  lemma UnwrittenKeeps(token: Token, st: State, st': State, id: nat, m: Mark)
    requires Good(token, st) && id in st.calls && st'.calls == st.calls - {id} && st'.revoked == st.revoked
    requires st'.trail == st.trail + [m] && m.Returned? && m.id == id && m.reply == Refused(LogFailed)
    ensures Good(token, st')
  {
    assert CallOk(token, st, id);
    AppendJustified(token, st.trail, m);
    OthersKeep(token, st, st', id, m);
  }

  lemma LoggedReturnJustified(token: Token, st: State, id: nat)
    requires Good(token, st) && id in st.calls && st.calls[id].phase.Closing?
    ensures var c := st.calls[id];
            var logged := Logged(id, c.request, c.phase.confirmed, OutcomeOf(c.phase.reply));
            AllJustified(token, st.trail + [logged] + [Returned(id, c.request, c.phase.reply)])
  {
    var c := st.calls[id];
    var logged := Logged(id, c.request, c.phase.confirmed, OutcomeOf(c.phase.reply));
    Extends(st.trail, logged, id);
    AppendJustified(token, st.trail, logged);
    assert CallOk(token, st, id);
    AppendJustified(token, st.trail + [logged], Returned(id, c.request, c.phase.reply));
  }

  lemma LogThenReturn(token: Token, st: State, st': State, id: nat, logged: Mark, returned: Mark)
    requires CallsOk(token, st) && id in st.calls
    requires logged.Logged? && logged.id == id && returned.Returned? && returned.id == id
    requires st'.trail == st.trail + [logged] + [returned] && st'.revoked == st.revoked && st'.calls == st.calls - {id}
    ensures CallsOk(token, st')
  {
    var st1 := st.(trail := st.trail + [logged]);
    forall other | other in st'.calls ensures CallOk(token, st', other) {
      CallKept(token, st, st1, other, logged);
      CallKept(token, st1, st', other, returned);
    }
  }

  lemma RevokeKeeps(token: Token, st: State, e: Event)
    requires Good(token, st) && e.Revoke?
    ensures Good(token, Step(st, token, e))
  {
    var st' := Step(st, token, e);
    AppendJustified(token, st.trail, RevokeCalled);
    assert st'.trail[|st.trail|] == RevokeCalled;
    forall id | id in st'.calls ensures CallOk(token, st', id) {
      CallKept(token, st, st', id, RevokeCalled);
    }
  }

  // ---- The cache ----

  lemma {:induction false} GrantHasMark(trail: seq<Mark>, g: AutoApprove) returns (k: nat)
    requires g in GrantsOf(trail)
    ensures k < |trail| && trail[k].Cached? && Covers(g, trail[k].request) && g.until == trail[k].at + APPROVAL
  {
    var n := |trail| - 1;
    if g in GrantsOf(trail[..n]) { k := GrantHasMark(trail[..n], g); } else { k := n; }
  }

  lemma GrantsExtend(trail: seq<Mark>, m: Mark)
    ensures GrantsOf(trail + [m]) == GrantsOf(trail) +
      if m.Cached? then [AutoApprove(m.request.capability, m.request.scope, m.at + APPROVAL)] else []
  {
    assert (trail + [m])[..|trail|] == trail;
  }

  lemma LatestSorted(c: Cache, grants: Cache, now: nat)
    requires LatestGrants(c, grants, now)
    ensures Nondecreasing(c)
  {
  }

  lemma HitIsFresh(st: State, r: Request, now: nat)
    requires CacheOk(st) && Hits(Prune(st.cache, now), r)
    ensures exists g: Mark :: FreshGrant(st.trail, g, r, now)
  {
    LatestSorted(st.cache, GrantsOf(st.trail), st.now);
    PruneDropsExpiredPrefix(st.cache, now);
    var e :| e in Prune(st.cache, now) && Covers(e, r);
    var i :| 0 <= i < |st.cache| && st.cache[i] == e;
    var k := GrantHasMark(st.trail, e);
    assert FreshGrant(st.trail, st.trail[k], r, now);
  }

  lemma DropLatest(c: Cache, grants: Cache, k: nat, before: nat, now: nat)
    requires LatestGrants(c, grants, before) && before <= now && k <= |c|
    requires k > 0 ==> c[k - 1].until <= now
    ensures LatestGrants(c[k..], grants, now)
  {
  }

  lemma LookIsBacked(st: State, e: Event)
    requires CacheOk(st)
    ensures e.Look? ==> LookBacked(st, e.id)
  {
    if e.Look? && LookHits(st, e.id) { HitIsFresh(st, st.calls[e.id].request, st.calls[e.id].phase.at); }
  }

  /** Pruning, at a time perhaps older than the latest, shortens the cache but leaves it the
      latest grants. */
  lemma PruneLatest(c: Cache, grants: Cache, before: nat, at: nat)
    requires LatestGrants(c, grants, before)
    ensures LatestGrants(Prune(c, at), grants, Max(before, at))
    ensures forall e <- Prune(c, at) :: e.until > at
  {
    LatestSorted(c, grants, before);
    PruneDropsExpiredPrefix(c, at);
    var k := ExpiredFront(c, at);
    if k > 0 { assert c[..k][k - 1] in c[..k]; }
    DropLatest(c, grants, k, before, Max(before, at));
  }

  lemma AppendLatest(c: Cache, grants: Cache, g: AutoApprove, before: nat, now: nat)
    requires LatestGrants(c, grants, before) && before <= now && g.until == now + APPROVAL
    requires |c| < MAX_AUTO_APPROVE_ENTRIES
    ensures LatestGrants(c + [g], grants + [g], now)
  {
  }

  lemma ReplaceLatest(c: Cache, grants: Cache, g: AutoApprove, before: nat, now: nat)
    requires LatestGrants(c, grants, before) && before <= now && g.until == now + APPROVAL
    requires |c| == MAX_AUTO_APPROVE_ENTRIES
    ensures LatestGrants(c[1..] + [g], grants + [g], now)
  {
  }

  lemma PushLatest(c: Cache, grants: Cache, r: Request, before: nat, now: nat)
    requires LatestGrants(c, grants, before) && before <= now && |r.scope| <= MAX_SCOPE_KEY_BYTES
    ensures LatestGrants(Push(c, r, now), grants + [AutoApprove(r.capability, r.scope, now + APPROVAL)], now)
  {
    var g := AutoApprove(r.capability, r.scope, now + APPROVAL);
    if |c| < MAX_AUTO_APPROVE_ENTRIES {
      AppendLatest(c, grants, g, before, now);
    } else {
      ReplaceLatest(c, grants, g, before, now);
    }
  }

  lemma FinishGrants(trail: seq<Mark>, log: seq<Mark>, returned: Mark)
    requires log == [] || (|log| == 1 && log[0].Logged?)
    requires returned.Returned?
    ensures GrantsOf(trail + log + [returned]) == GrantsOf(trail)
  {
    GrantsExtend(trail + log, returned);
    if log == [] {
      assert trail + log == trail;
    } else {
      assert log == [log[0]];
      GrantsExtend(trail, log[0]);
    }
  }

  lemma FinishKeepsCache(token: Token, st: State, e: Event)
    requires CacheOk(st) && e.Finish?
    ensures CacheOk(Step(st, token, e))
  {
    if e.id in st.calls && st.calls[e.id].phase.Closing? {
      var c, st' := st.calls[e.id], Step(st, token, e);
      var log := if e.written then [Logged(e.id, c.request, c.phase.confirmed, OutcomeOf(c.phase.reply))] else [];
      var returned := Returned(e.id, c.request, if e.written then c.phase.reply else Refused(LogFailed));
      FinishGrants(st.trail, log, returned);
      assert st'.trail == st.trail + log + [returned];
      SameCache(st, st');
    }
  }

  lemma SameCache(st: State, st': State)
    requires CacheOk(st) && st'.cache == st.cache && st'.now == st.now && GrantsOf(st'.trail) == GrantsOf(st.trail)
    ensures CacheOk(st')
  {
  }

  lemma LookKeepsCache(token: Token, st: State, e: Event)
    requires CacheOk(st) && TimesOk(st) && e.Look?
    ensures CacheOk(Step(st, token, e))
  {
    if HasTime(st, e.id) {
      var st', at := Step(st, token, e), st.calls[e.id].phase.at;
      GrantsExtend(st.trail, Hit(e.id, st.calls[e.id].request, at));
      assert GrantsOf(st'.trail) == GrantsOf(st.trail) && st'.now == st.now && st'.cache == Prune(st.cache, at);
      PruneLatest(st.cache, GrantsOf(st.trail), st.now, at);
    }
  }

  lemma ReadClockKeepsCache(token: Token, st: State, e: Event)
    requires CacheOk(st) && e.ReadClock?
    ensures CacheOk(Step(st, token, e))
  {
    DropLatest(st.cache, GrantsOf(st.trail), 0, st.now, st.now + e.ticks);
  }

  lemma KeepLatest(c: Cache, trail: seq<Mark>, id: nat, r: Request, before: nat, now: nat)
    requires LatestGrants(c, GrantsOf(trail), before) && before <= now
    ensures LatestGrants(Push(c, r, now), GrantsOf(KeptTrail(trail, id, r, now)), now)
  {
    if |r.scope| <= MAX_SCOPE_KEY_BYTES {
      GrantsExtend(trail, Cached(id, r, now));
      PushLatest(c, GrantsOf(trail), r, before, now);
    } else {
      DropLatest(c, GrantsOf(trail), 0, before, now);
    }
  }

  lemma MarkKeepsCache(st: State, st': State, m: Mark)
    requires CacheOk(st) && !m.Cached?
    requires st'.trail in {st.trail, st.trail + [m]} && st'.cache == st.cache && st'.now == st.now
    ensures CacheOk(st')
  {
    GrantsExtend(st.trail, m);
    assert GrantsOf(st'.trail) == GrantsOf(st.trail);
  }

  /** Events that leave the cache and the clock alone. */
  lemma QuietKeepsCache(token: Token, st: State, e: Event)
    requires CacheOk(st) && (e.Enter? || e.Vet? || e.Answer? || e.Revoke?)
    ensures CacheOk(Step(st, token, e))
  {
    var m := if e.Enter? then Entered(e.id)
             else if e.Vet? then Checked(e.id, e.listed, e.wallClock)
             else if e.Answer? && At(st, e.id, Asking) then Confirmed(e.id, st.calls[e.id].request)
             else RevokeCalled;
    MarkKeepsCache(st, Step(st, token, e), m);
  }

  lemma KeepKeepsCache(token: Token, st: State, e: Event)
    requires CacheOk(st) && e.Keep?
    ensures CacheOk(Step(st, token, e))
  {
    var now, st' := st.now + e.ticks, Step(st, token, e);
    if At(st, e.id, Caching) {
      var r := st.calls[e.id].request;
      assert st'.cache == Push(st.cache, r, now) && st'.trail == KeptTrail(st.trail, e.id, r, now) && st'.now == now;
      KeepLatest(st.cache, st.trail, e.id, r, st.now, now);
    }
  }

  lemma StepKeepsCache(token: Token, st: State, e: Event)
    requires CacheOk(st) && TimesOk(st)
    ensures CacheOk(Step(st, token, e))
  {
    if e.ReadClock? {
      ReadClockKeepsCache(token, st, e);
    } else if e.Look? {
      LookKeepsCache(token, st, e);
    } else if e.Keep? {
      KeepKeepsCache(token, st, e);
    } else if e.Finish? {
      FinishKeepsCache(token, st, e);
    } else {
      QuietKeepsCache(token, st, e);
    }
  }

  lemma StepKeepsTimes(token: Token, st: State, e: Event)
    requires TimesOk(st)
    ensures TimesOk(Step(st, token, e))
  {
  }

  // ---- Whole runs ----

  lemma StepKeeps(token: Token, st: State, e: Event)
    requires Good(token, st) && (e.Look? ==> LookBacked(st, e.id))
    ensures Good(token, Step(st, token, e))
  {
    match e
    case Enter(_, _) => EnterKeeps(token, st, e);
    case Vet(_, _, _) => VetKeeps(token, st, e);
    case ReadClock(_, _) => ReadClockKeeps(token, st, e);
    case Look(_) => LookKeeps(token, st, e);
    case Answer(_, _) => AnswerKeeps(token, st, e);
    case Keep(_, _) => KeepKeeps(token, st, e);
    case Finish(_, _) => FinishKeeps(token, st, e);
    case Revoke => RevokeKeeps(token, st, e);
  }

  lemma {:induction false} RunKeeps(token: Token, run: seq<Event>)
    ensures var st := Run(token, run); Good(token, st) && CacheOk(st) && TimesOk(st)
  {
    if run != [] {
      var before, last := Run(token, run[..|run| - 1]), run[|run| - 1];
      RunKeeps(token, run[..|run| - 1]);
      LookIsBacked(before, last);
      StepKeepsCache(token, before, last);
      StepKeepsTimes(token, before, last);
      StepKeeps(token, before, last);
    }
  }

  /** In any interleaving, a call that returned wrote exactly one audit entry, Ok if and only if
      it was allowed; none only when the write itself failed. */
  lemma OneEntryPerCall(token: Token, run: seq<Event>, j: nat)
    requires j < |Run(token, run).trail| && Run(token, run).trail[j].Returned?
    ensures var trail, m := Run(token, run).trail, Run(token, run).trail[j];
            LogsOf(trail[..j], m.id) ==
              if m.reply == Refused(LogFailed) then [] else [if m.reply.Allowed? then AuditLog.Ok else AuditLog.Denied]
  {
    RunKeeps(token, run);
    JustifiedAt(token, Run(token, run).trail, j);
  }

  /** A user's grant that was cached, and later answered for call `id`: same capability and scope,
      under 30 s old at the time the call read. */
  ghost predicate GrantAnswered(trail: seq<Mark>, id: nat, r: Request, k: nat, h: nat) {
    && k < h < |trail| && trail[k].Cached? && trail[h].Hit?
    && Confirmed(trail[k].id, trail[k].request) in trail[..k]
    && trail[k].request.capability == r.capability && trail[k].request.scope == r.scope
    && trail[h].id == id && trail[h].request == r && trail[h].at < trail[k].at + 30_000_000_000
  }

  /** The user said yes to this very call, or to one whose grant the cache answered with. */
  ghost predicate UserGranted(trail: seq<Mark>, id: nat, r: Request) {
    Confirmed(id, r) in trail || exists k: nat, h: nat :: GrantAnswered(trail, id, r, k, h)
  }

  /** A cache hit goes back to a user's consent. */
  lemma HitHasConsent(token: Token, trail: seq<Mark>, h: nat)
    requires AllJustified(token, trail) && h < |trail| && trail[h].Hit?
    ensures UserGranted(trail, trail[h].id, trail[h].request)
  {
    var m := trail[h];
    JustifiedAt(token, trail, h);
    var g: Mark :| FreshGrant(trail[..h], g, m.request, m.at);
    var k :| 0 <= k < h && trail[..h][k] == g;
    JustifiedAt(token, trail, k);
    assert GrantAnswered(trail, m.id, m.request, k, h);
  }

  /** In any interleaving every answer has its reason: what was refused was on the revocation
      list, not granted or expired when the token was checked, and what got past that was none
      of these. */
  lemma AnswerHasReason(token: Token, run: seq<Event>, j: nat)
    requires j < |Run(token, run).trail| && Run(token, run).trail[j].Returned?
    ensures var trail, m := Run(token, run).trail, Run(token, run).trail[j];
            Found(token, trail[..j], m.id, m.request, m.reply)
  {
    RunKeeps(token, run);
    JustifiedAt(token, Run(token, run).trail, j);
  }

  /** In any interleaving, an allowed action is one that a token grants which was checked before
      it expired and was not on the revocation list, and a dangerous one has the user's consent. */
  lemma AllowedHasConsent(token: Token, run: seq<Event>, j: nat)
    requires j < |Run(token, run).trail|
    requires Run(token, run).trail[j].Returned? && Run(token, run).trail[j].reply.Allowed?
    ensures var trail, m := Run(token, run).trail, Run(token, run).trail[j];
            && m.request.capability in token.caps
            && Passed(token, trail[..j], m.id)
            && (m.request.capability in {ClipboardRead, FileRead, FileWrite, ShellExec} ==>
                  UserGranted(trail[..j], m.id, m.request))
  {
    Levels(Run(token, run).trail[j].request.capability);
    RunKeeps(token, run);
    var trail, m := Run(token, run).trail, Run(token, run).trail[j];
    JustifiedAt(token, trail, j);
    if RequiresConfirmation(m.request.capability) && Confirmed(m.id, m.request) !in trail[..j] {
      var looked: nat :| Hit(m.id, m.request, looked) in trail[..j];
      var h :| 0 <= h < j && trail[..j][h] == Hit(m.id, m.request, looked);
      HitHasConsent(token, trail[..j], h);
    }
  }

  lemma {:induction false} WhenEnteredRevoked(trail: seq<Mark>, id: nat) returns (c: nat, k: nat)
    requires EnteredRevoked(trail, id)
    ensures c < k < |trail| && trail[c] == RevokeCalled && trail[k] == Entered(id)
  {
    var n := |trail| - 1;
    if EnteredRevoked(trail[..n], id) {
      c, k := WhenEnteredRevoked(trail[..n], id);
    } else {
      k := n;
      c :| 0 <= c < n && trail[..n][c] == RevokeCalled;
    }
  }

  ghost predicate RevokedBeforeEntry(trail: seq<Mark>, id: nat) {
    exists c, k | 0 <= c < k < |trail| :: trail[c] == RevokeCalled && trail[k] == Entered(id)
  }

  /** `revoke` stops exactly the calls that enter after it: whatever was granted or cached, a
      call is refused as revoked if and only if it entered later. */
  lemma RevokeStopsLaterCallsIff(token: Token, run: seq<Event>, j: nat)
    requires j < |Run(token, run).trail| && Run(token, run).trail[j].Returned?
    requires Run(token, run).trail[j].reply != Refused(LogFailed)
    ensures var trail, m := Run(token, run).trail, Run(token, run).trail[j];
            m.reply == Refused(SessionRevoked) <==> RevokedBeforeEntry(trail[..j], m.id)
  {
    RunKeeps(token, run);
    var trail, id := Run(token, run).trail, Run(token, run).trail[j].id;
    JustifiedAt(token, trail, j);
    if EnteredRevoked(trail[..j], id) {
      var c, k := WhenEnteredRevoked(trail[..j], id);
    }
    if RevokedBeforeEntry(trail[..j], id) {
      var c, k :| 0 <= c < k < j && trail[..j][c] == RevokeCalled && trail[..j][k] == Entered(id);
      assert trail[..j][..k][c] == RevokeCalled;
      EnteredRevokedAt(trail[..j], id, k);
    }
  }

  /** A call already past the flag when `revoke` comes is still allowed. */
  lemma InFlightSurvivesRevoke()
    ensures var token, r := Token("t", {ScreenRead}, 1), Request(ScreenRead, "", "");
            Run(token, [Enter(0, r), Revoke, Vet(0, false, 0), Finish(0, true)]).trail ==
              [Entered(0), RevokeCalled, Checked(0, false, 0), Logged(0, r, None, AuditLog.Ok), Returned(0, r, Allowed)]
  {
    var token, r := Token("t", {ScreenRead}, 1), Request(ScreenRead, "", "");
    var run := [Enter(0, r), Revoke, Vet(0, false, 0), Finish(0, true)];
    assert run[..3] == [Enter(0, r), Revoke, Vet(0, false, 0)];
    assert run[..3][..2] == [Enter(0, r), Revoke];
    assert run[..3][..2][..1] == [Enter(0, r)];
    assert run[..3][..2][..1][..0] == [];
    assert Run(token, []) == State(0, false, [], map[], []);
    var s1 := Run(token, run[..3][..2][..1]);
    assert s1 == State(0, false, [], map[0 := Call(r, Vetting)], [Entered(0)]);
    var s2 := Run(token, run[..3][..2]);
    assert s2 == State(0, true, [], map[0 := Call(r, Vetting)], [Entered(0), RevokeCalled]);
    var s3 := Run(token, run[..3]);
    assert s3 == State(0, true, [], map[0 := Call(r, Closing(None, Allowed))],
                       [Entered(0), RevokeCalled, Checked(0, false, 0)]);
  }

  /** The cache is bounded, in order of expiry, and always the latest grants. */
  lemma CacheBounded(token: Token, run: seq<Event>)
    ensures var st := Run(token, run);
            && |st.cache| <= 1000 && Nondecreasing(st.cache)
            && LatestGrants(st.cache, GrantsOf(st.trail), st.now)
  {
    RunKeeps(token, run);
    LatestSorted(Run(token, run).cache, GrantsOf(Run(token, run).trail), Run(token, run).now);
  }

  ghost predicate RecentGrant(grants: Cache, r: Request, now: nat) {
    exists i | 0 <= i < |grants| ::
      && grants[i].capability == r.capability && grants[i].scope == r.scope
      && grants[i].until > now && i + 1000 >= |grants|
  }

  lemma CachedIfRecent(p: Cache, grants: Cache, i: nat, r: Request, now: nat)
    requires LatestGrants(p, grants, now) && i < |grants|
    requires Covers(grants[i], r) && grants[i].until > now && i + MAX_AUTO_APPROVE_ENTRIES >= |grants|
    ensures Hits(p, r)
  {
    var n := |grants| - |p|;
    forall k | 0 <= k < n ensures k + MAX_AUTO_APPROVE_ENTRIES < |grants| || grants[k].until <= now {}
    assert p[i - n] == grants[i];
    assert p[i - n] in p;
  }

  lemma HitIsRecent(c: Cache, grants: Cache, r: Request, before: nat, at: nat)
    requires LatestGrants(c, grants, before) && Hits(Prune(c, at), r)
    ensures RecentGrant(grants, r, at)
  {
    PruneLatest(c, grants, before, at);
    var p := Prune(c, at);
    var i :| 0 <= i < |p| && Covers(p[i], r);
    assert p[i] in p && p[i] == grants[|grants| - |p| + i];
  }

  lemma RecentIsHit(c: Cache, grants: Cache, r: Request, before: nat, at: nat)
    requires LatestGrants(c, grants, before) && RecentGrant(grants, r, Max(before, at))
    ensures Hits(Prune(c, at), r)
  {
    PruneLatest(c, grants, before, at);
    var now: nat := Max(before, at);
    var i :|
      && 0 <= i < |grants| && Covers(grants[i], r)
      && grants[i].until > now && i + MAX_AUTO_APPROVE_ENTRIES >= |grants|;
    CachedIfRecent(Prune(c, at), grants, i, r, now);
  }

  /** The cache answers yes exactly when one of the last 1000 grants for the capability and
      scope is still within its 30 seconds, if the time read is the latest; with an older time,
      a yes is still right for that time, and a grant good at the latest time still answers. */
  lemma HitIff(token: Token, run: seq<Event>, r: Request, at: nat)
    ensures var st, grants := Run(token, run), GrantsOf(Run(token, run).trail);
            && (at >= st.now ==> (Hits(Prune(st.cache, at), r) <==> RecentGrant(grants, r, at)))
            && (Hits(Prune(st.cache, at), r) ==> RecentGrant(grants, r, at))
            && (RecentGrant(grants, r, Max(st.now, at)) ==> Hits(Prune(st.cache, at), r))
  {
    RunKeeps(token, run);
    var st, grants := Run(token, run), GrantsOf(Run(token, run).trail);
    if Hits(Prune(st.cache, at), r) { HitIsRecent(st.cache, grants, r, st.now, at); }
    if RecentGrant(grants, r, Max(st.now, at)) { RecentIsHit(st.cache, grants, r, st.now, at); }
  }

  // ---- One call by itself ----

  datatype Verdict = Verdict(confirmed: Option<bool>, reply: Reply, cache: Cache)

  /** What surrounds one call: whether the revocation list names the token, the wall clock, the
      moment of the cache check, the user's answer, and the moment of caching it. */
  datatype Surroundings = Surroundings(listed: bool, wallClock: nat, lookedAt: nat, allow: bool, keptAt: nat)

  function Decide(token: Token, revoked: bool, cache: Cache, r: Request, s: Surroundings): Verdict {
    var refusal := Vetted(token, r.capability, s.listed, s.wallClock);
    var pruned := Prune(cache, s.lookedAt);
    if revoked then Verdict(None, Refused(SessionRevoked), cache)
    else if refusal.Some? then Verdict(None, Refused(refusal.value), cache)
    else if !RequiresConfirmation(r.capability) then Verdict(None, Allowed, cache)
    else if Hits(pruned, r) then Verdict(Some(true), Allowed, pruned)
    else if s.allow then Verdict(Some(true), Allowed, Push(pruned, r, s.keptAt))
    else Verdict(Some(false), Refused(DeniedByUser), pruned)
  }

  /** Exactly when a call that nothing interleaves is allowed: session and token are not revoked,
      the token grants the capability and has not expired, and for the four dangerous
      capabilities an entry for it that has not expired is cached or the user says yes. */
  lemma AllowedIff(token: Token, revoked: bool, cache: Cache, r: Request, s: Surroundings)
    ensures Decide(token, revoked, cache, r, s).reply == Allowed <==>
            && !revoked && !s.listed && r.capability in token.caps && s.wallClock < token.expiresAt
            && (r.capability in {ClipboardRead, FileRead, FileWrite, ShellExec} ==>
                  || s.allow
                  || exists e <- cache ::
                       e.capability == r.capability && e.scope == r.scope && e.until > s.lookedAt)
  {
    Levels(r.capability);
    PruneMembers(cache, s.lookedAt);
    if Hits(Prune(cache, s.lookedAt), r) {
      var e :| e in Prune(cache, s.lookedAt) && Covers(e, r);
      assert e in cache && e.until > s.lookedAt;
    }
    if e :| e in cache && e.capability == r.capability && e.scope == r.scope && e.until > s.lookedAt {
      assert e in Prune(cache, s.lookedAt) && Covers(e, r);
    }
  }

  /** Every answer with its reason, the first that applies, and whether the user was asked. */
  lemma AnswersInOrder(token: Token, revoked: bool, cache: Cache, r: Request, s: Surroundings)
    ensures var v := Decide(token, revoked, cache, r, s);
            && (revoked <==> v.reply == Refused(SessionRevoked))
            && (!revoked && s.listed <==> v.reply == Refused(TokenRevoked))
            && (!revoked && !s.listed && r.capability !in token.caps <==> v.reply == Refused(NotGranted))
            && (!revoked && !s.listed && r.capability in token.caps && token.expiresAt <= s.wallClock
                <==> v.reply == Refused(TokenExpired))
            && v.reply != Refused(LogFailed)
            && (v.reply in {Allowed, Refused(DeniedByUser)}
                && r.capability in {ClipboardRead, FileRead, FileWrite, ShellExec} ==>
                  v.confirmed == Some(v.reply == Allowed))
            && (v.reply !in {Allowed, Refused(DeniedByUser)}
                || r.capability !in {ClipboardRead, FileRead, FileWrite, ShellExec} ==>
                  v.confirmed == None && v.cache == cache)
  {
    Levels(r.capability);
  }

  /** What asking the user leaves in the cache: the unexpired entries, less the oldest if they
      are 1000, and for 30 seconds the new one; with a scope over 4096 bytes just the unexpired. */
  lemma AskedCache(token: Token, cache: Cache, r: Request, s: Surroundings)
    requires r.capability in token.caps && r.capability in {ClipboardRead, FileRead, FileWrite, ShellExec}
    requires !s.listed && s.wallClock < token.expiresAt
    requires forall e <- cache ::
               e.until > s.lookedAt ==> e.capability != r.capability || e.scope != r.scope
    ensures var v, kept := Decide(token, false, cache, r, s), Prune(cache, s.lookedAt);
            && v.reply == (if s.allow then Allowed else Refused(DeniedByUser))
            && v.cache ==
               if !s.allow || |r.scope| > 4096 then kept
               else (if |kept| < 1000 then kept else kept[1..])
                    + [AutoApprove(r.capability, r.scope, s.keptAt + 30_000_000_000)]
  {
    Levels(r.capability);
    PruneMembers(cache, s.lookedAt);
    assert !Hits(Prune(cache, s.lookedAt), r);
  }

  /** Where a call stands after the token checks. */
  function AfterVetting(token: Token, revoked: bool, r: Request, s: Surroundings): Phase {
    var refusal := Vetted(token, r.capability, s.listed, s.wallClock);
    if revoked then Closing(None, Refused(SessionRevoked))
    else if refusal.Some? then Closing(None, Refused(refusal.value))
    else if RequiresConfirmation(r.capability) then Looking
    else Closing(None, Allowed)
  }

  lemma SoloVetting(token: Token, st: State, id: nat, r: Request, s: Surroundings)
    requires NewId(st, id)
    ensures var s2 := Step(Step(st, token, Enter(id, r)), token, Vet(id, s.listed, s.wallClock));
            && s2.calls == st.calls[id := Call(r, AfterVetting(token, st.revoked, r, s))]
            && s2.cache == st.cache && s2.now == st.now
  {
    var s1 := EnterStep(st, id, r);
    assert s1.calls[id].request == r && s1.cache == st.cache && s1.now == st.now;
  }

  function Looked(token: Token, s2: State, id: nat, s: Surroundings): State
    requires s2.now <= s.lookedAt
  {
    Step(Step(s2, token, ReadClock(id, s.lookedAt - s2.now)), token, Look(id))
  }

  /** From the token checks to the closing phase. */
  function Middle(token: Token, s2: State, id: nat, s: Surroundings): State
    requires s2.now <= s.lookedAt <= s.keptAt
  {
    Rest(token, Looked(token, s2, id, s), id, s)
  }

  function Rest(token: Token, looked: State, id: nat, s: Surroundings): State
    requires s.lookedAt <= s.keptAt
  {
    Step(Step(looked, token, Answer(id, s.allow)), token, Keep(id, s.keptAt - s.lookedAt))
  }

  /** Where a look leaves a call that nothing interleaves. */
  lemma SoloLook(token: Token, s2: State, id: nat, r: Request, s: Surroundings)
    requires id in s2.calls && s2.calls[id] == Call(r, Looking) && s2.now <= s.lookedAt
    ensures var looked := Looked(token, s2, id, s);
            var pruned := Prune(s2.cache, s.lookedAt);
            && looked.calls == s2.calls[id := Call(r, if Hits(pruned, r) then Closing(Some(true), Allowed) else Asking)]
            && looked.cache == pruned && looked.now == s.lookedAt
  {
    var timed := ReadClockStep(s2, id, s.lookedAt);
    assert timed.calls == s2.calls[id := Call(r, Timed(s.lookedAt))] && timed.cache == s2.cache;
  }

  lemma SoloAsking(token: Token, looked: State, id: nat, r: Request, s: Surroundings)
    requires id in looked.calls && looked.calls[id] == Call(r, Asking) && looked.now == s.lookedAt <= s.keptAt
    ensures var s5 := Rest(token, looked, id, s);
            var phase := if s.allow then Closing(Some(true), Allowed) else Closing(Some(false), Refused(DeniedByUser));
            && s5.calls == looked.calls[id := Call(r, phase)]
            && s5.cache == if s.allow then Push(looked.cache, r, s.keptAt) else looked.cache
  {
    var s4 := AnswerStep(looked, id, s.allow);
    assert s4.cache == looked.cache && s4.now == looked.now;
  }

  /** A call about to close takes no confirmation step. */
  lemma SoloSkips(token: Token, st: State, id: nat, ticks: nat, allow: bool)
    requires id in st.calls && st.calls[id].phase.Closing?
    ensures Step(st, token, ReadClock(id, ticks)) == st && Step(st, token, Look(id)) == st
    ensures Step(st, token, Answer(id, allow)) == st && Step(st, token, Keep(id, ticks)) == st
  {
  }

  lemma RestSkips(token: Token, looked: State, id: nat, s: Surroundings)
    requires id in looked.calls && looked.calls[id].phase.Closing? && s.lookedAt <= s.keptAt
    ensures Rest(token, looked, id, s) == looked
  {
    SoloSkips(token, looked, id, s.keptAt - s.lookedAt, s.allow);
  }

  lemma SoloHit(token: Token, s2: State, id: nat, r: Request, s: Surroundings)
    requires id in s2.calls && s2.calls[id] == Call(r, Looking) && s2.now <= s.lookedAt <= s.keptAt
    requires Hits(Prune(s2.cache, s.lookedAt), r)
    ensures var s5 := Middle(token, s2, id, s);
            s5.calls == s2.calls[id := Call(r, Closing(Some(true), Allowed))] && s5.cache == Prune(s2.cache, s.lookedAt)
  {
    SoloLook(token, s2, id, r, s);
    HitRest(token, Looked(token, s2, id, s), s2.calls, id, r, s);
  }

  lemma HitRest(token: Token, looked: State, calls: map<nat, Call>, id: nat, r: Request, s: Surroundings)
    requires looked.calls == calls[id := Call(r, Closing(Some(true), Allowed))] && s.lookedAt <= s.keptAt
    ensures var s5 := Rest(token, looked, id, s);
            s5.calls == calls[id := Call(r, Closing(Some(true), Allowed))] && s5.cache == looked.cache
  {
    RestSkips(token, looked, id, s);
  }

  lemma MissRest(token: Token, looked: State, calls: map<nat, Call>, id: nat, r: Request, s: Surroundings)
    requires looked.calls == calls[id := Call(r, Asking)] && looked.now == s.lookedAt <= s.keptAt
    ensures var s5 := Rest(token, looked, id, s);
            var phase := if s.allow then Closing(Some(true), Allowed) else Closing(Some(false), Refused(DeniedByUser));
            && s5.calls == calls[id := Call(r, phase)]
            && s5.cache == if s.allow then Push(looked.cache, r, s.keptAt) else looked.cache
  {
    SoloAsking(token, looked, id, r, s);
  }

  lemma SoloMiss(token: Token, s2: State, id: nat, r: Request, s: Surroundings)
    requires id in s2.calls && s2.calls[id] == Call(r, Looking) && s2.now <= s.lookedAt <= s.keptAt
    requires !Hits(Prune(s2.cache, s.lookedAt), r)
    ensures var s5, pruned := Middle(token, s2, id, s), Prune(s2.cache, s.lookedAt);
            var phase := if s.allow then Closing(Some(true), Allowed) else Closing(Some(false), Refused(DeniedByUser));
            && s5.calls == s2.calls[id := Call(r, phase)]
            && s5.cache == if s.allow then Push(pruned, r, s.keptAt) else pruned
  {
    SoloLook(token, s2, id, r, s);
    MissRest(token, Looked(token, s2, id, s), s2.calls, id, r, s);
  }

  lemma SoloClosing(token: Token, s2: State, id: nat, s: Surroundings)
    requires id in s2.calls && s2.calls[id].phase.Closing? && s2.now <= s.lookedAt <= s.keptAt
    ensures Middle(token, s2, id, s) == s2
  {
    SoloSkips(token, s2, id, s.lookedAt - s2.now, s.allow);
    RestSkips(token, s2, id, s);
  }

  lemma SoloMiddle(token: Token, st: State, s2: State, id: nat, r: Request, s: Surroundings)
    requires s2.calls == st.calls[id := Call(r, AfterVetting(token, st.revoked, r, s))]
    requires s2.now <= s.lookedAt <= s.keptAt
    ensures var v := Decide(token, st.revoked, s2.cache, r, s);
            && Middle(token, s2, id, s).calls == st.calls[id := Call(r, Closing(v.confirmed, v.reply))]
            && Middle(token, s2, id, s).cache == v.cache
  {
    if AfterVetting(token, st.revoked, r, s).Looking? {
      if Hits(Prune(s2.cache, s.lookedAt), r) { SoloHit(token, s2, id, r, s); } else { SoloMiss(token, s2, id, r, s); }
    } else {
      SoloClosing(token, s2, id, s);
    }
  }

  lemma SoloFinish(s5: State, calls: map<nat, Call>, id: nat, r: Request, v: Verdict)
    requires id !in calls && s5.calls == calls[id := Call(r, Closing(v.confirmed, v.reply))] && s5.cache == v.cache
    ensures var s6 := FinishStep(s5, id, true);
            && s6.cache == v.cache && s6.calls == calls
            && s6.trail == s5.trail + [Logged(id, r, v.confirmed, OutcomeOf(v.reply)), Returned(id, r, v.reply)]
  {
    assert s5.calls - {id} == calls;
  }

  /** A call whose steps nothing interleaves decides just that, and logs and returns it. */
  lemma SoloCallDecides(token: Token, st: State, id: nat, r: Request, s: Surroundings)
    requires NewId(st, id) && st.now <= s.lookedAt <= s.keptAt
    ensures var s2 := Step(Step(st, token, Enter(id, r)), token, Vet(id, s.listed, s.wallClock));
            var v := Decide(token, st.revoked, st.cache, r, s);
            && s2.now == st.now
            && var s5 := Middle(token, s2, id, s);
               var s6 := Step(s5, token, Finish(id, true));
               && s6.cache == v.cache && s6.calls == st.calls
               && s6.trail == s5.trail + [Logged(id, r, v.confirmed, OutcomeOf(v.reply)), Returned(id, r, v.reply)]
  {
    SoloVetting(token, st, id, r, s);
    var s2 := Step(Step(st, token, Enter(id, r)), token, Vet(id, s.listed, s.wallClock));
    SoloMiddle(token, st, s2, id, r, s);
    SoloFinish(Middle(token, s2, id, s), st.calls, id, r, Decide(token, st.revoked, st.cache, r, s));
  }

  lemma {:induction false} PruneMembers(c: Cache, now: nat)
    ensures forall e :: e in Prune(c, now) <==> e in c && e.until > now
  {
    if c != [] {
      PruneMembers(c[1..], now);
      assert forall e :: e in c <==> e == c[0] || e in c[1..];
    }
  }

  /** Moving one entry from what is still to come to what is done. */
  lemma PruneNext(c: Cache, now: nat, i: nat, kept: Cache)
    requires i < |c|
    ensures kept + Prune(c[i..], now) == (if c[i].until > now then kept + [c[i]] else kept) + Prune(c[i + 1..], now)
  {
    assert c[i..][0] == c[i] && c[i..][1..] == c[i + 1..];
    var rest := Prune(c[i + 1..], now);
    assert kept + ([c[i]] + rest) == (kept + [c[i]]) + rest;
  }

  class AgentSession {
    const token: Token
    const audit: AuditLog.Log
    var cache: Cache
    var revoked: bool

    constructor (token: Token, audit: AuditLog.Log)
      ensures this.token == token && this.audit == audit
      ensures cache == [] && !revoked
    {
      this.token, this.audit := token, audit;
      cache, revoked := [], false;
    }

    /** Drops the expired entries and keeps the others in order. */
    method Retain(now: nat)
      modifies this`cache
      ensures cache == Prune(old(cache), now)
    {
      var kept: Cache := [];
      for i := 0 to |cache|
        invariant cache == old(cache) && kept + Prune(cache[i..], now) == Prune(cache, now)
      {
        PruneNext(cache, now, i, kept);
        if cache[i].until > now {
          kept := kept + [cache[i]];
        }
      }
      assert kept + [] == kept;
      cache := kept;
    }

    /** Answers whether an entry that was cached covers the request and has not expired; exactly
        the unexpired entries stay. */
    method IsAutoApproved(r: Request, now: nat) returns (hit: bool)
      modifies this`cache
      ensures forall e :: e in cache <==> e in old(cache) && e.until > now
      ensures hit <==> exists e <- old(cache) :: Covers(e, r) && e.until > now
      ensures cache == Prune(old(cache), now)
    {
      PruneMembers(cache, now);
      Retain(now);
      for i := 0 to |cache|
        invariant forall k | 0 <= k < i :: !Covers(cache[k], r)
      {
        if Covers(cache[i], r) {
          assert cache[i] in cache;
          return true;
        }
      }
      return false;
    }

    method AddAutoApprove(r: Request, now: nat)
      modifies this`cache
      ensures cache == Push(old(cache), r, now)
    {
      if |r.scope| > MAX_SCOPE_KEY_BYTES {
        return;
      }
      if |cache| >= MAX_AUTO_APPROVE_ENTRIES {
        cache := cache[1..];
      }
      cache := cache + [AutoApprove(r.capability, r.scope, now + APPROVAL)];
    }

    method Revoke()
      modifies this`revoked
      ensures revoked
    {
      revoked := true;
    }

    method Log(r: Request, confirmed: Option<bool>, outcome: AuditLog.Outcome, now: nat)
      requires audit.Valid()
      modifies audit
      ensures audit.Valid()
      ensures var done := AuditLog.Action(token.jti, r.capability, r.action, confirmed, outcome, now);
              AuditLog.Entries(audit.file) ==
              AuditLog.Entries(old(audit.file))
              + [AuditLog.EntryFor(audit.redact, old(audit.lastHash), old(audit.nextSeq), done)]
    {
      var _ := audit.Append(AuditLog.Action(token.jti, r.capability, r.action, confirmed, outcome, now));
    }

    /** One call: what it decides, the cache it leaves, and its one audit entry. */
    method Authorize(r: Request, s: Surroundings, loggedAt: nat) returns (reply: Reply)
      requires audit.Valid()
      modifies this`cache, audit
      ensures audit.Valid()
      ensures reply == Allowed <==>
                && !revoked && !s.listed && r.capability in token.caps && s.wallClock < token.expiresAt
                && (r.capability in {ClipboardRead, FileRead, FileWrite, ShellExec} ==>
                      || s.allow
                      || exists e <- old(cache) ::
                           e.capability == r.capability && e.scope == r.scope && e.until > s.lookedAt)
      ensures var v := Decide(token, revoked, old(cache), r, s);
              && reply == v.reply && cache == v.cache
              && var done :=
                   AuditLog.Action(token.jti, r.capability, r.action, v.confirmed, OutcomeOf(v.reply), loggedAt);
                 AuditLog.Entries(audit.file) ==
                 AuditLog.Entries(old(audit.file))
                 + [AuditLog.EntryFor(audit.redact, old(audit.lastHash), old(audit.nextSeq), done)]
    {
      AllowedIff(token, revoked, cache, r, s);
      if revoked {
        Log(r, None, AuditLog.Denied, loggedAt);
        return Refused(SessionRevoked);
      }
      if s.listed {
        Log(r, None, AuditLog.Denied, loggedAt);
        return Refused(TokenRevoked);
      }
      if r.capability !in token.caps {
        Log(r, None, AuditLog.Denied, loggedAt);
        return Refused(NotGranted);
      }
      if token.expiresAt <= s.wallClock {
        Log(r, None, AuditLog.Denied, loggedAt);
        return Refused(TokenExpired);
      }
      var confirmed := None;
      if RequiresConfirmation(r.capability) {
        PruneMembers(cache, s.lookedAt);
        var hit := IsAutoApproved(r, s.lookedAt);
        if hit {
          confirmed := Some(true);
        } else if s.allow {
          AddAutoApprove(r, s.keptAt);
          confirmed := Some(true);
        } else {
          confirmed := Some(false);
        }
      }
      var outcome := if confirmed == Some(false) then AuditLog.Denied else AuditLog.Ok;
      Log(r, confirmed, outcome, loggedAt);
      if outcome.Denied? {
        return Refused(DeniedByUser);
      }
      return Allowed;
    }
  }
}
