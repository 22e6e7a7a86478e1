/** The connections of the signalling server as interleaved tasks. A registration is three
    steps: the checks up to the lock, the look at the registry's size, and the insertion; other
    connections may run in between. */
module RendezvousTasks {
  import opened Common
  import opened Rendezvous

  /** Where a connection's current registration stands. */
  datatype Phase =
    | Idle
    | Vetted(reg: Registration, verdict: Verdict)
    | Admitted(reg: Registration, verdict: Verdict)

  /** `myId` is the device the connection registered last. */
  datatype Session = Session(phase: Phase, myId: Option<string>)

  datatype Mark =
    | Accepted(conn: Conn, id: string)
    | Left(conn: Conn, myId: Option<string>)

  datatype Config = Config(strict: bool, maxDevices: nat)

  /** `trail` is history. */
  datatype State = State(registry: Registry, sessions: map<Conn, Session>, trail: seq<Mark>)

  datatype Event =
    | Opens(conn: Conn)
    | Vets(conn: Conn, reg: Registration, rateOk: bool, genuine: bool)
    | LooksForRoom(conn: Conn)
    | Inserts(conn: Conn)
    | Leaves(conn: Conn)

  predicate In(st: State, conn: Conn, phase: Phase) {
    conn in st.sessions && st.sessions[conn].phase == phase
  }

  /** Connections are told apart, so none comes back. */
  predicate Unseen(st: State, conn: Conn) {
    conn !in st.sessions && forall m <- st.trail :: m.conn != conn
  }

  function Moved(st: State, conn: Conn, phase: Phase): State
    requires conn in st.sessions
  {
    st.(sessions := st.sessions[conn := st.sessions[conn].(phase := phase)])
  }

  function VetStep(cfg: Config, st: State, conn: Conn, reg: Registration, rateOk: bool, genuine: bool): State {
    if In(st, conn, Idle) && Refusal(st.registry, reg, rateOk, genuine, cfg.strict).None?
    then Moved(st, conn, Vetted(reg, VerdictOn(reg, genuine))) else st
  }

  function RoomStep(cfg: Config, st: State, conn: Conn): State {
    if conn in st.sessions && st.sessions[conn].phase.Vetted? then
      var p := st.sessions[conn].phase;
      Moved(st, conn, if |st.registry| >= cfg.maxDevices then Idle else Admitted(p.reg, p.verdict))
    else st
  }

  function InsertStep(st: State, conn: Conn): State {
    if conn in st.sessions && st.sessions[conn].phase.Admitted? then
      var p := st.sessions[conn].phase;
      State(
        st.registry[p.reg.deviceId := EntryOf(conn, p.reg, p.verdict)],
        st.sessions[conn := Session(Idle, Some(p.reg.deviceId))],
        st.trail + [Accepted(conn, p.reg.deviceId)]
      )
    else st
  }

  /** A task ends between messages, not within one. */
  function LeaveStep(st: State, conn: Conn): State {
    if In(st, conn, Idle) then
      var myId := st.sessions[conn].myId;
      State(WithoutId(st.registry, myId), st.sessions - {conn}, st.trail + [Left(conn, myId)])
    else st
  }

  function Step(cfg: Config, st: State, e: Event): State {
    match e
    case Opens(conn) => if Unseen(st, conn) then st.(sessions := st.sessions[conn := Session(Idle, None)]) else st
    case Vets(conn, reg, rateOk, genuine) => VetStep(cfg, st, conn, reg, rateOk, genuine)
    case LooksForRoom(conn) => RoomStep(cfg, st, conn)
    case Inserts(conn) => InsertStep(st, conn)
    case Leaves(conn) => LeaveStep(st, conn)
  }

  function RunFrom(cfg: Config, st: State, run: seq<Event>): State {
    if run == [] then st
    else Step(cfg, RunFrom(cfg, st, run[..|run| - 1]), run[|run| - 1])
  }

  function Run(cfg: Config, run: seq<Event>): State {
    RunFrom(cfg, State(map[], map[], []), run)
  }

  /** A registration that nothing interleaves is the sequential one. */
  lemma SoloRegister(cfg: Config, st: State, conn: Conn, reg: Registration, rateOk: bool, genuine: bool)
    requires In(st, conn, Idle)
    ensures var st1 := Step(cfg, st, Vets(conn, reg, rateOk, genuine));
            var st3 := Step(cfg, Step(cfg, st1, LooksForRoom(conn)), Inserts(conn));
            var (registry, reply) := Register(st.registry, conn, reg, rateOk, genuine, cfg.strict, cfg.maxDevices);
            && st3.registry == registry
            && var myId := if reply.RegisterAck? then Some(reg.deviceId) else st.sessions[conn].myId;
               st3.sessions == st.sessions[conn := Session(Idle, myId)]
  {
    var st1 := Step(cfg, st, Vets(conn, reg, rateOk, genuine));
    if Refusal(st.registry, reg, rateOk, genuine, cfg.strict).None? {
      assert st1.sessions[conn].phase == Vetted(reg, VerdictOn(reg, genuine));
    } else {
      assert st.sessions[conn := st.sessions[conn]] == st.sessions;
    }
  }

  // ---- Which entries there are ----

  /** A mark that takes the entry of `id` away from whoever had it. */
  predicate Displaces(m: Mark, id: string) {
    (m.Accepted? && m.id == id) || (m.Left? && m.myId == Some(id))
  }

  /** `conn` was the last to register `id`, and nobody registered under `id` has left since. */
  ghost predicate LastWord(trail: seq<Mark>, conn: Conn, id: string) {
    exists k :: HasLastWord(trail, k, conn, id)
  }

  ghost predicate HasLastWord(trail: seq<Mark>, k: int, conn: Conn, id: string) {
    0 <= k < |trail| && trail[k] == Accepted(conn, id) && forall j | k < j < |trail| :: !Displaces(trail[j], id)
  }

  lemma LastWordNext(trail: seq<Mark>, m: Mark, conn: Conn, id: string)
    ensures LastWord(trail + [m], conn, id) <==>
            m == Accepted(conn, id) || (LastWord(trail, conn, id) && !Displaces(m, id))
  {
    var longer := trail + [m];
    if m == Accepted(conn, id) {
      assert HasLastWord(longer, |trail|, conn, id);
    }
    if LastWord(trail, conn, id) && !Displaces(m, id) {
      var k :| HasLastWord(trail, k, conn, id);
      assert HasLastWord(longer, k, conn, id);
    }
    if LastWord(longer, conn, id) && m != Accepted(conn, id) {
      var k :| HasLastWord(longer, k, conn, id);
      assert !Displaces(longer[|trail|], id);
      assert forall j | k < j < |trail| :: trail[j] == longer[j];
      assert HasLastWord(trail, k, conn, id);
    }
  }

  /** Who is listed under an id, after any run: the connection that registered it last, unless
      some connection registered under that id has left since. */
  lemma {:induction false} ListedIff(cfg: Config, run: seq<Event>, conn: Conn, id: string)
    ensures var st := Run(cfg, run);
            id in st.registry && st.registry[id].owner == conn <==> LastWord(st.trail, conn, id)
  {
    if run != [] {
      var before, last := run[..|run| - 1], run[|run| - 1];
      ListedIff(cfg, before, conn, id);
      var st, st' := Run(cfg, before), Run(cfg, run);
      if st'.trail != st.trail { LastWordNext(st.trail, st'.trail[|st.trail|], conn, id); }
    }
  }

  /** A leaving mark names the id the connection stood for, and is its last. */
  ghost predicate LeftOk(st: State, j: int)
    requires 0 <= j < |st.trail|
  {
    var m := st.trail[j];
    m.Left? ==>
      && m.conn !in st.sessions && m.myId == Holder(st.trail[..j], m.conn)
      && forall i | j < i < |st.trail| :: st.trail[i].conn != m.conn
  }

  /** Sessions know the id they registered last, and who made a mark is here or has left. */
  ghost predicate SessionsOk(st: State) {
    && (forall conn | conn in st.sessions :: Holder(st.trail, conn) == st.sessions[conn].myId)
    && (forall j | 0 <= j < |st.trail| :: LeftOk(st, j))
    && (forall j | 0 <= j < |st.trail| :: st.trail[j].conn in st.sessions || HasLeft(st.trail, st.trail[j].conn))
  }

  ghost predicate HasLeft(trail: seq<Mark>, conn: Conn) {
    exists j :: 0 <= j < |trail| && trail[j].Left? && trail[j].conn == conn
  }

  /** The id a connection stands for after these marks: that of its last registration. */
  function Holder(trail: seq<Mark>, conn: Conn): Option<string> {
    if trail == [] then None
    else
      var last := trail[|trail| - 1];
      if last.conn != conn then Holder(trail[..|trail| - 1], conn)
      else if last.Accepted? then Some(last.id) else None
  }

  lemma HolderNext(trail: seq<Mark>, m: Mark, conn: Conn)
    ensures Holder(trail + [m], conn) ==
            if m.conn != conn then Holder(trail, conn) else if m.Accepted? then Some(m.id) else None
  {
    assert (trail + [m])[..|trail|] == trail;
  }

  lemma {:induction false} NoMarks(trail: seq<Mark>, conn: Conn)
    requires forall m <- trail :: m.conn != conn
    ensures Holder(trail, conn) == None
  {
    if trail != [] { NoMarks(trail[..|trail| - 1], conn); }
  }

  lemma {:induction false} HolderSame(trail: seq<Mark>, conn: Conn, a: nat, b: nat)
    requires a <= b <= |trail| && forall j | a <= j < b :: trail[j].conn != conn
    ensures Holder(trail[..a], conn) == Holder(trail[..b], conn)
  {
    if a < b {
      assert trail[..b][..b - 1] == trail[..b - 1];
      HolderSame(trail, conn, a, b - 1);
    }
  }

  /** Who stands for `id` at `b` and has not registered it since `a` did so at `a`, silently. */
  lemma {:induction false} HolderFrom(trail: seq<Mark>, conn: Conn, id: string, a: nat, b: nat)
    requires a <= b <= |trail| && Holder(trail[..b], conn) == Some(id)
    requires forall j | a <= j < b :: trail[j] != Accepted(conn, id)
    ensures Holder(trail[..a], conn) == Some(id) && forall j | a <= j < b :: trail[j].conn != conn
  {
    if a < b {
      assert trail[..b][..b - 1] == trail[..b - 1];
      HolderFrom(trail, conn, id, a, b - 1);
    }
  }

  lemma MarkKept(st: State, st': State, m: Mark)
    requires SessionsOk(st) && m.conn in st.sessions && st'.trail == st.trail + [m]
    requires m.Accepted? ==> st'.sessions.Keys == st.sessions.Keys && st'.sessions[m.conn].myId == Some(m.id)
    requires m.Left? ==> m.myId == st.sessions[m.conn].myId && st'.sessions.Keys == st.sessions.Keys - {m.conn}
    requires forall conn | conn in st'.sessions && conn != m.conn :: st'.sessions[conn] == st.sessions[conn]
    ensures SessionsOk(st')
  {
    forall conn ensures Holder(st'.trail, conn) ==
      if m.conn != conn then Holder(st.trail, conn) else if m.Accepted? then Some(m.id) else None
    {
      HolderNext(st.trail, m, conn);
    }
    forall j | 0 <= j < |st'.trail| ensures LeftOk(st', j) {
      assert st'.trail[..j] == if j < |st.trail| then st.trail[..j] else st.trail;
      if j < |st.trail| { assert LeftOk(st, j); }
    }
    forall j | 0 <= j < |st'.trail| ensures st'.trail[j].conn in st'.sessions || HasLeft(st'.trail, st'.trail[j].conn) {
      LeftStays(st.trail, m, st'.trail[j].conn);
    }
  }

  lemma LeftStays(trail: seq<Mark>, m: Mark, conn: Conn)
    ensures HasLeft(trail, conn) || (m.Left? && m.conn == conn) ==> HasLeft(trail + [m], conn)
  {
    if HasLeft(trail, conn) {
      var j :| 0 <= j < |trail| && trail[j].Left? && trail[j].conn == conn;
      assert (trail + [m])[j] == trail[j];
    } else {
      assert (trail + [m])[|trail|] == m;
    }
  }

  /** Steps that leave no mark. */
  lemma UnmarkedKept(st: State, st': State)
    requires SessionsOk(st) && st'.trail == st.trail && st.sessions.Keys <= st'.sessions.Keys
    requires forall conn | conn in st.sessions :: st'.sessions[conn].myId == st.sessions[conn].myId
    requires forall conn | conn in st'.sessions && conn !in st.sessions ::
               Unseen(st, conn) && st'.sessions[conn].myId == None
    ensures SessionsOk(st')
  {
    forall conn | conn in st'.sessions && conn !in st.sessions ensures Holder(st.trail, conn) == None {
      NoMarks(st.trail, conn);
    }
    forall j | 0 <= j < |st'.trail| ensures LeftOk(st', j) {
      assert LeftOk(st, j);
    }
  }

  lemma SessionsKept(cfg: Config, st: State, e: Event)
    requires SessionsOk(st)
    ensures SessionsOk(Step(cfg, st, e))
  {
    var st' := Step(cfg, st, e);
    if st'.trail == st.trail { UnmarkedKept(st, st'); } else { MarkKept(st, st', st'.trail[|st.trail|]); }
  }

  lemma {:induction false} RunKeepsSessions(cfg: Config, run: seq<Event>)
    ensures SessionsOk(Run(cfg, run))
  {
    if run != [] {
      RunKeepsSessions(cfg, run[..|run| - 1]);
      SessionsKept(cfg, Run(cfg, run[..|run| - 1]), run[|run| - 1]);
    }
  }

  // ---- Draining ----

  ghost predicate RegistersAfter(trail: seq<Mark>, k: int, conn: Conn) {
    exists j :: k < j < |trail| && 0 <= j && trail[j].Accepted? && trail[j].conn == conn
  }

  ghost predicate LastAccepted(trail: seq<Mark>, k: int, id: string) {
    && 0 <= k < |trail| && trail[k].Accepted? && trail[k].id == id
    && forall j | k < j < |trail| :: trail[j].Accepted? ==> trail[j].id != id
  }

  /** When `id` was last registered, every connection that stood for it, the new one included,
      registered something else later. */
  ghost predicate Orphaned(trail: seq<Mark>, id: string) {
    exists k :: LastAccepted(trail, k, id)
                && forall conn | Holder(trail[..k + 1], conn) == Some(id) :: RegistersAfter(trail, k, conn)
  }

  /** Someone who stood for `id` at `k` and later does not, without leaving in between, has
      registered again. */
  lemma StoppedByRegistering(t: seq<Mark>, id: string, k: nat, conn: Conn, j: nat)
    requires k < j <= |t| && Holder(t[..k + 1], conn) == Some(id) && Holder(t[..j], conn) != Some(id)
    requires forall i | k < i < j && t[i].conn == conn :: t[i].Accepted?
    ensures RegistersAfter(t, k, conn)
  {
    if i :| k < i < j && t[i].conn == conn {
      assert t[i].Accepted?;
    } else {
      HolderSame(t, conn, k + 1, j);
    }
  }

  lemma GoneAfterLeaving(st: State, j: nat, n: nat)
    requires SessionsOk(st) && j < n <= |st.trail| && st.trail[j].Left?
    ensures Holder(st.trail[..n], st.trail[j].conn) == None
  {
    assert LeftOk(st, j);
    HolderSame(st.trail, st.trail[j].conn, j + 1, n);
    assert st.trail[..j + 1][j] == st.trail[j];
  }

  lemma OnlyOneLeft(st: State, i: nat, j: nat)
    requires SessionsOk(st) && i < j < |st.trail| && st.trail[i].conn == st.trail[j].conn
    ensures st.trail[i].Accepted?
  {
    assert LeftOk(st, i);
  }

  lemma LeftOverIsOrphaned(st: State, id: string, owner: Conn)
    requires SessionsOk(st) && st.sessions == map[] && LastWord(st.trail, owner, id)
    ensures Orphaned(st.trail, id)
  {
    var t := st.trail;
    var k :| HasLastWord(t, k, owner, id);
    assert LastAccepted(t, k, id);
    forall conn | Holder(t[..k + 1], conn) == Some(id) ensures RegistersAfter(t, k, conn) {
      RegisteredElsewhere(st, id, k, conn);
    }
  }

  lemma RegisteredElsewhere(st: State, id: string, k: nat, conn: Conn)
    requires SessionsOk(st) && st.sessions == map[] && k < |st.trail| && Holder(st.trail[..k + 1], conn) == Some(id)
    requires forall j | k < j < |st.trail| :: !Displaces(st.trail[j], id)
    ensures RegistersAfter(st.trail, k, conn)
  {
    var t := st.trail;
    AllHaveLeft(st, id, k, conn);
    var j :| 0 <= j < |t| && t[j].Left? && t[j].conn == conn;
    if j <= k { GoneAfterLeaving(st, j, k + 1); }
    assert LeftOk(st, j) && !Displaces(t[j], id);
    forall i | k < i < j && t[i].conn == conn ensures t[i].Accepted? { OnlyOneLeft(st, i, j); }
    StoppedByRegistering(t, id, k, conn, j);
  }

  lemma AllHaveLeft(st: State, id: string, k: nat, conn: Conn)
    requires SessionsOk(st) && st.sessions == map[] && k < |st.trail| && Holder(st.trail[..k + 1], conn).Some?
    ensures HasLeft(st.trail, conn)
  {
    var i := HolderHasMark(st.trail[..k + 1], conn);
    assert st.trail[i].conn == conn;
  }

  lemma {:induction false} HolderHasMark(trail: seq<Mark>, conn: Conn) returns (i: nat)
    requires Holder(trail, conn).Some?
    ensures i < |trail| && trail[i].conn == conn
  {
    i := |trail| - 1;
    if trail[i].conn != conn { i := HolderHasMark(trail[..|trail| - 1], conn); }
  }

  /** Who registers after the last registration of `id` leaves under another id. */
  lemma LeaverMovedOn(st: State, id: string, k: nat, j: nat)
    requires SessionsOk(st) && LastAccepted(st.trail, k, id) && k < j < |st.trail|
    requires st.trail[j].Left? && RegistersAfter(st.trail, k, st.trail[j].conn)
    ensures st.trail[j].myId != Some(id)
  {
    var t, conn := st.trail, st.trail[j].conn;
    var i :| k < i < |t| && t[i].Accepted? && t[i].conn == conn;
    assert LeftOk(st, j) && i < j;
    if Holder(t[..j], conn) == Some(id) { HolderFrom(t, conn, id, k + 1, j); }
  }

  lemma NobodyLeavesIt(st: State, id: string, k: nat, j: nat)
    requires SessionsOk(st) && LastAccepted(st.trail, k, id) && k < j < |st.trail|
    requires forall conn | Holder(st.trail[..k + 1], conn) == Some(id) :: RegistersAfter(st.trail, k, conn)
    ensures st.trail[j].Left? ==> st.trail[j].myId != Some(id)
  {
    var t := st.trail;
    if t[j].Left? {
      assert LeftOk(st, j);
      if Holder(t[..k + 1], t[j].conn) == Some(id) {
        LeaverMovedOn(st, id, k, j);
      } else if Holder(t[..j], t[j].conn) == Some(id) {
        HolderFrom(t, t[j].conn, id, k + 1, j);
      }
    }
  }

  lemma OrphanedIsLeftOver(st: State, id: string) returns (owner: Conn)
    requires SessionsOk(st) && Orphaned(st.trail, id)
    ensures LastWord(st.trail, owner, id)
  {
    var t := st.trail;
    var k :| LastAccepted(t, k, id)
             && forall conn | Holder(t[..k + 1], conn) == Some(id) :: RegistersAfter(t, k, conn);
    forall j | k < j < |t| ensures !Displaces(t[j], id) { NobodyLeavesIt(st, id, k, j); }
    owner := t[k].conn;
    assert HasLastWord(t, k, owner, id);
  }

  /** What is left once every connection is gone: an id stays listed exactly when it is
      orphaned. */
  lemma LeftOverIff(cfg: Config, run: seq<Event>, id: string)
    requires Run(cfg, run).sessions == map[]
    ensures id in Run(cfg, run).registry <==> Orphaned(Run(cfg, run).trail, id)
  {
    RunKeepsSessions(cfg, run);
    var st := Run(cfg, run);
    if id in st.registry {
      ListedIff(cfg, run, st.registry[id].owner, id);
      LeftOverIsOrphaned(st, id, st.registry[id].owner);
    }
    if Orphaned(st.trail, id) {
      var owner := OrphanedIsLeftOver(st, id);
      ListedIff(cfg, run, owner, id);
    }
  }

  /** The registry is empty once every connection is gone exactly when no id is orphaned, */
  lemma DrainsIff(cfg: Config, run: seq<Event>)
    requires Run(cfg, run).sessions == map[]
    ensures Run(cfg, run).registry == map[] <==> forall id :: !Orphaned(Run(cfg, run).trail, id)
  {
    var st := Run(cfg, run);
    forall id ensures id in st.registry <==> Orphaned(st.trail, id) { LeftOverIff(cfg, run, id); }
    if forall id :: !Orphaned(st.trail, id) { assert st.registry.Keys == {}; }
  }

  ghost predicate TwoIds(t: seq<Mark>, i: int, j: int) {
    0 <= i < j < |t| && t[i].Accepted? && t[j].Accepted? && t[i].conn == t[j].conn && t[i].id != t[j].id
  }

  lemma OrphanedByTwoIds(t: seq<Mark>, id: string) returns (i: int, j: int)
    requires Orphaned(t, id)
    ensures TwoIds(t, i, j)
  {
    i :| LastAccepted(t, i, id) && forall conn | Holder(t[..i + 1], conn) == Some(id) :: RegistersAfter(t, i, conn);
    assert t[..i + 1][i] == t[i] && Holder(t[..i + 1], t[i].conn) == Some(id);
    assert RegistersAfter(t, i, t[i].conn);
    j :| i < j < |t| && t[j].Accepted? && t[j].conn == t[i].conn;
  }

  /** and so whenever each connection keeps to one id. */
  lemma DrainsWhenFaithful(cfg: Config, run: seq<Event>)
    requires Run(cfg, run).sessions == map[]
    requires forall i, j :: !TwoIds(Run(cfg, run).trail, i, j)
    ensures Run(cfg, run).registry == map[]
  {
    if id :| Orphaned(Run(cfg, run).trail, id) {
      var i, j := OrphanedByTwoIds(Run(cfg, run).trail, id);
    }
    DrainsIff(cfg, run);
  }

  // ---- Runs in parts ----

  lemma {:induction false} RunConcat(cfg: Config, st: State, a: seq<Event>, b: seq<Event>)
    ensures RunFrom(cfg, st, a + b) == RunFrom(cfg, RunFrom(cfg, st, a), b)
  {
    if b == [] {
      assert a + b == a;
    } else {
      RunConcat(cfg, st, a, b[..|b| - 1]);
      assert (a + b)[..|a + b| - 1] == a + b[..|b| - 1];
    }
  }

  lemma RunFirst(cfg: Config, st: State, e: Event, rest: seq<Event>)
    ensures RunFrom(cfg, st, [e] + rest) == RunFrom(cfg, Step(cfg, st, e), rest)
  {
    RunConcat(cfg, st, [e], rest);
    assert [e][..0] == [];
    assert RunFrom(cfg, st, []) == st;
  }

  lemma RunLast(cfg: Config, st: State, run: seq<Event>, e: Event)
    ensures RunFrom(cfg, st, run + [e]) == Step(cfg, RunFrom(cfg, st, run), e)
  {
    assert (run + [e])[..|run|] == run;
  }

  /** The three steps of one registration. */
  function Solo(conn: Conn, reg: Registration, genuine: bool): seq<Event> {
    [Vets(conn, reg, true, genuine), LooksForRoom(conn), Inserts(conn)]
  }

  lemma SoloRun(cfg: Config, st: State, conn: Conn, reg: Registration, genuine: bool)
    requires In(st, conn, Idle)
    ensures RunFrom(cfg, st, Solo(conn, reg, genuine)) ==
            Step(cfg, Step(cfg, Step(cfg, st, Vets(conn, reg, true, genuine)), LooksForRoom(conn)), Inserts(conn))
  {
    var e1, e2, e3 := Vets(conn, reg, true, genuine), LooksForRoom(conn), Inserts(conn);
    assert [e1, e2, e3] == [e1] + ([e2] + ([e3] + []));
    RunFirst(cfg, st, e1, [e2] + ([e3] + []));
    RunFirst(cfg, Step(cfg, st, e1), e2, [e3] + []);
    RunFirst(cfg, Step(cfg, Step(cfg, st, e1), e2), e3, []);
  }

  /** A registration that is not refused, with room left. */
  lemma SoloAccepted(cfg: Config, st: State, conn: Conn, reg: Registration, genuine: bool)
    requires In(st, conn, Idle) && |st.registry| < cfg.maxDevices
    requires Refusal(st.registry, reg, true, genuine, cfg.strict).None?
    ensures RunFrom(cfg, st, Solo(conn, reg, genuine)) ==
            State(
              st.registry[reg.deviceId := EntryOf(conn, reg, VerdictOn(reg, genuine))],
              st.sessions[conn := Session(Idle, Some(reg.deviceId))],
              st.trail + [Accepted(conn, reg.deviceId)]
            )
  {
    var verdict, done := VerdictOn(reg, genuine), Session(Idle, Some(reg.deviceId));
    SoloRun(cfg, st, conn, reg, genuine);
    var st1 := Step(cfg, st, Vets(conn, reg, true, genuine));
    assert st1.sessions[conn].phase == Vetted(reg, verdict);
    var st2 := Step(cfg, st1, LooksForRoom(conn));
    assert st2.sessions[conn].phase == Admitted(reg, verdict) && st2.registry == st.registry;
    assert st2.sessions[conn := done] == st.sessions[conn := done];
  }

  /** A registration without key or signature. */
  function Plain(id: string): Registration {
    Registration(id, "", None, None, None, None)
  }

  /** Two connections, nothing registered. */
  const TwoOpen: State := State(map[], map[1 := Session(Idle, None), 2 := Session(Idle, None)], [])

  lemma OpenTwo(cfg: Config, rest: seq<Event>)
    ensures Run(cfg, [Opens(1)] + ([Opens(2)] + rest)) == RunFrom(cfg, TwoOpen, rest)
  {
    var st0, st1 := State(map[], map[], []), State(map[], map[1 := Session(Idle, None)], []);
    RunFirst(cfg, st0, Opens(1), [Opens(2)] + rest);
    assert Step(cfg, st0, Opens(1)) == st1;
    RunFirst(cfg, st1, Opens(2), rest);
    assert Step(cfg, st1, Opens(2)) == TwoOpen;
  }

  /** A connection registers `a`, then `b`, and leaves: everyone is gone, and `a` stays listed. */
  lemma FirstIdStays(a: string, b: string)
    requires a != b && |a| <= 256 && |b| <= 256
    ensures var rest := Solo(1, Plain(a), false) + (Solo(1, Plain(b), false) + [Leaves(1)]);
            var st := Run(Config(false, 2), [Opens(1)] + rest);
            st.sessions == map[] && st.registry == map[a := EntryOf(1, Plain(a), Unsigned)]
  {
    var cfg, st1 := Config(false, 2), State(map[], map[1 := Session(Idle, None)], []);
    var last := [Leaves(1)] + [];
    RunFirst(cfg, State(map[], map[], []), Opens(1), Solo(1, Plain(a), false) + (Solo(1, Plain(b), false) + last));
    RunConcat(cfg, st1, Solo(1, Plain(a), false), Solo(1, Plain(b), false) + last);
    SoloAccepted(cfg, st1, 1, Plain(a), false);
    var st2 := RunFrom(cfg, st1, Solo(1, Plain(a), false));
    RunConcat(cfg, st2, Solo(1, Plain(b), false), last);
    SoloAccepted(cfg, st2, 1, Plain(b), false);
    RunFirst(cfg, RunFrom(cfg, st2, Solo(1, Plain(b), false)), Leaves(1), []);
    assert last == [Leaves(1)];
  }

  /** Two connections register one id and the first leaves: the second is still there, and is
      no longer listed. */
  lemma SuccessorUnlisted(id: string)
    requires |id| <= 256
    ensures var rest := Solo(1, Plain(id), false) + (Solo(2, Plain(id), false) + [Leaves(1)]);
            var st := Run(Config(false, 2), [Opens(1)] + ([Opens(2)] + rest));
            st.sessions == map[2 := Session(Idle, Some(id))] && st.registry == map[]
  {
    var cfg, st2, last := Config(false, 2), TwoOpen, [Leaves(1)] + [];
    OpenTwo(cfg, Solo(1, Plain(id), false) + (Solo(2, Plain(id), false) + last));
    RunConcat(cfg, st2, Solo(1, Plain(id), false), Solo(2, Plain(id), false) + last);
    SoloAccepted(cfg, st2, 1, Plain(id), false);
    var st3 := RunFrom(cfg, st2, Solo(1, Plain(id), false));
    RunConcat(cfg, st3, Solo(2, Plain(id), false), last);
    SoloAccepted(cfg, st3, 2, Plain(id), false);
    var st4 := RunFrom(cfg, st3, Solo(2, Plain(id), false));
    RunFirst(cfg, st4, Leaves(1), []);
    FirstLeaves(st4, id);
    assert last == [Leaves(1)];
  }

  lemma FirstLeaves(st: State, id: string)
    requires st.registry.Keys == {id}
    requires st.sessions == map[1 := Session(Idle, Some(id)), 2 := Session(Idle, Some(id))]
    ensures LeaveStep(st, 1).sessions == map[2 := Session(Idle, Some(id))] && LeaveStep(st, 1).registry == map[]
  {
  }

  /** A verified, locked device, taken over by another connection without a valid signature. */
  lemma VerifiedDeviceTakenOver()
    ensures var reg := Registration("device", "key", Some("192.0.2.1"), Some(4000), Some("signature"), Some(0));
            var first := [Opens(1)] + ([Opens(2)] + Solo(1, reg, true));
            var st := Run(Config(false, 2), first);
            var st' := Run(Config(false, 2), first + Solo(2, WithoutTime("device", "key"), false));
            && st.registry == map["device" := Entry(1, Some("192.0.2.1"), Some(4000), Some("key"), true)]
            && st'.registry == map["device" := Entry(2, None, None, Some("key"), false)]
  {
    var reg := Registration("device", "key", Some("192.0.2.1"), Some(4000), Some("signature"), Some(0));
    var cfg, second := Config(false, 2), Solo(2, WithoutTime("device", "key"), false);
    OpenTwo(cfg, Solo(1, reg, true));
    SoloAccepted(cfg, TwoOpen, 1, reg, true);
    var first := [Opens(1)] + ([Opens(2)] + Solo(1, reg, true));
    RunConcat(cfg, State(map[], map[], []), first, second);
    SoloAccepted(cfg, Run(cfg, first), 2, WithoutTime("device", "key"), false);
  }

  // ---- The cap when registrations overlap ----

  /** Connections with a registration under way. */
  function InFlight(st: State): set<Conn> {
    set conn | conn in st.sessions && st.sessions[conn].phase != Idle
  }

  function Waiting(st: State): set<Conn> {
    set conn | conn in st.sessions && st.sessions[conn].phase.Admitted?
  }

  ghost predicate AtMost(cfg: Config, run: seq<Event>, n: nat) {
    forall i | 0 <= i <= |run| :: |InFlight(Run(cfg, run[..i]))| <= n
  }

  lemma Subset(a: set<Conn>, b: set<Conn>)
    requires a <= b
    ensures |a| <= |b|
  {
    assert b == a + (b - a);
  }

  lemma SameWaiting(st: State, st': State, conn: Conn)
    requires st'.sessions - {conn} == st.sessions - {conn}
    requires conn in st.sessions ==> !st.sessions[conn].phase.Admitted?
    requires conn in st'.sessions ==> !st'.sessions[conn].phase.Admitted?
    ensures Waiting(st') == Waiting(st)
  {
    forall c | c != conn ensures c in Waiting(st') <==> c in Waiting(st) {
      assert c in st.sessions - {conn} <==> c in st.sessions;
      assert c in st'.sessions - {conn} <==> c in st'.sessions;
      if c in st.sessions && c in st'.sessions { assert (st'.sessions - {conn})[c] == (st.sessions - {conn})[c]; }
    }
  }

  lemma LookRoom(cfg: Config, st: State, conn: Conn, n: nat)
    requires n > 0 && |st.registry| + |Waiting(st)| <= cfg.maxDevices + n - 1
    requires |InFlight(RoomStep(cfg, st, conn))| <= n
    ensures |RoomStep(cfg, st, conn).registry| + |Waiting(RoomStep(cfg, st, conn))| <= cfg.maxDevices + n - 1
  {
    var st' := RoomStep(cfg, st, conn);
    if conn in st.sessions && st.sessions[conn].phase.Vetted? {
      if |st.registry| >= cfg.maxDevices { SameWaiting(st, st', conn); } else { Subset(Waiting(st'), InFlight(st')); }
    }
  }

  lemma LeaveRoom(st: State, conn: Conn)
    ensures var st' := LeaveStep(st, conn);
            |st'.registry| + |Waiting(st')| <= |st.registry| + |Waiting(st)|
  {
    var st' := LeaveStep(st, conn);
    if In(st, conn, Idle) {
      SameWaiting(st, st', conn);
      FewerEntries(st'.registry, st.registry);
    }
  }

  lemma RoomKept(cfg: Config, st: State, e: Event, n: nat)
    requires n > 0 && |st.registry| + |Waiting(st)| <= cfg.maxDevices + n - 1
    requires |InFlight(Step(cfg, st, e))| <= n
    ensures var st' := Step(cfg, st, e);
            |st'.registry| + |Waiting(st')| <= cfg.maxDevices + n - 1
  {
    match e
    case Opens(conn) => if Unseen(st, conn) { SameWaiting(st, Step(cfg, st, e), conn); }
    case Vets(conn, _, _, _) => if Step(cfg, st, e) != st { SameWaiting(st, Step(cfg, st, e), conn); }
    case LooksForRoom(conn) => LookRoom(cfg, st, conn, n);
    case Inserts(conn) => InsertRoom(st, conn);
    case Leaves(conn) => LeaveRoom(st, conn);
  }

  lemma FewerEntries(r: Registry, r': Registry)
    requires r.Keys <= r'.Keys
    ensures |r| <= |r'|
  {
    assert r'.Keys == r.Keys + (r'.Keys - r.Keys);
    assert |r.Keys| == |r| && |r'.Keys| == |r'|;
  }

  lemma InsertRoom(st: State, conn: Conn)
    ensures var st' := InsertStep(st, conn);
            |st'.registry| + |Waiting(st')| <= |st.registry| + |Waiting(st)|
  {
    var st' := InsertStep(st, conn);
    if conn in st.sessions && st.sessions[conn].phase.Admitted? {
      assert conn in Waiting(st) && Waiting(st') == Waiting(st) - {conn};
      assert st'.registry.Keys == st.registry.Keys + {st.sessions[conn].phase.reg.deviceId};
      assert |st'.registry.Keys| == |st'.registry| && |st.registry.Keys| == |st.registry|;
    }
  }

  /** With at most `n` registrations under way at once, the registry never holds more than
      `n - 1` entries beyond its cap; one after the other, it never exceeds the cap. */
  lemma {:induction false} OverlapBound(cfg: Config, run: seq<Event>, n: nat)
    requires n > 0 && AtMost(cfg, run, n)
    ensures |Run(cfg, run).registry| + |Waiting(Run(cfg, run))| <= cfg.maxDevices + n - 1
  {
    if run == [] {
      assert Waiting(Run(cfg, run)) == {};
    } else {
      var before := run[..|run| - 1];
      forall i | 0 <= i <= |before| ensures |InFlight(Run(cfg, before[..i]))| <= n { assert before[..i] == run[..i]; }
      OverlapBound(cfg, before, n);
      assert run[..|run|] == run;
      RoomKept(cfg, Run(cfg, before), run[|run| - 1], n);
    }
  }

  // ---- ... is reached ----

  /** `k` of these connections pass the checks, then find room, then insert. */
  function VetEach(cs: seq<Conn>, ids: seq<string>, k: nat): seq<Event>
    requires k <= |cs| == |ids|
  {
    if k == 0 then [] else VetEach(cs, ids, k - 1) + [Vets(cs[k - 1], Plain(ids[k - 1]), true, false)]
  }

  function LookEach(cs: seq<Conn>, k: nat): seq<Event>
    requires k <= |cs|
  {
    if k == 0 then [] else LookEach(cs, k - 1) + [LooksForRoom(cs[k - 1])]
  }

  function InsertEach(cs: seq<Conn>): seq<Event> {
    if cs == [] then [] else [Inserts(cs[0])] + InsertEach(cs[1..])
  }

  function Overlapping(cs: seq<Conn>, ids: seq<string>): seq<Event>
    requires |cs| == |ids|
  {
    VetEach(cs, ids, |cs|) + (LookEach(cs, |cs|) + InsertEach(cs))
  }

  ghost predicate Distinct<T(!new)>(xs: seq<T>) {
    forall i, j | 0 <= i < j < |xs| :: xs[i] != xs[j]
  }

  /** The first `k` connections have found room, the others have passed the checks. */
  ghost predicate Looked(st: State, cs: seq<Conn>, ids: seq<string>, k: nat)
    requires |cs| == |ids|
  {
    forall i | 0 <= i < |cs| ::
      In(st, cs[i], if i < k then Admitted(Plain(ids[i]), Unsigned) else Vetted(Plain(ids[i]), Unsigned))
  }

  /** The first `k` connections have passed the checks, the others are idle. */
  ghost predicate Checked(st: State, cs: seq<Conn>, ids: seq<string>, k: nat)
    requires |cs| == |ids|
  {
    forall i | 0 <= i < |cs| :: In(st, cs[i], if i < k then Vetted(Plain(ids[i]), Unsigned) else Idle)
  }

  lemma OneVetted(cfg: Config, st: State, cs: seq<Conn>, ids: seq<string>, k: nat)
    requires k < |cs| == |ids| && Distinct(cs) && !cfg.strict && Checked(st, cs, ids, k)
    requires |ids[k]| <= 256 && ids[k] !in st.registry
    ensures var st' := VetStep(cfg, st, cs[k], Plain(ids[k]), true, false);
            st'.registry == st.registry && Checked(st', cs, ids, k + 1)
  {
    assert In(st, cs[k], Idle);
  }

  lemma {:induction false} EachVetted(cfg: Config, st: State, cs: seq<Conn>, ids: seq<string>, k: nat)
    requires k <= |cs| == |ids| && Distinct(cs) && !cfg.strict && Checked(st, cs, ids, 0)
    requires forall i | 0 <= i < |cs| :: |ids[i]| <= 256 && ids[i] !in st.registry
    ensures var st' := RunFrom(cfg, st, VetEach(cs, ids, k));
            st'.registry == st.registry && Checked(st', cs, ids, k)
  {
    if k > 0 {
      var before := RunFrom(cfg, st, VetEach(cs, ids, k - 1));
      EachVetted(cfg, st, cs, ids, k - 1);
      OneVetted(cfg, before, cs, ids, k - 1);
      var last := Vets(cs[k - 1], Plain(ids[k - 1]), true, false);
      assert RunFrom(cfg, st, VetEach(cs, ids, k)) == Step(cfg, before, last) by {
        RunLast(cfg, st, VetEach(cs, ids, k - 1), last);
      }
    }
  }

  lemma OneAdmitted(cfg: Config, st: State, cs: seq<Conn>, ids: seq<string>, k: nat)
    requires k < |cs| == |ids| && Distinct(cs) && |st.registry| < cfg.maxDevices && Looked(st, cs, ids, k)
    ensures RoomStep(cfg, st, cs[k]).registry == st.registry && Looked(RoomStep(cfg, st, cs[k]), cs, ids, k + 1)
  {
    assert In(st, cs[k], Vetted(Plain(ids[k]), Unsigned));
  }

  lemma {:induction false} EachAdmitted(cfg: Config, st: State, cs: seq<Conn>, ids: seq<string>, k: nat)
    requires k <= |cs| == |ids| && Distinct(cs) && |st.registry| < cfg.maxDevices && Looked(st, cs, ids, 0)
    ensures RunFrom(cfg, st, LookEach(cs, k)).registry == st.registry
    ensures Looked(RunFrom(cfg, st, LookEach(cs, k)), cs, ids, k)
  {
    if k > 0 {
      var before := RunFrom(cfg, st, LookEach(cs, k - 1));
      EachAdmitted(cfg, st, cs, ids, k - 1);
      OneAdmitted(cfg, before, cs, ids, k - 1);
      assert RunFrom(cfg, st, LookEach(cs, k)) == RoomStep(cfg, before, cs[k - 1]) by {
        RunLast(cfg, st, LookEach(cs, k - 1), LooksForRoom(cs[k - 1]));
      }
    }
  }

  /** These connections are about to insert new ids. */
  ghost predicate AllAdmitted(st: State, cs: seq<Conn>, ids: seq<string>)
    requires |cs| == |ids|
  {
    forall i | 0 <= i < |cs| :: In(st, cs[i], Admitted(Plain(ids[i]), Unsigned)) && ids[i] !in st.registry
  }

  lemma OneInserted(st: State, cs: seq<Conn>, ids: seq<string>)
    requires cs != [] && |cs| == |ids| && Distinct(cs) && Distinct(ids) && AllAdmitted(st, cs, ids)
    ensures var st' := InsertStep(st, cs[0]);
            |st'.registry| == |st.registry| + 1 && AllAdmitted(st', cs[1..], ids[1..])
  {
    assert In(st, cs[0], Admitted(Plain(ids[0]), Unsigned));
    var st' := InsertStep(st, cs[0]);
    assert st'.registry.Keys == st.registry.Keys + {ids[0]};
    assert |st'.registry.Keys| == |st'.registry| && |st.registry.Keys| == |st.registry|;
    forall i | 0 <= i < |cs| - 1
      ensures In(st', cs[1..][i], Admitted(Plain(ids[1..][i]), Unsigned)) && ids[1..][i] !in st'.registry
    {
      assert In(st, cs[i + 1], Admitted(Plain(ids[i + 1]), Unsigned)) && cs[i + 1] != cs[0] && ids[i + 1] != ids[0];
    }
  }

  lemma {:induction false} EachInserted(cfg: Config, st: State, cs: seq<Conn>, ids: seq<string>)
    requires |cs| == |ids| && Distinct(cs) && Distinct(ids) && AllAdmitted(st, cs, ids)
    ensures |RunFrom(cfg, st, InsertEach(cs)).registry| == |st.registry| + |cs|
    decreases |cs|
  {
    if cs != [] {
      OneInserted(st, cs, ids);
      EachInserted(cfg, InsertStep(st, cs[0]), cs[1..], ids[1..]);
      RunFirst(cfg, st, Inserts(cs[0]), InsertEach(cs[1..]));
    }
  }

  /** The bound is reached: from any state with room for one more, `n` connections whose
      registrations overlap all get in. */
  lemma OverlapReachesBound(cfg: Config, st: State, cs: seq<Conn>, ids: seq<string>)
    requires |cs| == |ids| && Distinct(cs) && Distinct(ids) && !cfg.strict && |st.registry| < cfg.maxDevices
    requires forall i | 0 <= i < |cs| :: In(st, cs[i], Idle) && |ids[i]| <= 256 && ids[i] !in st.registry
    ensures |RunFrom(cfg, st, Overlapping(cs, ids)).registry| == |st.registry| + |cs|
  {
    var n := |cs|;
    var st1 := RunFrom(cfg, st, VetEach(cs, ids, n));
    var st2 := RunFrom(cfg, st1, LookEach(cs, n));
    RunConcat(cfg, st, VetEach(cs, ids, n), LookEach(cs, n) + InsertEach(cs));
    RunConcat(cfg, st1, LookEach(cs, n), InsertEach(cs));
    EachVetted(cfg, st, cs, ids, n);
    EachAdmitted(cfg, st1, cs, ids, n);
    EachInserted(cfg, st2, cs, ids);
  }

  // ---- Locks ----

  /** Every registration of `id` under way claims this key. */
  ghost predicate AllClaim(st: State, id: string, key: string) {
    forall conn <- InFlight(st) :: var reg := st.sessions[conn].phase.reg; reg.deviceId == id ==> ClaimsThis(reg, key)
  }

  predicate LockedTo(st: State, id: string, key: string) {
    id in st.registry && st.registry[id].lockedPubkey == Some(key)
  }

  /** Nobody registered as `id` leaves in the run. */
  ghost predicate NobodyLeaves(cfg: Config, st: State, run: seq<Event>, id: string) {
    run != [] ==>
      && NobodyLeaves(cfg, st, run[..|run| - 1], id)
      && var before, last := RunFrom(cfg, st, run[..|run| - 1]), run[|run| - 1];
         !(last.Leaves? && last.conn in before.sessions && before.sessions[last.conn].myId == Some(id))
  }

  lemma LockKept(cfg: Config, st: State, e: Event, id: string, key: string)
    requires LockedTo(st, id, key) && AllClaim(st, id, key)
    requires !(e.Leaves? && e.conn in st.sessions && st.sessions[e.conn].myId == Some(id))
    ensures LockedTo(Step(cfg, st, e), id, key) && AllClaim(Step(cfg, st, e), id, key)
  {
    var st' := Step(cfg, st, e);
    assert forall conn | conn in InFlight(st) :: st.sessions[conn].phase != Idle;
    if e.Inserts? && e.conn in st.sessions && st.sessions[e.conn].phase.Admitted? { assert e.conn in InFlight(st); }
  }

  lemma {:induction false} LockPersists(cfg: Config, st: State, run: seq<Event>, id: string, key: string)
    requires LockedTo(st, id, key) && AllClaim(st, id, key) && NobodyLeaves(cfg, st, run, id)
    ensures LockedTo(RunFrom(cfg, st, run), id, key) && AllClaim(RunFrom(cfg, st, run), id, key)
  {
    if run != [] {
      LockPersists(cfg, st, run[..|run| - 1], id, key);
      LockKept(cfg, RunFrom(cfg, st, run[..|run| - 1]), run[|run| - 1], id, key);
    }
  }

  /** What is left of a registration under way. */
  function Rest(st: State, conn: Conn): seq<Event>
    requires conn in InFlight(st)
  {
    (if st.sessions[conn].phase.Vetted? then [LooksForRoom(conn)] else []) + [Inserts(conn)]
  }

  lemma OneMoreStays(cfg: Config, st: State, run: seq<Event>, e: Event, id: string)
    requires NobodyLeaves(cfg, st, run, id) && !e.Leaves?
    ensures NobodyLeaves(cfg, st, run + [e], id)
    ensures RunFrom(cfg, st, run + [e]) == Step(cfg, RunFrom(cfg, st, run), e)
  {
    assert (run + [e])[..|run|] == run;
  }

  lemma InsertUnlocks(st: State, id: string, key: string, conn: Conn)
    requires conn in InFlight(st) && st.sessions[conn].phase.Admitted?
    requires var reg := st.sessions[conn].phase.reg; reg.deviceId == id && !ClaimsThis(reg, key)
    ensures !LockedTo(InsertStep(st, conn), id, key)
  {
  }

  lemma OvertakenLock(cfg: Config, st: State, id: string, key: string, conn: Conn)
    requires |st.registry| < cfg.maxDevices && conn in InFlight(st)
    requires var reg := st.sessions[conn].phase.reg; reg.deviceId == id && !ClaimsThis(reg, key)
    ensures NobodyLeaves(cfg, st, Rest(st, conn), id) && !LockedTo(RunFrom(cfg, st, Rest(st, conn)), id, key)
  {
    if st.sessions[conn].phase.Vetted? {
      OneMoreStays(cfg, st, [], LooksForRoom(conn), id);
      assert [] + [LooksForRoom(conn)] == [LooksForRoom(conn)];
      OneMoreStays(cfg, st, [LooksForRoom(conn)], Inserts(conn), id);
      InsertUnlocks(RoomStep(cfg, st, conn), id, key, conn);
    } else {
      OneMoreStays(cfg, st, [], Inserts(conn), id);
      InsertUnlocks(st, id, key, conn);
    }
  }

  /** While there is room and nobody registered as `id` leaves, its lock holds in every
      continuation exactly when no registration of `id` is under way with another key. */
  lemma LockHoldsIff(cfg: Config, st: State, id: string, key: string)
    requires LockedTo(st, id, key) && |st.registry| < cfg.maxDevices
    ensures (forall run | NobodyLeaves(cfg, st, run, id) :: LockedTo(RunFrom(cfg, st, run), id, key))
            <==> AllClaim(st, id, key)
  {
    if AllClaim(st, id, key) {
      forall run | NobodyLeaves(cfg, st, run, id) ensures LockedTo(RunFrom(cfg, st, run), id, key) {
        LockPersists(cfg, st, run, id, key);
      }
    } else {
      var conn :| conn in InFlight(st) && st.sessions[conn].phase.reg.deviceId == id
                  && !ClaimsThis(st.sessions[conn].phase.reg, key);
      OvertakenLock(cfg, st, id, key, conn);
    }
  }

  // ---- What every entry is ----

  /** Entries keep their sizes; with signatures required all of them were verified. */
  ghost predicate RegistryOk(cfg: Config, r: Registry) {
    forall id | id in r ::
      && |id| <= 256 && (cfg.strict ==> r[id].verified)
      && (r[id].lockedPubkey.Some? ==> r[id].lockedPubkey.value != "" && |r[id].lockedPubkey.value| <= 64)
  }

  ghost predicate PhaseOk(cfg: Config, p: Phase) {
    p != Idle ==> !Oversized(p.reg) && (cfg.strict ==> p.verdict == Verified)
  }

  ghost predicate EntriesOk(cfg: Config, st: State) {
    RegistryOk(cfg, st.registry) && forall conn | conn in st.sessions :: PhaseOk(cfg, st.sessions[conn].phase)
  }

  lemma InsertKeepsEntries(cfg: Config, st: State, conn: Conn)
    requires EntriesOk(cfg, st)
    ensures EntriesOk(cfg, InsertStep(st, conn))
  {
    if conn in st.sessions && st.sessions[conn].phase.Admitted? { assert PhaseOk(cfg, st.sessions[conn].phase); }
  }

  lemma VetKeepsEntries(cfg: Config, st: State, conn: Conn, reg: Registration, rateOk: bool, genuine: bool)
    requires EntriesOk(cfg, st)
    ensures EntriesOk(cfg, VetStep(cfg, st, conn, reg, rateOk, genuine))
  {
    if Refusal(st.registry, reg, rateOk, genuine, cfg.strict).None? {
      assert PhaseOk(cfg, Vetted(reg, VerdictOn(reg, genuine)));
    }
  }

  lemma EntriesKept(cfg: Config, st: State, e: Event)
    requires EntriesOk(cfg, st)
    ensures EntriesOk(cfg, Step(cfg, st, e))
  {
    match e
    case Opens(_) => assert PhaseOk(cfg, Idle);
    case Vets(conn, reg, rateOk, genuine) => VetKeepsEntries(cfg, st, conn, reg, rateOk, genuine);
    case LooksForRoom(_) =>
    case Inserts(conn) => InsertKeepsEntries(cfg, st, conn);
    case Leaves(_) =>
  }

  lemma {:induction false} RunKeepsEntries(cfg: Config, run: seq<Event>)
    ensures EntriesOk(cfg, Run(cfg, run))
  {
    if run != [] {
      RunKeepsEntries(cfg, run[..|run| - 1]);
      EntriesKept(cfg, Run(cfg, run[..|run| - 1]), run[|run| - 1]);
    }
  }

  /** Exactly when the lock protects: in every reachable state with room left, someone who
      cannot sign can take over a locked id if and only if signatures are not required. */
  lemma TakeoverPossibleIff(cfg: Config, run: seq<Event>, id: string, conn: Conn)
    requires var r := Run(cfg, run).registry; id in r && r[id].lockedPubkey.Some? && |r| < cfg.maxDevices
    ensures var r := Run(cfg, run).registry;
            (exists reg: Registration ::
               reg.deviceId == id && Register(r, conn, reg, true, false, cfg.strict, cfg.maxDevices).1 == RegisterAck)
            <==> !cfg.strict
  {
    RunKeepsEntries(cfg, run);
    var r := Run(cfg, run).registry;
    var reg := WithoutTime(id, r[id].lockedPubkey.value);
    assert !cfg.strict ==> Register(r, conn, reg, true, false, cfg.strict, cfg.maxDevices).1 == RegisterAck;
  }
}
