/** Relay slots of the signal server, as interleaved steps of the rendezvous handler,
    the reaper tasks and the relay sessions. */
module RelayServer {
  import opened Common

  type Token = string
  /** Identity of one relay connection. */
  type Sid = nat

  datatype Role = Host | Viewer {
    function Other(): Role {
      if Host? then Viewer else Host
    }
  }

  /** The sender registered for each side, named by the connection that owns it. */
  datatype Slot = Slot(host: Option<Sid>, viewer: Option<Sid>) {
    function Side(r: Role): Option<Sid> {
      if r.Host? then host else viewer
    }
    function Join(r: Role, s: Sid): Slot {
      if r.Host? then this.(host := Some(s)) else this.(viewer := Some(s))
    }
    predicate Unclaimed() {
      host.None? && viewer.None?
    }
  }

  type Slots = map<Token, Slot>

  // ---- The table's atomic operations ----

  predicate HexDigit(c: char) {
    '0' <= c <= '9' || 'a' <= c <= 'f' || 'A' <= c <= 'F'
  }

  predicate WellFormed(t: Token) {
    |t| == 32 && forall c <- t :: HexDigit(c)
  }

  function Reaped(slots: Slots, t: Token): Slots {
    if t in slots && slots[t].Unclaimed() then slots - {t} else slots
  }

  function Joined(slots: Slots, t: Token, r: Role, s: Sid): Slots {
    if t in slots then slots[t := slots[t].Join(r, s)] else slots
  }

  function PeerIn(slots: Slots, t: Token, r: Role): Option<Sid> {
    if t in slots then slots[t].Side(r.Other()) else None
  }

  /** The early gate: malformed tokens, and unknown tokens at capacity. */
  predicate Admits(slots: Slots, t: Token, capacity: nat) {
    WellFormed(t) && (t in slots || |slots| < capacity)
  }

  // ---- Steps ----

  /** Where a connection stands in `relay_session`. */
  datatype Phase = Admitted | Waiting | Forwarding(peer: Sid) | Ended

  datatype Conn = Conn(token: Token, role: Role, phase: Phase) {
    predicate Running() {
      phase.Waiting? || phase.Forwarding?
    }
  }

  /** `reapers` are the sleeping reaper tasks; `joins` records, for every token ever
      issued, each connection that ever joined its slot. */
  datatype State = State(slots: Slots, reapers: set<Token>, conns: map<Sid, Conn>, joins: map<Token, set<Sid>>)

  datatype Event =
    | Issue(token: Token)
    | ReaperFires(token: Token)
    | Arrive(sid: Sid, token: Token, role: Role)
    | Claim(sid: Sid)
    | Poll(sid: Sid)
    | Quit(sid: Sid)

  const Start: State := State(map[], {}, map[], map[])

  /** One atomic step of some task; an event whose task is not at that point does nothing.
      Tokens are drawn fresh: one that was issued before is not issued again. `Quit` is
      every exit after joining: timeout, early disconnect, end of forwarding. */
  function Step(st: State, e: Event, capacity: nat): State {
    match e
    case Issue(t) =>
      if t in st.joins then st
      else st.(slots := st.slots[t := Slot(None, None)], reapers := st.reapers + {t}, joins := st.joins[t := {}])
    case ReaperFires(t) =>
      if t !in st.reapers then st
      else st.(slots := Reaped(st.slots, t), reapers := st.reapers - {t})
    case Arrive(s, t, r) =>
      if s in st.conns then st
      else st.(conns := st.conns[s := Conn(t, r, if Admits(st.slots, t, capacity) then Admitted else Ended)])
    case Claim(s) =>
      if s !in st.conns || !st.conns[s].phase.Admitted? then st
      else
        var c := st.conns[s];
        if c.token !in st.slots then st.(conns := st.conns[s := c.(phase := Ended)])
        else
          var phase := match PeerIn(st.slots, c.token, c.role)
                       case Some(p) => Forwarding(p)
                       case None => Waiting;
          var slots, conns := Joined(st.slots, c.token, c.role, s), st.conns[s := c.(phase := phase)];
          var joined := (if c.token in st.joins then st.joins[c.token] else {}) + {s};
          st.(slots := slots, conns := conns, joins := st.joins[c.token := joined])
    case Poll(s) =>
      if s !in st.conns || !st.conns[s].phase.Waiting? then st
      else
        var c := st.conns[s];
        (match PeerIn(st.slots, c.token, c.role)
         case Some(p) => st.(conns := st.conns[s := c.(phase := Forwarding(p))])
         case None => st)
    case Quit(s) =>
      if s !in st.conns || !st.conns[s].Running() then st
      else
        var c := st.conns[s];
        st.(slots := st.slots - {c.token}, conns := st.conns[s := c.(phase := Ended)])
  }

  function Run(run: seq<Event>, capacity: nat): State {
    if run == [] then Start else Step(Run(run[..|run| - 1], capacity), run[|run| - 1], capacity)
  }

  // ---- What every interleaving keeps ----

  /** Connection `s` joined `t` on side `r` at some time. */
  ghost predicate JoinedAs(st: State, s: Sid, t: Token, r: Role) {
    t in st.joins && s in st.joins[t] && s in st.conns && st.conns[s].token == t && st.conns[s].role == r
  }

  /** A present slot is unclaimed with its reaper pending and nobody ever joined, or
      claimed with every connection that ever joined it still running. */
  ghost predicate SlotOk(st: State, t: Token)
    requires t in st.slots
  {
    var slot := st.slots[t];
    && t in st.joins
    && (slot.Unclaimed() ==> t in st.reapers && st.joins[t] == {})
    && (!slot.Unclaimed() ==> st.joins[t] != {})
    && (forall s <- st.joins[t] :: s in st.conns && st.conns[s].Running())
    && (slot.host.Some? ==> JoinedAs(st, slot.host.value, t, Host))
    && (slot.viewer.Some? ==> JoinedAs(st, slot.viewer.value, t, Viewer))
  }

  /** A running connection joined its own token, and a forwarding one sends to a
      connection that joined the same token on the other side. */
  ghost predicate ConnOk(st: State, s: Sid)
    requires s in st.conns
  {
    var c := st.conns[s];
    && (c.Running() ==> JoinedAs(st, s, c.token, c.role))
    && (c.phase.Forwarding? ==> JoinedAs(st, c.phase.peer, c.token, c.role.Other()))
  }

  ghost predicate Inv(st: State) {
    && (forall t | t in st.slots :: SlotOk(st, t))
    && (forall s | s in st.conns :: ConnOk(st, s))
    && st.reapers <= st.joins.Keys
    && (forall t, s | t in st.joins && s in st.joins[t] ::
          s in st.conns && st.conns[s].token == t && !st.conns[s].phase.Admitted?)
  }

  lemma IssueKeeps(st: State, t: Token, capacity: nat)
    requires Inv(st)
    ensures Inv(Step(st, Issue(t), capacity))
  {
    var st' := Step(st, Issue(t), capacity);
    forall t' | t' in st'.slots ensures SlotOk(st', t') { if t' != t { assert SlotOk(st, t'); } }
    forall s | s in st'.conns ensures ConnOk(st', s) { assert ConnOk(st, s); }
  }

  lemma ReaperKeeps(st: State, t: Token, capacity: nat)
    requires Inv(st)
    ensures Inv(Step(st, ReaperFires(t), capacity))
  {
    var st' := Step(st, ReaperFires(t), capacity);
    forall t' | t' in st'.slots ensures SlotOk(st', t') { assert SlotOk(st, t'); }
    forall s | s in st'.conns ensures ConnOk(st', s) { assert ConnOk(st, s); }
  }

  lemma ArriveKeeps(st: State, s: Sid, t: Token, r: Role, capacity: nat)
    requires Inv(st)
    ensures Inv(Step(st, Arrive(s, t, r), capacity))
  {
    var st' := Step(st, Arrive(s, t, r), capacity);
    forall t' | t' in st'.slots ensures SlotOk(st', t') { assert SlotOk(st, t'); }
    forall s' | s' in st'.conns ensures ConnOk(st', s') { if s' != s { assert ConnOk(st, s'); } }
  }

  lemma ClaimKeepsSlots(st: State, s: Sid, capacity: nat)
    requires Inv(st)
    ensures var st' := Step(st, Claim(s), capacity); forall t | t in st'.slots :: SlotOk(st', t)
  {
    var st' := Step(st, Claim(s), capacity);
    forall t | t in st'.slots ensures SlotOk(st', t) {
      assert SlotOk(st, t);
    }
  }

  lemma ClaimKeepsConns(st: State, s: Sid, capacity: nat)
    requires Inv(st)
    ensures var st' := Step(st, Claim(s), capacity); forall s' | s' in st'.conns :: ConnOk(st', s')
  {
    var st' := Step(st, Claim(s), capacity);
    forall s' | s' in st'.conns ensures ConnOk(st', s') {
      assert ConnOk(st, s');
      if s' == s && st.conns[s].token in st.slots { assert SlotOk(st, st.conns[s].token); }
    }
  }

  lemma ClaimKeeps(st: State, s: Sid, capacity: nat)
    requires Inv(st)
    ensures Inv(Step(st, Claim(s), capacity))
  {
    ClaimKeepsSlots(st, s, capacity);
    ClaimKeepsConns(st, s, capacity);
    if s in st.conns && st.conns[s].token in st.slots { assert SlotOk(st, st.conns[s].token); }
  }

  lemma PollKeeps(st: State, s: Sid, capacity: nat)
    requires Inv(st)
    ensures Inv(Step(st, Poll(s), capacity))
  {
    var st' := Step(st, Poll(s), capacity);
    forall t' | t' in st'.slots ensures SlotOk(st', t') { assert SlotOk(st, t'); }
    forall s' | s' in st'.conns ensures ConnOk(st', s') {
      assert ConnOk(st, s');
      if s' == s && st.conns[s].token in st.slots { assert SlotOk(st, st.conns[s].token); }
    }
  }

  lemma QuitKeeps(st: State, s: Sid, capacity: nat)
    requires Inv(st)
    ensures Inv(Step(st, Quit(s), capacity))
  {
    var st' := Step(st, Quit(s), capacity);
    forall t' | t' in st'.slots ensures SlotOk(st', t') { assert SlotOk(st, t'); }
    forall s' | s' in st'.conns ensures ConnOk(st', s') { assert ConnOk(st, s'); }
  }

  lemma {:induction false} RunKeepsInv(run: seq<Event>, capacity: nat)
    ensures Inv(Run(run, capacity))
  {
    if run != [] {
      var before := run[..|run| - 1];
      RunKeepsInv(before, capacity);
      var st := Run(before, capacity);
      match run[|run| - 1]
      case Issue(t) => IssueKeeps(st, t, capacity);
      case ReaperFires(t) => ReaperKeeps(st, t, capacity);
      case Arrive(s, t, r) => ArriveKeeps(st, s, t, r, capacity);
      case Claim(s) => ClaimKeeps(st, s, capacity);
      case Poll(s) => PollKeeps(st, s, capacity);
      case Quit(s) => QuitKeeps(st, s, capacity);
    }
  }

  /** Slot lifecycle, in every interleaving. */
  lemma SlotLifecycle(run: seq<Event>, capacity: nat, t: Token)
    requires t in Run(run, capacity).slots
    ensures var st := Run(run, capacity);
            t in st.joins &&
            if st.slots[t].Unclaimed()
            then t in st.reapers && st.joins[t] == {}
            else st.joins[t] != {} && forall s <- st.joins[t] :: s in st.conns && st.conns[s].Running()
  {
    RunKeepsInv(run, capacity);
    assert SlotOk(Run(run, capacity), t);
  }

  /** A reaper that fires takes its own slot, exactly when nobody ever joined it, and no
      other slot. */
  lemma ReaperSparesClaimed(run: seq<Event>, capacity: nat, t: Token, t': Token)
    requires t' in Run(run, capacity).slots
    ensures var st, st' := Run(run, capacity), Step(Run(run, capacity), ReaperFires(t), capacity);
            t' in st.joins && (t' in st'.slots <==> t' != t || st.joins[t'] != {})
  {
    RunKeepsInv(run, capacity);
    assert SlotOk(Run(run, capacity), t');
  }

  lemma SlotNeedsSomeone(st: State, t: Token)
    requires Inv(st)
    ensures t in st.slots ==> t in st.reapers || exists s :: s in st.conns && st.conns[s].Running()
  {
    if t in st.slots && t !in st.reapers {
      assert SlotOk(st, t);
      var s :| s in st.joins[t];
      assert s in st.conns && st.conns[s].Running();
    }
  }

  /** Nothing leaks: once every connection that joined has ended and every reaper has
      fired, the table is empty. */
  lemma DrainsEmpty(run: seq<Event>, capacity: nat)
    requires Run(run, capacity).reapers == {}
    requires forall s | s in Run(run, capacity).conns :: !Run(run, capacity).conns[s].Running()
    ensures Run(run, capacity).slots == map[]
  {
    var st := Run(run, capacity);
    RunKeepsInv(run, capacity);
    forall t ensures t !in st.slots { SlotNeedsSomeone(st, t); }
  }

  /** Sessions do not mix: a forwarding connection sends to one that joined the very same
      token on the opposite side. */
  lemma PeersShareToken(run: seq<Event>, capacity: nat, s: Sid)
    requires s in Run(run, capacity).conns && Run(run, capacity).conns[s].phase.Forwarding?
    ensures var conns := Run(run, capacity).conns;
            var p := conns[s].phase.peer;
            p in conns && p != s && conns[p].token == conns[s].token && conns[p].role == conns[s].role.Other()
  {
    RunKeepsInv(run, capacity);
    assert ConnOk(Run(run, capacity), s);
  }

  /** A slot that has gone never comes back. */
  lemma {:induction false} GoneForGood(run: seq<Event>, more: seq<Event>, capacity: nat, t: Token)
    requires t in Run(run, capacity).joins && t !in Run(run, capacity).slots
    ensures t in Run(run + more, capacity).joins && t !in Run(run + more, capacity).slots
  {
    if more == [] {
      assert run + more == run;
    } else {
      var m := more[..|more| - 1];
      GoneForGood(run, m, capacity, t);
      assert (run + more)[..|run + more| - 1] == run + m;
    }
  }

  /** A well-formed token whose slot is present is never turned away, however full the
      server is; an unknown one never gets past the join, however empty it is. */
  lemma JoinIffPresent(st: State, s: Sid, t: Token, r: Role, capacity: nat)
    requires s !in st.conns && WellFormed(t)
    ensures var st' := Step(Step(st, Arrive(s, t, r), capacity), Claim(s), capacity);
            && (st'.conns[s].Running() <==> t in st.slots)
            && (t in st.slots ==> t in st'.slots && st'.slots[t].Side(r) == Some(s)
                                  && st'.slots[t].Side(r.Other()) == st.slots[t].Side(r.Other()))
  {
  }

  /** A token gets past the first tests exactly if it is 32 hexadecimal digits, and known or
      the server below its capacity. */
  lemma AdmitsIff(slots: Slots, t: Token, capacity: nat)
    ensures Admits(slots, t, capacity) <==>
            && |t| == 32
            && (forall k | 0 <= k < 32 :: t[k] in "0123456789abcdefABCDEF")
            && (t in slots || |slots| < capacity)
  {
    forall c: char ensures HexDigit(c) <==> c in "0123456789abcdefABCDEF" { HexDigits(c); }
    if WellFormed(t) {
      forall k | 0 <= k < 32 ensures t[k] in "0123456789abcdefABCDEF" { assert HexDigit(t[k]); }
    }
  }

  /** Opening and closing a slot: a new token gets an empty slot and a reaper; a token that passes
      the first tests is admitted and any other connection ended; a running connection that quits
      takes its slot with it; and a pending reaper takes the slot of a token nobody joined. */
  lemma OpensAndCloses(st: State, t: Token, s: Sid, r: Role, capacity: nat)
    ensures t !in st.joins ==>
              var st' := Step(st, Issue(t), capacity);
              && st'.slots == st.slots[t := Slot(None, None)] && st'.reapers == st.reapers + {t}
              && st'.joins == st.joins[t := {}] && st'.conns == st.conns
    ensures s !in st.conns ==>
              var st' := Step(st, Arrive(s, t, r), capacity);
              var ok := |t| == 32 && (forall k | 0 <= k < 32 :: t[k] in "0123456789abcdefABCDEF")
                        && (t in st.slots || |st.slots| < capacity);
              st' == st.(conns := st.conns[s := Conn(t, r, if ok then Admitted else Ended)])
    ensures s in st.conns && (st.conns[s].phase == Waiting || st.conns[s].phase.Forwarding?) ==>
              var st' := Step(st, Quit(s), capacity);
              st' == st.(slots := st.slots - {st.conns[s].token},
                         conns := st.conns[s := Conn(st.conns[s].token, st.conns[s].role, Ended)])
    ensures t in st.reapers && t in st.slots ==>
              var st' := Step(st, ReaperFires(t), capacity);
              && st'.slots == (if st.slots[t] == Slot(None, None) then st.slots - {t} else st.slots)
              && st'.reapers == st.reapers - {t}
  {
    AdmitsIff(st.slots, t, capacity);
  }

  // ---- The two sides meet ----

  /** As long as everyone who joined is running the slot is there, and each side that somebody
      joined is taken. */
  ghost predicate SidesTaken(st: State, t: Token)
    requires t in st.joins
  {
    (forall s <- st.joins[t] :: s in st.conns && st.conns[s].Running()) && st.joins[t] != {} ==>
      && t in st.slots
      && forall s <- st.joins[t] ::
           if st.conns[s].role.Host? then st.slots[t].host.Some? else st.slots[t].viewer.Some?
  }

  ghost predicate AllSidesTaken(st: State) {
    forall t | t in st.joins :: SidesTaken(st, t)
  }

  lemma ClaimKeepsSides(st: State, s: Sid, capacity: nat)
    requires Inv(st) && AllSidesTaken(st)
    ensures AllSidesTaken(Step(st, Claim(s), capacity))
  {
    var st' := Step(st, Claim(s), capacity);
    forall t | t in st'.joins ensures SidesTaken(st', t) {
      if t in st.joins {
        assert SidesTaken(st, t);
        if s in st.conns && st.conns[s].token == t && t in st.slots { assert SlotOk(st, t); }
      }
    }
  }

  lemma OthersKeepSides(st: State, e: Event, capacity: nat)
    requires Inv(st) && AllSidesTaken(st) && !e.Claim? && !e.Quit?
    ensures AllSidesTaken(Step(st, e, capacity))
  {
    var st' := Step(st, e, capacity);
    forall t | t in st'.joins ensures SidesTaken(st', t) {
      if t in st.joins {
        assert SidesTaken(st, t);
        if t in st.slots { assert SlotOk(st, t); }
      }
    }
  }

  lemma QuitKeepsSides(st: State, s: Sid, capacity: nat)
    requires Inv(st) && AllSidesTaken(st)
    ensures AllSidesTaken(Step(st, Quit(s), capacity))
  {
    var st' := Step(st, Quit(s), capacity);
    forall t | t in st'.joins ensures SidesTaken(st', t) {
      assert SidesTaken(st, t);
      if s in st.conns && st.conns[s].Running() {
        assert ConnOk(st, s);
        assert s in st.joins[st.conns[s].token];
      }
    }
  }

  lemma {:induction false} RunKeepsSides(run: seq<Event>, capacity: nat)
    ensures AllSidesTaken(Run(run, capacity))
  {
    if run != [] {
      var before, last := run[..|run| - 1], run[|run| - 1];
      RunKeepsInv(before, capacity);
      RunKeepsSides(before, capacity);
      match last
      case Claim(s) => ClaimKeepsSides(Run(before, capacity), s, capacity);
      case Quit(s) => QuitKeepsSides(Run(before, capacity), s, capacity);
      case _ => OthersKeepSides(Run(before, capacity), last, capacity);
    }
  }

  /** A claim on a present slot takes the connection's side and leaves the other; it forwards
      at once to whoever is registered there, and waits if nobody is. A claim on any other
      slot ends the connection. */
  lemma ClaimMeets(st: State, s: Sid, capacity: nat)
    requires s in st.conns && st.conns[s].phase == Admitted
    ensures var c, st' := st.conns[s], Step(st, Claim(s), capacity);
            if c.token !in st.slots then st'.conns[s].phase == Ended && st'.slots == st.slots
            else
              var slot := st.slots[c.token];
              var other := if c.role == Host then slot.viewer else slot.host;
              && st'.conns[s].phase == (if other == None then Waiting else Forwarding(other.value))
              && st'.slots == st.slots[c.token :=
                   if c.role == Host then Slot(Some(s), slot.viewer) else Slot(slot.host, Some(s))]
  {
  }

  /** A waiting connection that polls forwards to whoever is registered on the other side of
      its slot, and goes on waiting if nobody is or the slot is gone. */
  lemma PollMeets(st: State, s: Sid, capacity: nat)
    requires s in st.conns && st.conns[s].phase == Waiting
    ensures var c, st' := st.conns[s], Step(st, Poll(s), capacity);
            var other := if c.token !in st.slots then None
                         else if c.role == Host then st.slots[c.token].viewer else st.slots[c.token].host;
            && st'.slots == st.slots
            && st'.conns[s].phase == if other == None then Waiting else Forwarding(other.value)
  {
  }

  /** One connection's poll brings it to the only one that joined on the other side. */
  lemma PollFinds(run: seq<Event>, capacity: nat, t: Token, s: Sid, p: Sid)
    requires var st := Run(run, capacity);
             && t in st.joins && st.joins[t] == {s, p} && s in st.conns && p in st.conns
             && st.conns[s].Running() && st.conns[p].Running() && st.conns[s].role != st.conns[p].role
    ensures var st' := Step(Run(run, capacity), Poll(s), capacity);
            && st'.conns == Run(run, capacity).conns[s := Conn(t, st'.conns[s].role, Forwarding(p))]
            && st'.conns[s].role == Run(run, capacity).conns[s].role
            && st'.joins == Run(run, capacity).joins
  {
    var st := Run(run, capacity);
    RunKeepsInv(run, capacity);
    RunKeepsSides(run, capacity);
    assert SidesTaken(st, t) && SlotOk(st, t) && ConnOk(st, s);
    assert s in st.joins[t] && p in st.joins[t];
    assert st.conns == st.conns[s := st.conns[s]];
  }

  /** The two sides meet: in any run, if just one host and one viewer joined a token and
      neither has quit, each forwards to the other once both have polled. */
  lemma BothSidesMeet(run: seq<Event>, capacity: nat, t: Token, host: Sid, viewer: Sid)
    requires var st := Run(run, capacity);
             && t in st.joins && st.joins[t] == {host, viewer} && host in st.conns && viewer in st.conns
             && st.conns[host].Running() && st.conns[host].role == Host
             && st.conns[viewer].Running() && st.conns[viewer].role == Viewer
    ensures var conns := Run(run + [Poll(host)] + [Poll(viewer)], capacity).conns;
            && host in conns && conns[host] == Conn(t, Host, Forwarding(viewer))
            && viewer in conns && conns[viewer] == Conn(t, Viewer, Forwarding(host))
  {
    var once := run + [Poll(host)];
    assert once[..|run|] == run && (once + [Poll(viewer)])[..|once|] == once;
    PollFinds(run, capacity, t, host, viewer);
    PollFinds(once, capacity, t, viewer, host);
  }

  // ---- The shared table ----

  class RelayTable {
    var sessions: Slots

    constructor ()
      ensures sessions == map[]
    {
      sessions := map[];
    }

    method Issue(t: Token)
      modifies this
      ensures sessions == old(sessions)[t := Slot(None, None)]
    {
      sessions := sessions[t := Slot(None, None)];
    }

    /** The reaper's `remove_if`. */
    method RemoveIfUnclaimed(t: Token) returns (expired: bool)
      modifies this
      ensures sessions == Reaped(old(sessions), t)
      ensures expired == (sessions != old(sessions))
    {
      expired := false;
      if t in sessions {
        var s := sessions[t];
        if s.host.None? && s.viewer.None? {
          sessions := sessions - {t};
          expired := true;
        }
      }
    }

    /** Registers this side and reads the other one under the same guard; `known` is
        false when the token is refused. */
    method Claim(t: Token, isHost: bool, s: Sid) returns (known: bool, peer: Option<Sid>)
      modifies this
      ensures known == (t in old(sessions))
      ensures sessions == Joined(old(sessions), t, if isHost then Host else Viewer, s)
      ensures peer == PeerIn(old(sessions), t, if isHost then Host else Viewer)
      ensures t in old(sessions) ==>
                var slot := old(sessions)[t];
                && peer == (if isHost then slot.viewer else slot.host)
                && var joined := if isHost then Slot(Some(s), slot.viewer) else Slot(slot.host, Some(s));
                   sessions == old(sessions)[t := joined]
      ensures t !in old(sessions) ==> peer == None && sessions == old(sessions)
    {
      if t !in sessions {
        return false, None;
      }
      var slot := sessions[t];
      if isHost {
        sessions := sessions[t := slot.(host := Some(s))];
        return true, slot.viewer;
      } else {
        sessions := sessions[t := slot.(viewer := Some(s))];
        return true, slot.host;
      }
    }

    method Poll(t: Token, isHost: bool) returns (peer: Option<Sid>)
      ensures peer == PeerIn(sessions, t, if isHost then Host else Viewer)
      ensures peer == if t !in sessions then None else if isHost then sessions[t].viewer else sessions[t].host
    {
      if t !in sessions {
        return None;
      }
      return if isHost then sessions[t].viewer else sessions[t].host;
    }

    method Admit(t: Token, capacity: nat) returns (ok: bool)
      ensures ok == Admits(sessions, t, capacity)
    {
      var hex := true;
      for k := 0 to |t|
        invariant hex == forall c <- t[..k] :: HexDigit(c)
      {
        assert t[..k + 1] == t[..k] + [t[k]];
        hex := hex && HexDigit(t[k]);
      }
      assert t[..|t|] == t;
      if |t| != 32 || !hex {
        return false;
      }
      var slotKnown := t in sessions;
      return slotKnown || |sessions| < capacity;
    }

    method Remove(t: Token)
      modifies this
      ensures sessions == old(sessions) - {t}
    {
      sessions := sessions - {t};
    }
  }
}
