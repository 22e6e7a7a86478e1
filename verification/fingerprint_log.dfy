/** The trust-on-first-use log of peer fingerprints: a hash-chained file replayed when it
    is opened, and one appended entry for every check. The entry hash is a parameter. */
module FingerprintLog {
  import opened Common

  datatype Action = Pin | Observed | Changed

  datatype Entry = Entry(
    number: nat,
    prevHash: string,
    timestampMs: nat,
    peerLabel: string,
    deviceId: string,
    fingerprint: string,
    action: Action
  )

  /** A line of the file: whitespace, something that does not parse, or an entry. */
  datatype Line = Blank | Unreadable | Record(entry: Entry)

  type Hash = Entry -> string

  datatype LogState = LogState(nextSeq: nat, lastHash: string, pinned: map<string, string>)

  const Empty: LogState := LogState(0, "", map[])

  datatype OpenError = Parse | SeqGap | ChainBroken

  datatype Opened = Loaded(state: LogState) | Refused(error: OpenError)

  /** The effect of an entry, once in the file, on what a replay knows. */
  function Absorb(h: Hash, st: LogState, e: Entry): LogState {
    LogState(e.number + 1, h(e), if e.action.Pin? then st.pinned[e.deviceId := e.fingerprint] else st.pinned)
  }

  function ReplayLine(h: Hash, st: LogState, line: Line): Opened {
    match line
    case Blank => Loaded(st)
    case Unreadable => Refused(Parse)
    case Record(e) =>
      if e.number != st.nextSeq then Refused(SeqGap)
      else if e.prevHash != st.lastHash then Refused(ChainBroken)
      else Loaded(Absorb(h, st, e))
  }

  /** Replaying the lines in order; the first bad line refuses the file. */
  function Replay(h: Hash, lines: seq<Line>): Opened {
    if lines == [] then Loaded(Empty)
    else match Replay(h, lines[..|lines| - 1])
         case Refused(e) => Refused(e)
         case Loaded(st) => ReplayLine(h, st, lines[|lines| - 1])
  }

  // ---- What a file must be to load ----

  function Entries(lines: seq<Line>): seq<Entry> {
    if lines == [] then []
    else
      var last := lines[|lines| - 1];
      Entries(lines[..|lines| - 1]) + if last.Record? then [last.entry] else []
  }

  /** The hash that the next entry must carry. */
  function Tip(h: Hash, es: seq<Entry>): string {
    if es == [] then "" else h(es[|es| - 1])
  }

  /** Entries numbered from 0, each carrying the hash of the one before. */
  ghost predicate Chained(h: Hash, es: seq<Entry>) {
    forall k | 0 <= k < |es| :: Linked(h, es, k)
  }

  ghost predicate Linked(h: Hash, es: seq<Entry>, k: nat)
    requires k < |es|
  {
    es[k].number == k && es[k].prevHash == Tip(h, es[..k])
  }

  /** `pins` holds, for each device with a Pin entry, the fingerprint of its last one. */
  ghost predicate PinsOf(es: seq<Entry>, pins: map<string, string>) {
    && (forall d | d in pins :: exists k :: LastPin(es, k, d))
    && (forall k, d | LastPin(es, k, d) :: d in pins && pins[d] == es[k].fingerprint)
  }

  ghost predicate LastPin(es: seq<Entry>, k: int, d: string) {
    && 0 <= k < |es| && es[k].action == Pin && es[k].deviceId == d
    && forall j | k < j < |es| :: es[j].action == Pin ==> es[j].deviceId != d
  }

  lemma PinsNext(es: seq<Entry>, pins: map<string, string>, e: Entry)
    requires PinsOf(es, pins)
    ensures PinsOf(es + [e], if e.action == Pin then pins[e.deviceId := e.fingerprint] else pins)
  {
    var all, pins' := es + [e], if e.action == Pin then pins[e.deviceId := e.fingerprint] else pins;
    forall d | d in pins' ensures exists k :: LastPin(all, k, d) {
      if e.action == Pin && e.deviceId == d {
        assert LastPin(all, |es|, d);
      } else {
        var k :| LastPin(es, k, d);
        assert LastPin(all, k, d);
      }
    }
    forall k, d | LastPin(all, k, d) ensures d in pins' && pins'[d] == all[k].fingerprint {
      assert all[|es|] == e;
      if k < |es| {
        assert forall j | k < j < |es| :: all[j] == es[j];
        assert LastPin(es, k, d);
      }
    }
  }

  lemma ChainedNext(h: Hash, es: seq<Entry>, e: Entry)
    ensures Chained(h, es + [e]) <==> Chained(h, es) && e.number == |es| && e.prevHash == Tip(h, es)
  {
    var all := es + [e];
    assert all[..|es|] == es && all[|es|] == e;
    forall k | 0 <= k < |es| ensures Linked(h, all, k) <==> Linked(h, es, k) {
      assert all[..k] == es[..k];
    }
    if Chained(h, all) {
      assert Linked(h, all, |es|);
      forall k | 0 <= k < |es| ensures Linked(h, es, k) { assert Linked(h, all, k); }
    }
  }

  lemma {:induction false} LoadedIs(h: Hash, lines: seq<Line>)
    ensures Replay(h, lines).Loaded? <==> Unreadable !in lines && Chained(h, Entries(lines))
    ensures Replay(h, lines).Loaded? ==>
              var st, es := Replay(h, lines).state, Entries(lines);
              st.nextSeq == |es| && st.lastHash == Tip(h, es) && PinsOf(es, st.pinned)
  {
    if lines != [] {
      var before, last := lines[..|lines| - 1], lines[|lines| - 1];
      LoadedIs(h, before);
      assert lines == before + [last];
      if last.Record? {
        ChainedNext(h, Entries(before), last.entry);
        if Replay(h, before).Loaded? { PinsNext(Entries(before), Replay(h, before).state.pinned, last.entry); }
      } else {
        assert Entries(lines) == Entries(before);
      }
    }
  }

  /** Opening accepts a file exactly when every line is blank or an entry and the entries are
      numbered from 0 and chained by their hashes; it then holds their number, the last hash,
      and each device's last pinned fingerprint. */
  lemma LoadsIffChained(h: Hash, lines: seq<Line>)
    ensures Replay(h, lines).Loaded? <==> Unreadable !in lines && Chained(h, Entries(lines))
    ensures Replay(h, lines).Loaded? ==>
              var st, es := Replay(h, lines).state, Entries(lines);
              st.nextSeq == |es| && st.lastHash == Tip(h, es) && PinsOf(es, st.pinned)
  {
    LoadedIs(h, lines);
  }

  /** What a refused file is refused for: of the first line that does not fit, being unreadable
      comes before its number, and its number before the hash it carries. */
  lemma RefusedFor(h: Hash, lines: seq<Line>, k: nat)
    requires k < |lines| && Replay(h, lines[..k]).Loaded? && Replay(h, lines[..k + 1]).Refused?
    ensures !lines[k].Blank?
    ensures var es, line := Entries(lines[..k]), lines[k];
            Replay(h, lines) ==
            if line.Unreadable? then Refused(Parse)
            else if line.entry.number != |es| then Refused(SeqGap)
            else Refused(ChainBroken)
    ensures var es, line := Entries(lines[..k]), lines[k];
            line.Record? && line.entry.number == |es| ==> line.entry.prevHash != Tip(h, es)
  {
    LoadedIs(h, lines[..k]);
    assert lines[..k + 1][..k] == lines[..k];
    PrefixRefuses(h, lines, k + 1);
  }

  ghost predicate CollisionFree(h: Hash) {
    forall e, f :: h(e) == h(f) ==> e == f
  }

  lemma {:induction false} ChainsEqual(h: Hash, a: seq<Entry>, b: seq<Entry>, n: nat)
    requires CollisionFree(h) && Chained(h, a) && Chained(h, b) && 0 < n <= |a| == |b| && a[n - 1] == b[n - 1]
    ensures a[..n] == b[..n]
  {
    if n > 1 {
      assert Linked(h, a, n - 1) && Linked(h, b, n - 1);
      assert h(a[n - 2]) == h(b[n - 2]);
      ChainsEqual(h, a, b, n - 1);
    }
    assert a[..n] == a[..n - 1] + [a[n - 1]] && b[..n] == b[..n - 1] + [b[n - 1]];
  }

  /** Two files that load with the same number of entries and the same last entry hold the same
      entries. */
  lemma LastEntryDeterminesAll(h: Hash, a: seq<Line>, b: seq<Line>)
    requires CollisionFree(h) && Replay(h, a).Loaded? && Replay(h, b).Loaded?
    requires |Entries(a)| == |Entries(b)| > 0 && Entries(a)[|Entries(a)| - 1] == Entries(b)[|Entries(b)| - 1]
    ensures Entries(a) == Entries(b)
  {
    LoadedIs(h, a);
    LoadedIs(h, b);
    ChainsEqual(h, Entries(a), Entries(b), |Entries(a)|);
    assert Entries(a)[..|Entries(a)|] == Entries(a) && Entries(b)[..|Entries(b)|] == Entries(b);
  }

  lemma EntriesConcat(a: seq<Line>, b: seq<Line>)
    ensures Entries(a + b) == Entries(a) + Entries(b)
    decreases |b|
  {
    if b == [] {
      assert a + b == a;
    } else {
      assert (a + b)[..|a + b| - 1] == a + b[..|b| - 1];
      EntriesConcat(a, b[..|b| - 1]);
    }
  }

  lemma EntriesAround(before: seq<Line>, e: Entry, after: seq<Line>)
    ensures Entries(before + [Record(e)] + after) == Entries(before) + [e] + Entries(after)
  {
    EntriesConcat(before + [Record(e)], after);
    EntriesConcat(before, [Record(e)]);
    assert [Record(e)][..0] == [];
    assert Entries([Record(e)]) == Entries([]) + [e];
  }

  lemma TwoFilesDiffer(h: Hash, a: seq<Line>, b: seq<Line>, es: seq<Entry>, d: Entry, e: Entry, fs: seq<Entry>)
    requires CollisionFree(h) && Replay(h, a).Loaded? && d != e && fs != []
    requires Entries(a) == es + [d] + fs && Entries(b) == es + [e] + fs
    ensures Replay(h, b).Refused?
  {
    assert Entries(a)[|es|] == d && Entries(b)[|es|] == e;
    if Replay(h, b).Loaded? { LastEntryDeterminesAll(h, a, b); }
  }

  /** An edit does not go unnoticed: replacing an entry that another one follows makes a file
      that loaded be refused. */
  lemma EditedRefused(h: Hash, lines: seq<Line>, i: nat, e: Entry)
    requires CollisionFree(h) && Replay(h, lines).Loaded?
    requires i < |lines| && lines[i].Record? && lines[i].entry != e && Entries(lines[i + 1..]) != []
    ensures Replay(h, lines[i := Record(e)]).Refused?
  {
    var before, after := lines[..i], lines[i + 1..];
    EntriesAround(before, lines[i].entry, after);
    EntriesAround(before, e, after);
    assert lines == before + [Record(lines[i].entry)] + after && lines[i := Record(e)] == before + [Record(e)] + after;
    TwoFilesDiffer(h, lines, lines[i := Record(e)], Entries(before), lines[i].entry, e, Entries(after));
  }

  // ---- Checking ----

  datatype CheckResult = FirstSeen | Match | Mismatch(expected: string, observed: string)

  datatype Check = Check(peerLabel: string, deviceId: string, fingerprint: string, now: nat)

  function Verdict(pinned: map<string, string>, c: Check): CheckResult {
    if c.deviceId !in pinned then FirstSeen
    else if pinned[c.deviceId] == c.fingerprint then Match
    else Mismatch(pinned[c.deviceId], c.fingerprint)
  }

  function EntryFor(st: LogState, c: Check): Entry {
    var action :=
      match Verdict(st.pinned, c) case FirstSeen => Pin case Match => Observed case Mismatch(_, _) => Changed;
    Entry(st.nextSeq, st.lastHash, c.now, c.peerLabel, c.deviceId, c.fingerprint, action)
  }

  // ---- Runs ----

  /** The file and the state held in memory. */
  datatype Log = Log(file: seq<Line>, state: LogState)

  /** A check, or closing the log and opening it again. */
  datatype Op = Checks(check: Check) | Reopen

  function Step(h: Hash, log: Log, op: Op): Log {
    match op
    case Checks(c) =>
      var e := EntryFor(log.state, c);
      var pinned := if Verdict(log.state.pinned, c).FirstSeen?
                    then log.state.pinned[c.deviceId := c.fingerprint] else log.state.pinned;
      Log(log.file + [Record(e)], LogState(log.state.nextSeq + 1, h(e), pinned))
    case Reopen =>
      (match Replay(h, log.file)
       case Loaded(st) => log.(state := st)
       case Refused(_) => log)
  }

  function Run(h: Hash, log: Log, ops: seq<Op>): Log {
    if ops == [] then log else Step(h, Run(h, log, ops[..|ops| - 1]), ops[|ops| - 1])
  }

  /** What reopening the file would load is what is held in memory. */
  ghost predicate InStep(h: Hash, log: Log) {
    Replay(h, log.file) == Loaded(log.state)
  }

  lemma StepKeepsInStep(h: Hash, log: Log, op: Op)
    requires InStep(h, log)
    ensures InStep(h, Step(h, log, op))
    ensures op.Reopen? ==> Step(h, log, op) == log
  {
    if op.Checks? {
      var file := Step(h, log, op).file;
      assert file[..|file| - 1] == log.file;
    }
  }

  /** Closing and reopening at any point rebuilds the same counter, hash and pins, so a run
      with reopenings is the run without them. */
  lemma {:induction false} ReopenChangesNothing(h: Hash, log: Log, ops: seq<Op>)
    requires InStep(h, log)
    ensures InStep(h, Run(h, log, ops))
    ensures Run(h, log, ops) == Run(h, log, ChecksOnly(ops))
  {
    if ops != [] {
      var before, last := ops[..|ops| - 1], ops[|ops| - 1];
      ReopenChangesNothing(h, log, before);
      StepKeepsInStep(h, Run(h, log, before), last);
      if last.Checks? {
        var only := ChecksOnly(ops);
        assert only[..|only| - 1] == ChecksOnly(before);
      } else {
        assert ChecksOnly(ops) == ChecksOnly(before);
      }
    }
  }

  function ChecksOnly(ops: seq<Op>): seq<Op> {
    if ops == [] then []
    else ChecksOnly(ops[..|ops| - 1]) + if ops[|ops| - 1].Checks? then [ops[|ops| - 1]] else []
  }

  /** The fingerprint of the first check of device `d` in the run. */
  function FirstFingerprint(ops: seq<Op>, d: string): Option<string> {
    if ops == [] then None
    else
      var earlier := FirstFingerprint(ops[..|ops| - 1], d);
      var last := ops[|ops| - 1];
      if earlier.None? && last.Checks? && last.check.deviceId == d then Some(last.check.fingerprint) else earlier
  }

  lemma {:induction false} PinsAreFirst(h: Hash, ops: seq<Op>, d: string)
    ensures var st := Run(h, Log([], Empty), ops).state;
            match FirstFingerprint(ops, d)
            case None => d !in st.pinned
            case Some(fp) => d in st.pinned && st.pinned[d] == fp
  {
    if ops != [] {
      var before := ops[..|ops| - 1];
      PinsAreFirst(h, before, d);
      ReopenChangesNothing(h, Log([], Empty), before);
      StepKeepsInStep(h, Run(h, Log([], Empty), before), ops[|ops| - 1]);
    }
  }

  /** Whatever came before, with any reopenings in between, a check of a device answers
      FirstSeen exactly when it is the first of that device, Match exactly when it repeats
      the first fingerprint ever seen for it, and otherwise reports that first one. */
  lemma TrustOnFirstUse(h: Hash, ops: seq<Op>, c: Check)
    ensures Verdict(Run(h, Log([], Empty), ops).state.pinned, c) ==
            match FirstFingerprint(ops, c.deviceId)
            case None => FirstSeen
            case Some(fp) => if fp == c.fingerprint then Match else Mismatch(fp, c.fingerprint)
  {
    PinsAreFirst(h, ops, c.deviceId);
  }

  /** One entry per check, numbered from 0. */
  lemma {:induction false} OneEntryPerCheck(h: Hash, ops: seq<Op>)
    ensures var log := Run(h, Log([], Empty), ops);
            && |log.file| == |ChecksOnly(ops)| == log.state.nextSeq
            && forall k | 0 <= k < |log.file| :: log.file[k].Record? && log.file[k].entry.number == k
  {
    if ops != [] {
      var before := ops[..|ops| - 1];
      OneEntryPerCheck(h, before);
      ReopenChangesNothing(h, Log([], Empty), before);
      StepKeepsInStep(h, Run(h, Log([], Empty), before), ops[|ops| - 1]);
    }
  }

  /** The entry of each check tells what was checked and when, and what came of it: a pin for
      the first check of a device, else whether the fingerprint was the first one. */
  lemma {:induction false} EntriesRecordChecks(h: Hash, ops: seq<Op>, k: nat)
    requires k < |ChecksOnly(ops)|
    ensures k < |Run(h, Log([], Empty), ops).file| && Run(h, Log([], Empty), ops).file[k].Record?
    ensures var e, only := Run(h, Log([], Empty), ops).file[k].entry, ChecksOnly(ops);
            && only[k].Checks?
            && var c, first := only[k].check, FirstFingerprint(only[..k], only[k].check.deviceId);
               && e.timestampMs == c.now && e.peerLabel == c.peerLabel
               && e.deviceId == c.deviceId && e.fingerprint == c.fingerprint
               && e.action == if first == None then Pin else if first == Some(c.fingerprint) then Observed else Changed
  {
    var before, last := ops[..|ops| - 1], ops[|ops| - 1];
    OneEntryPerCheck(h, before);
    ReopenChangesNothing(h, Log([], Empty), before);
    StepKeepsInStep(h, Run(h, Log([], Empty), before), last);
    if k < |ChecksOnly(before)| {
      EntriesRecordChecks(h, before, k);
      assert ChecksOnly(ops)[..k] == ChecksOnly(before)[..k];
    } else {
      assert ChecksOnly(ops)[..k] == ChecksOnly(before);
      TrustOnFirstUse(h, ChecksOnly(before), last.check);
    }
  }

  // ---- The log object ----

  class PinLog {
    const h: Hash
    /** Lines of the file on disk. */
    var file: seq<Line>
    var nextSeq: nat
    var lastHash: string
    var pinned: map<string, string>

    ghost function View(): Log
      reads this
    {
      Log(file, LogState(nextSeq, lastHash, pinned))
    }

    /** A log object over an existing file, before its contents are read. */
    constructor (h: Hash, file: seq<Line>)
      ensures this.h == h && View() == Log(file, Empty)
    {
      this.h, this.file := h, file;
      nextSeq, lastHash, pinned := 0, "", map[];
    }

    /** Read and verify the file; on refusal the state is of no use. */
    method Open() returns (error: Option<OpenError>)
      modifies this`nextSeq, this`lastHash, this`pinned
      ensures match Replay(h, file)
              case Loaded(st) => error == None && View() == Log(old(file), st)
              case Refused(why) => error == Some(why)
      ensures error == None <==> Unreadable !in file && Chained(h, Entries(file))
      ensures error == None ==>
                nextSeq == |Entries(file)| && lastHash == Tip(h, Entries(file)) && PinsOf(Entries(file), pinned)
    {
      error := ReplayFile();
      LoadsIffChained(h, file);
    }

    /** The loop over the lines. */
    method ReplayFile() returns (error: Option<OpenError>)
      modifies this`nextSeq, this`lastHash, this`pinned
      ensures match Replay(h, file)
              case Loaded(st) => error == None && View() == Log(old(file), st)
              case Refused(why) => error == Some(why)
    {
      nextSeq, lastHash, pinned := 0, "", map[];
      for k := 0 to |file|
        invariant file == old(file) && Replay(h, file[..k]) == Loaded(View().state)
      {
        assert file[..k + 1][..k] == file[..k];
        var line := file[k];
        if line.Blank? {
          continue;
        }
        if line.Unreadable? {
          PrefixRefuses(h, file, k + 1);
          return Some(Parse);
        }
        var entry := line.entry;
        if entry.number != nextSeq {
          PrefixRefuses(h, file, k + 1);
          return Some(SeqGap);
        }
        if entry.prevHash != lastHash {
          PrefixRefuses(h, file, k + 1);
          return Some(ChainBroken);
        }
        if entry.action.Pin? {
          pinned := pinned[entry.deviceId := entry.fingerprint];
        }
        lastHash := h(entry);
        nextSeq := entry.number + 1;
      }
      assert file[..|file|] == file;
      return None;
    }

    method CheckOrPin(c: Check) returns (r: CheckResult)
      modifies this
      ensures View() == Step(h, old(View()), Checks(c))
      ensures r == Verdict(old(pinned), c)
    {
      var action;
      if c.deviceId !in pinned {
        action, r := Pin, FirstSeen;
      } else if pinned[c.deviceId] == c.fingerprint {
        action, r := Observed, Match;
      } else {
        action, r := Changed, Mismatch(pinned[c.deviceId], c.fingerprint);
      }
      var entry := Entry(nextSeq, lastHash, c.now, c.peerLabel, c.deviceId, c.fingerprint, action);
      file := file + [Record(entry)];
      if action.Pin? {
        pinned := pinned[c.deviceId := c.fingerprint];
      }
      lastHash := h(entry);
      nextSeq := nextSeq + 1;
    }
  }

  lemma {:induction false} PrefixRefuses(h: Hash, lines: seq<Line>, k: nat)
    requires k <= |lines| && Replay(h, lines[..k]).Refused?
    ensures Replay(h, lines) == Replay(h, lines[..k])
    decreases |lines|
  {
    if k == |lines| {
      assert lines[..k] == lines;
    } else {
      assert lines[..|lines| - 1][..k] == lines[..k];
      PrefixRefuses(h, lines[..|lines| - 1], k);
    }
  }
}
