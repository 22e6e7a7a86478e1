/** The hash-chained audit log of agent actions. Entry hash and redaction are parameters. */
module AuditLog {
  import opened Common
  import opened Capabilities

  datatype Outcome = Ok | Denied | Failed

  /** `action` is the (redacted) JSON text. */
  datatype Entry = Entry(
    number: nat,
    prevHash: string,
    timestampMs: nat,
    tokenJti: string,
    capability: Capability,
    action: string,
    confirmed: Option<bool>,
    outcome: Outcome
  )

  datatype Line = Blank | Unreadable | Record(entry: Entry)

  type Hash = Entry -> string

  type Redact = (Capability, string) -> string

  /** The hash in front of the first entry: 64 zeros. */
  const GENESIS: string := "0000000000000000000000000000000000000000000000000000000000000000"

  datatype Fault = Parse | SeqMismatch | ChainBroken

  datatype Chain = Verified(lastHash: string, count: nat) | Broken(fault: Fault)

  function FollowLine(h: Hash, lastHash: string, count: nat, line: Line): Chain {
    match line
    case Blank => Verified(lastHash, count)
    case Unreadable => Broken(Parse)
    case Record(e) =>
      if e.number != count then Broken(SeqMismatch)
      else if e.prevHash != lastHash then Broken(ChainBroken)
      else Verified(h(e), count + 1)
  }

  function Follow(h: Hash, lines: seq<Line>): Chain {
    if lines == [] then Verified(GENESIS, 0)
    else match Follow(h, lines[..|lines| - 1])
         case Broken(f) => Broken(f)
         case Verified(lastHash, count) => FollowLine(h, lastHash, count, lines[|lines| - 1])
  }

  /** The entries of a file, blank lines skipped. */
  function Entries(lines: seq<Line>): seq<Entry> {
    if lines == [] then []
    else
      var last := lines[|lines| - 1];
      Entries(lines[..|lines| - 1]) + if last.Record? then [last.entry] else []
  }

  // ---- Appending ----

  datatype Action = Action(
    tokenJti: string,
    capability: Capability,
    action: string,
    confirmed: Option<bool>,
    outcome: Outcome,
    now: nat
  )

  function EntryFor(redact: Redact, lastHash: string, count: nat, a: Action): Entry {
    Entry(count, lastHash, a.now, a.tokenJti, a.capability, redact(a.capability, a.action), a.confirmed, a.outcome)
  }

  /** Appending to a verified file of n entries, from its tip, gives one of n + 1 whose tip
      is the new entry's hash; the entry tells what was done, with the action redacted. */
  lemma AppendVerifies(h: Hash, redact: Redact, lines: seq<Line>, a: Action)
    requires Follow(h, lines).Verified?
    ensures var e := EntryFor(redact, Follow(h, lines).lastHash, Follow(h, lines).count, a);
            && Follow(h, lines + [Record(e)]) == Verified(h(e), Follow(h, lines).count + 1)
            && Entries(lines + [Record(e)]) == Entries(lines) + [e]
            && e.number == |Entries(lines)| && e.prevHash == Tip(h, Entries(lines)) && e.timestampMs == a.now
            && e.tokenJti == a.tokenJti && e.capability == a.capability
            && e.action == redact(a.capability, a.action) && e.confirmed == a.confirmed && e.outcome == a.outcome
  {
    var e := EntryFor(redact, Follow(h, lines).lastHash, Follow(h, lines).count, a);
    CountsEntries(h, lines);
    assert (lines + [Record(e)])[..|lines|] == lines;
  }

  /** The first entry of a file carries 64 zeros. */
  lemma GenesisIs(h: Hash)
    ensures Tip(h, []) == "0000000000000000000000000000000000000000000000000000000000000000" && |Tip(h, [])| == 64
  {
  }

  lemma {:induction false} CountsEntries(h: Hash, lines: seq<Line>)
    requires Follow(h, lines).Verified?
    ensures Follow(h, lines).count == |Entries(lines)|
    ensures forall k | 0 <= k < |Entries(lines)| :: Entries(lines)[k].number == k
    ensures Follow(h, lines).lastHash == Tip(h, Entries(lines))
  {
    if lines != [] { CountsEntries(h, lines[..|lines| - 1]); }
  }

  ghost predicate CollisionFree(h: Hash) {
    forall e, f :: h(e) == h(f) ==> e == f
  }

  function Tip(h: Hash, es: seq<Entry>): string {
    if es == [] then GENESIS else h(es[|es| - 1])
  }

  /** Entries that form a chain by themselves. */
  ghost predicate Chained(h: Hash, es: seq<Entry>) {
    es != [] ==>
      var before, last := es[..|es| - 1], es[|es| - 1];
      Chained(h, before) && last.number == |before| && last.prevHash == Tip(h, before)
  }

  /** A file verifies exactly when every line is readable and its entries form a chain. */
  lemma {:induction false} VerifiedIffChained(h: Hash, lines: seq<Line>)
    ensures Follow(h, lines).Verified? <==> Unreadable !in lines && Chained(h, Entries(lines))
  {
    if lines != [] {
      var before, last := lines[..|lines| - 1], lines[|lines| - 1];
      VerifiedIffChained(h, before);
      assert lines == before + [last];
      if last.Record? {
        assert Entries(lines)[..|Entries(before)|] == Entries(before);
      } else {
        assert Entries(lines) == Entries(before);
      }
      if Follow(h, before).Verified? { CountsEntries(h, before); }
    }
  }

  lemma {:induction false} ChainsEqual(h: Hash, a: seq<Entry>, b: seq<Entry>)
    requires CollisionFree(h) && Chained(h, a) && Chained(h, b) && |a| == |b| && Tip(h, a) == Tip(h, b)
    ensures a == b
  {
    if a != [] {
      var n := |a| - 1;
      assert a[n] == b[n];
      ChainsEqual(h, a[..n], b[..n]);
      assert a == a[..n] + [a[n]] && b == b[..n] + [b[n]];
    }
  }

  /** Tamper evidence: two files that verify with the same count and tip hash hold the
      same entries. */
  lemma TipDeterminesEntries(h: Hash, a: seq<Line>, b: seq<Line>)
    requires CollisionFree(h)
    requires Follow(h, a).Verified? && Follow(h, a) == Follow(h, b)
    ensures Entries(a) == Entries(b)
  {
    CountsEntries(h, a);
    CountsEntries(h, b);
    VerifiedIffChained(h, a);
    VerifiedIffChained(h, b);
    ChainsEqual(h, Entries(a), Entries(b));
  }

  /** What a refused file is refused for: of the first line that does not fit, being unreadable
      comes before its number, and its number before the hash it carries. */
  lemma RefusedFor(h: Hash, lines: seq<Line>, k: nat)
    requires k < |lines| && Follow(h, lines[..k]).Verified? && Follow(h, lines[..k + 1]).Broken?
    ensures !lines[k].Blank?
    ensures var es, line := Entries(lines[..k]), lines[k];
            Follow(h, lines) ==
            if line.Unreadable? then Broken(Parse)
            else if line.entry.number != |es| then Broken(SeqMismatch)
            else Broken(ChainBroken)
    ensures var es, line := Entries(lines[..k]), lines[k];
            line.Record? && line.entry.number == |es| ==> line.entry.prevHash != Tip(h, es)
  {
    CountsEntries(h, lines[..k]);
    assert lines[..k + 1][..k] == lines[..k];
    PrefixBreaks(h, lines, k + 1);
  }

  lemma {:induction false} LinkAt(h: Hash, es: seq<Entry>, k: nat)
    requires Chained(h, es) && k + 1 < |es|
    ensures es[k + 1].prevHash == h(es[k])
  {
    if k + 2 < |es| { LinkAt(h, es[..|es| - 1], k); }
  }

  /** Replacing one entry of a chain breaks the chain, or, for the last one, changes the tip. */
  lemma EditIsVisible(h: Hash, es: seq<Entry>, k: nat, e: Entry)
    requires CollisionFree(h) && Chained(h, es) && k < |es| && e != es[k]
    ensures var edited := es[k := e];
            if k + 1 < |es| then !Chained(h, edited) else Tip(h, edited) != Tip(h, es)
  {
    var edited := es[k := e];
    if k + 1 < |es| && Chained(h, edited) {
      LinkAt(h, es, k);
      LinkAt(h, edited, k);
    }
  }

  // ---- Collision-free hashes exist ----

  function Unary(n: nat): string {
    if n == 0 then "0" else "1" + Unary(n - 1)
  }

  function Quoted(s: string): string {
    Unary(|s|) + s
  }

  function CapabilityIndex(c: Capability): nat {
    match c
    case ScreenRead => 0
    case PointerMove => 1
    case PointerClick => 2
    case KeyType => 3
    case KeyCombo => 4
    case ClipboardRead => 5
    case ClipboardWrite => 6
    case FileRead => 7
    case FileWrite => 8
    case ShellExec => 9
    case OpenUrl => 10
  }

  function ConfirmedIndex(c: Option<bool>): nat {
    match c
    case None => 0
    case Some(yes) => if yes then 1 else 2
  }

  function OutcomeIndex(o: Outcome): nat {
    match o
    case Ok => 0
    case Denied => 1
    case Failed => 2
  }

  /** The entry itself, spelled out in two halves. */
  function Spelled(e: Entry): string {
    Unary(e.number) + (Quoted(e.prevHash) + (Unary(e.timestampMs) + (Quoted(e.tokenJti) + SpelledRest(e))))
  }

  function SpelledRest(e: Entry): string {
    Unary(CapabilityIndex(e.capability)) +
    (Quoted(e.action) + (Unary(ConfirmedIndex(e.confirmed)) + (Unary(OutcomeIndex(e.outcome)) + "")))
  }

  lemma {:induction false} UnaryEnds(a: nat, b: nat, x: string, y: string)
    requires Unary(a) + x == Unary(b) + y
    ensures a == b && x == y
  {
    assert (Unary(a) + x)[0] == (Unary(b) + y)[0];
    if a == 0 || b == 0 {
      assert (Unary(a) + x)[1..] == x && (Unary(b) + y)[1..] == y;
    } else {
      assert (Unary(a) + x)[1..] == Unary(a - 1) + x && (Unary(b) + y)[1..] == Unary(b - 1) + y;
      UnaryEnds(a - 1, b - 1, x, y);
    }
  }

  lemma QuotedEnds(a: string, b: string, x: string, y: string)
    requires Quoted(a) + x == Quoted(b) + y
    ensures a == b && x == y
  {
    assert Unary(|a|) + (a + x) == Quoted(a) + x && Unary(|b|) + (b + y) == Quoted(b) + y;
    UnaryEnds(|a|, |b|, a + x, b + y);
    assert (a + x)[..|a|] == a && (b + y)[..|b|] == b;
    assert (a + x)[|a|..] == x && (b + y)[|b|..] == y;
  }

  lemma SpelledRestInjective(e: Entry, f: Entry)
    requires SpelledRest(e) == SpelledRest(f)
    ensures e.capability == f.capability && e.action == f.action && e.confirmed == f.confirmed && e.outcome == f.outcome
  {
    var e3, f3 := Unary(OutcomeIndex(e.outcome)) + "", Unary(OutcomeIndex(f.outcome)) + "";
    var e2, f2 := Unary(ConfirmedIndex(e.confirmed)) + e3, Unary(ConfirmedIndex(f.confirmed)) + f3;
    var e1, f1 := Quoted(e.action) + e2, Quoted(f.action) + f2;
    UnaryEnds(CapabilityIndex(e.capability), CapabilityIndex(f.capability), e1, f1);
    QuotedEnds(e.action, f.action, e2, f2);
    UnaryEnds(ConfirmedIndex(e.confirmed), ConfirmedIndex(f.confirmed), e3, f3);
    UnaryEnds(OutcomeIndex(e.outcome), OutcomeIndex(f.outcome), "", "");
  }

  lemma SpelledInjective(e: Entry, f: Entry)
    requires Spelled(e) == Spelled(f)
    ensures e == f
  {
    var e3, f3 := Quoted(e.tokenJti) + SpelledRest(e), Quoted(f.tokenJti) + SpelledRest(f);
    var e2, f2 := Unary(e.timestampMs) + e3, Unary(f.timestampMs) + f3;
    UnaryEnds(e.number, f.number, Quoted(e.prevHash) + e2, Quoted(f.prevHash) + f2);
    QuotedEnds(e.prevHash, f.prevHash, e2, f2);
    UnaryEnds(e.timestampMs, f.timestampMs, e3, f3);
    QuotedEnds(e.tokenJti, f.tokenJti, SpelledRest(e), SpelledRest(f));
    SpelledRestInjective(e, f);
  }

  lemma CollisionFreeHashExists()
    ensures CollisionFree(Spelled)
  {
    forall e: Entry, f: Entry | Spelled(e) == Spelled(f) ensures e == f { SpelledInjective(e, f); }
  }

  // ---- Reading and writing the file ----

  lemma {:induction false} PrefixBreaks(h: Hash, lines: seq<Line>, k: nat)
    requires k <= |lines| && Follow(h, lines[..k]).Broken?
    ensures Follow(h, lines) == Follow(h, lines[..k])
    decreases |lines|
  {
    if k == |lines| {
      assert lines[..k] == lines;
    } else {
      assert lines[..|lines| - 1][..k] == lines[..k];
      PrefixBreaks(h, lines[..|lines| - 1], k);
    }
  }

  /** Verify only: the tip hash and the count. */
  method ReplayChain(h: Hash, lines: seq<Line>) returns (r: Chain)
    ensures r == Follow(h, lines)
  {
    var prevHash := GENESIS;
    var count := 0;
    for k := 0 to |lines|
      invariant Follow(h, lines[..k]) == Verified(prevHash, count)
    {
      assert lines[..k + 1][..k] == lines[..k];
      var line := lines[k];
      match line {
        case Blank =>
        case Unreadable =>
          PrefixBreaks(h, lines, k + 1);
          return Broken(Parse);
        case Record(e) =>
          if e.number != count {
            PrefixBreaks(h, lines, k + 1);
            return Broken(SeqMismatch);
          }
          if e.prevHash != prevHash {
            PrefixBreaks(h, lines, k + 1);
            return Broken(ChainBroken);
          }
          prevHash := h(e);
          count := count + 1;
      }
    }
    assert lines[..|lines|] == lines;
    return Verified(prevHash, count);
  }

  /** Read all: accepts the same files as `ReplayChain`, with the same fault, and returns
      their entries in order. */
  method ReadAllVerified(h: Hash, lines: seq<Line>) returns (fault: Option<Fault>, entries: seq<Entry>)
    ensures fault == match Follow(h, lines) case Verified(_, _) => None case Broken(f) => Some(f)
    ensures fault.None? ==> entries == Entries(lines)
  {
    entries := [];
    var prevHash := GENESIS;
    var count := 0;
    for k := 0 to |lines|
      invariant Follow(h, lines[..k]) == Verified(prevHash, count)
      invariant entries == Entries(lines[..k])
    {
      assert lines[..k + 1][..k] == lines[..k];
      var line := lines[k];
      match line {
        case Blank =>
        case Unreadable =>
          PrefixBreaks(h, lines, k + 1);
          return Some(Parse), [];
        case Record(e) =>
          if e.number != count {
            PrefixBreaks(h, lines, k + 1);
            return Some(SeqMismatch), [];
          }
          if e.prevHash != prevHash {
            PrefixBreaks(h, lines, k + 1);
            return Some(ChainBroken), [];
          }
          prevHash := h(e);
          count := count + 1;
          entries := entries + [e];
      }
    }
    assert lines[..|lines|] == lines;
    return None, entries;
  }

  class Log {
    const h: Hash
    const redact: Redact
    /** Lines of the file on disk. */
    var file: seq<Line>
    var lastHash: string
    var nextSeq: nat

    /** The file verifies, and memory holds its tip. */
    ghost predicate Valid()
      reads this
    {
      Follow(h, file) == Verified(lastHash, nextSeq)
    }

    constructor (h: Hash, redact: Redact, file: seq<Line>)
      ensures this.h == h && this.redact == redact && this.file == file
    {
      this.h, this.redact, this.file := h, redact, file;
      lastHash, nextSeq := GENESIS, 0;
    }

    method Open() returns (ok: bool)
      modifies this`lastHash, this`nextSeq
      ensures ok == Follow(h, file).Verified?
      ensures ok ==> Valid()
    {
      var r := ReplayChain(h, file);
      if r.Broken? {
        return false;
      }
      lastHash, nextSeq := r.lastHash, r.count;
      return true;
    }

    method Append(a: Action) returns (number: nat)
      requires Valid()
      modifies this
      ensures Valid()
      ensures file == old(file) + [Record(EntryFor(redact, old(lastHash), old(nextSeq), a))]
      ensures Entries(file) == Entries(old(file)) + [EntryFor(redact, old(lastHash), old(nextSeq), a)]
      ensures number == old(nextSeq) && nextSeq == number + 1
    {
      AppendVerifies(h, redact, file, a);
      var action := redact(a.capability, a.action);
      var entry := Entry(nextSeq, lastHash, a.now, a.tokenJti, a.capability, action, a.confirmed, a.outcome);
      var entryHash := h(entry);
      file := file + [Record(entry)];
      lastHash := entryHash;
      number := nextSeq;
      nextSeq := nextSeq + 1;
    }
  }
}
