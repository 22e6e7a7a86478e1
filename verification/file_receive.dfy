/** Receiving files on the host: the transfer table and its temp files in the shared
    directory. The directory is a map from names to contents; the digest and the
    outcome of each system call are parameters. */
module FileReceive {
  import opened Common
  import opened Bytes

  type Name = string
  /** Text form of a transfer id. */
  type Id = string
  type Content = seq<byte>
  /** A buffer in memory: shorter than 2^63 bytes. */
  type Buffer = c: seq<byte> | |c| < 0x8000_0000_0000_0000
  type Files = map<Name, Content>
  type Digest = Content -> string

  const MAX_CONCURRENT_TRANSFERS: nat := 8
  const MAX_DEDUP: nat := 9_999
  const U64_MAX: nat := 0xFFFF_FFFF_FFFF_FFFF
  /** Seeking at or past 2^63 is refused by the operating system. */
  const SEEK_LIMIT: nat := 0x8000_0000_0000_0000

  // ---- Names ----

  predicate Control(c: char) {
    c as int < 0x20 || 0x7f <= c as int <= 0x9f
  }

  function Filtered(s: string): string {
    if s == "" then ""
    else if s[0] in ['/', '\\', '\0', ':'] || Control(s[0]) then Filtered(s[1..])
    else [s[0]] + Filtered(s[1..])
  }

  function TrimDots(s: string): (t: string)
    ensures t == "" || t[0] != '.'
  {
    if s != "" && s[0] == '.' then TrimDots(s[1..]) else s
  }

  function SanitizeFilename(name: string): string {
    var t := TrimDots(Filtered(name));
    if |t| <= 255 then t else t[..255]
  }

  predicate Clean(c: char) {
    c !in ['/', '\\', '\0', ':'] && !Control(c)
  }

  lemma {:induction false} FilteredClean(s: string)
    ensures forall c <- Filtered(s) :: Clean(c)
  {
    if s != "" { FilteredClean(s[1..]); }
  }

  lemma {:induction false} TrimKeeps(s: string)
    ensures forall c <- TrimDots(s) :: c in s
  {
    if s != "" && s[0] == '.' { TrimKeeps(s[1..]); }
  }

  /** A sanitized name has at most 255 characters, no separator or control character, and
      never starts with a dot; sanitizing it again changes nothing. */
  lemma SanitizedNames(name: string)
    ensures var t := SanitizeFilename(name);
            && |t| <= 255 && (t == "" || t[0] != '.')
            && (forall c <- t :: Clean(c))
            && SanitizeFilename(t) == t
  {
    FilteredClean(name);
    TrimKeeps(Filtered(name));
    var t := SanitizeFilename(name);
    CleanUnfiltered(t);
  }

  lemma {:induction false} CleanUnfiltered(s: string)
    requires forall c <- s :: Clean(c)
    ensures Filtered(s) == s
  {
    if s != "" {
      assert s[0] in s && Clean(s[0]);
      CleanUnfiltered(s[1..]);
      assert s == [s[0]] + s[1..];
    }
  }

  /** Where the characters of `s` are that are no separator, colon or control character. */
  ghost predicate CleanAt(s: string, kept: seq<nat>) {
    && (forall i, j | 0 <= i < j < |kept| :: kept[i] < kept[j])
    && (forall i: nat :: i in kept <==>
          i < |s| && s[i] !in "/\\:" && 0x20 <= s[i] as int && !(0x7f <= s[i] as int <= 0x9f))
  }

  /** `t` is what stands in `s` at these places. */
  ghost predicate Picks(s: string, kept: seq<nat>, t: string) {
    |t| == |kept| && forall i | 0 <= i < |kept| :: kept[i] < |s| && t[i] == s[kept[i]]
  }

  lemma {:induction false} FilteredAt(s: string, kept: seq<nat>)
    requires CleanAt(s, kept)
    ensures Picks(s, kept, Filtered(s))
    decreases |s|
  {
    if s == "" {
      if kept != [] { SomethingKept(s, kept); }
    } else {
      var own := if 0 in kept then 1 else 0;
      FirstKept(s, kept);
      var later := Earlier(kept[own..]);
      LaterKept(s, kept, own, later);
      FilteredAt(s[1..], later);
      PicksMore(s, kept, own, later, Filtered(s[1..]));
      KeptIfClean(s, kept);
    }
  }

  lemma SomethingKept(s: string, kept: seq<nat>)
    requires CleanAt(s, kept) && kept != []
    ensures s != ""
  {
    assert kept[0] in kept;
  }

  lemma KeptIfClean(s: string, kept: seq<nat>)
    requires CleanAt(s, kept) && s != ""
    ensures Filtered(s) == (if 0 in kept then [s[0]] else []) + Filtered(s[1..])
  {
  }

  lemma PicksMore(s: string, kept: seq<nat>, own: nat, later: seq<nat>, t: string)
    requires s != "" && own <= 1 && |kept| == own + |later| && (own == 1 ==> kept[0] == 0)
    requires forall i | 0 <= i < |later| :: kept[own + i] == later[i] + 1
    requires Picks(s[1..], later, t)
    ensures Picks(s, kept, (if own == 1 then [s[0]] else []) + t)
  {
    var all := (if own == 1 then [s[0]] else []) + t;
    forall i | own <= i < |kept| ensures kept[i] < |s| && all[i] == s[kept[i]] {
      assert kept[own + (i - own)] == later[i - own] + 1 && t[i - own] == s[1..][later[i - own]];
    }
  }

  /** Positions in the text without its first character. */
  function Earlier(kept: seq<nat>): (earlier: seq<nat>)
    requires forall i | 0 <= i < |kept| :: kept[i] > 0
    ensures |earlier| == |kept| && forall i | 0 <= i < |kept| :: earlier[i] + 1 == kept[i]
  {
    if kept == [] then [] else [kept[0] - 1] + Earlier(kept[1..])
  }

  lemma FirstKept(s: string, kept: seq<nat>)
    requires CleanAt(s, kept)
    ensures 0 in kept ==> kept[0] == 0
    ensures forall i | 0 < i < |kept| :: kept[i] > 0
  {
    if 0 in kept {
      var i :| 0 <= i < |kept| && kept[i] == 0;
    }
  }

  lemma LaterKept(s: string, kept: seq<nat>, own: nat, later: seq<nat>)
    requires CleanAt(s, kept) && s != "" && own == if 0 in kept then 1 else 0
    requires |later| == |kept| - own && forall i | 0 <= i < |later| :: kept[own + i] == later[i] + 1
    ensures CleanAt(s[1..], later)
  {
    forall i: nat
      ensures i in later <==>
        i < |s| - 1 && s[1..][i] !in "/\\:" && 0x20 <= s[1..][i] as int && !(0x7f <= s[1..][i] as int <= 0x9f)
    {
      assert i in later <==> i + 1 in kept by {
        if i in later {
          var k :| 0 <= k < |later| && later[k] == i;
          assert kept[own + k] == i + 1;
        }
        if i + 1 in kept {
          var k :| 0 <= k < |kept| && kept[k] == i + 1;
          FirstKept(s, kept);
          assert k >= own && later[k - own] == i;
        }
      }
    }
  }

  lemma {:induction false} TrimmedAt(s: string, dots: nat)
    requires dots <= |s| && (forall i | 0 <= i < dots :: s[i] == '.') && (dots < |s| ==> s[dots] != '.')
    ensures TrimDots(s) == s[dots..]
  {
    if dots > 0 {
      TrimmedAt(s[1..], dots - 1);
      assert s[1..][dots - 1..] == s[dots..];
    }
  }

  /** What sanitizing does: of the characters that are no separator, colon or control character,
      in order, it drops the leading dots and what lies beyond 255. */
  lemma SanitizedIs(name: string, kept: seq<nat>, dots: nat)
    requires CleanAt(name, kept) && dots <= |kept| && forall i | 0 <= i < |kept| :: kept[i] < |name|
    requires (forall i | 0 <= i < dots :: name[kept[i]] == '.') && (dots < |kept| ==> name[kept[dots]] != '.')
    ensures |SanitizeFilename(name)| == Min(255, |kept| - dots)
    ensures forall i | 0 <= i < |SanitizeFilename(name)| :: SanitizeFilename(name)[i] == name[kept[dots + i]]
  {
    FilteredAt(name, kept);
    TrimmedAt(Filtered(name), dots);
  }

  ghost predicate AllClean(s: string) {
    forall i | 0 <= i < |s| :: s[i] !in "/\\:" && 0x20 <= s[i] as int && !(0x7f <= s[i] as int <= 0x9f)
  }

  /** A name of at most 255 such characters that does not start with a dot stays as it is. */
  lemma CleanNameStays(name: string)
    requires AllClean(name) && |name| <= 255 && (name == "" || name[0] != '.')
    ensures SanitizeFilename(name) == name
  {
    CleanUnfiltered(name);
  }

  function TempName(id: Id): Name {
    "." + id + ".tmp"
  }

  lemma TempNameInjective(a: Id, b: Id)
    ensures TempName(a) == TempName(b) ==> a == b
  {
    assert TempName(a)[1..|TempName(a)| - 4] == a;
    assert TempName(b)[1..|TempName(b)| - 4] == b;
  }

  predicate Hidden(n: Name) {
    n != "" && n[0] == '.'
  }

  function Decimal(n: nat): (s: string) {
    if n < 10 then [('0' as int + n) as char] else Decimal(n / 10) + [('0' as int + n % 10) as char]
  }

  /** Position of the last dot, or the length if there is none. */
  function LastDot(s: string): (k: nat)
    ensures k <= |s| && (k < |s| ==> s[k] == '.')
  {
    if s == "" then 0
    else if s[|s| - 1] == '.' then |s| - 1
    else
      var k := LastDot(s[..|s| - 1]);
      if k == |s| - 1 then |s| else k
  }

  /** `file_stem` and `extension` (with its dot) of a name that does not start with one. */
  function Stem(name: Name): Name {
    name[..LastDot(name)]
  }

  function Extension(name: Name): Name {
    name[LastDot(name)..]
  }

  /** The `k`-th name tried for a saved file. */
  function Candidate(name: Name, k: nat): Name {
    if k == 0 then name else Stem(name) + " (" + Decimal(k) + ")" + Extension(name)
  }

  /** The number that decimal digits stand for. */
  function Reads(s: string): nat {
    if s == "" || !('0' <= s[|s| - 1] <= '9') then 0
    else 10 * Reads(s[..|s| - 1]) + (s[|s| - 1] as int - '0' as int)
  }

  lemma {:induction false} DecimalReads(n: nat)
    ensures Reads(Decimal(n)) == n && forall c <- Decimal(n) :: '0' <= c <= '9'
    ensures n > 0 ==> Decimal(n)[0] != '0'
    ensures |Decimal(n)| >= 1
  {
    if n >= 10 {
      DecimalReads(n / 10);
      assert Decimal(n)[..|Decimal(n)| - 1] == Decimal(n / 10);
    }
  }

  lemma {:induction false} LastDotAt(stem: string, ext: string)
    requires '.' !in ext
    ensures LastDot(stem + "." + ext) == |stem|
    decreases |ext|
  {
    var s := stem + "." + ext;
    if ext != "" {
      assert s[..|s| - 1] == stem + "." + ext[..|ext| - 1];
      assert s[|s| - 1] == ext[|ext| - 1];
      LastDotAt(stem, ext[..|ext| - 1]);
    }
  }

  lemma {:induction false} NoLastDot(s: string)
    requires '.' !in s
    ensures LastDot(s) == |s|
  {
    if s != "" { NoLastDot(s[..|s| - 1]); }
  }

  /** Later candidates carry their number before the last extension, or at the end. */
  lemma CandidateSpelled(stem: string, ext: string, k: nat)
    requires '.' !in ext
    ensures Candidate(stem, 0) == stem && Candidate(stem + "." + ext, 0) == stem + "." + ext
    ensures k > 0 ==> Candidate(stem + "." + ext, k) == stem + " (" + Decimal(k) + ")" + "." + ext
    ensures k > 0 && '.' !in stem ==> Candidate(stem, k) == stem + " (" + Decimal(k) + ")"
    ensures Reads(Decimal(k)) == k
  {
    DecimalReads(k);
    LastDotAt(stem, ext);
    var name := stem + "." + ext;
    assert Stem(name) == stem && Extension(name) == "." + ext;
    if k > 0 {
      var numbered := stem + " (" + Decimal(k) + ")";
      assert numbered + ("." + ext) == numbered + "." + ext;
    }
    if '.' !in stem {
      NoLastDot(stem);
      assert Stem(stem) == stem && Extension(stem) == "";
      assert k > 0 ==> Candidate(stem, k) == stem + " (" + Decimal(k) + ")" + "";
    }
  }

  lemma {:induction false} DecimalInjective(a: nat, b: nat)
    requires Decimal(a) == Decimal(b)
    ensures a == b
  {
    var x, y := Decimal(a), Decimal(b);
    assert x[|x| - 1] == y[|y| - 1];
    if a >= 10 && b >= 10 {
      assert x[..|x| - 1] == Decimal(a / 10) && y[..|y| - 1] == Decimal(b / 10);
      DecimalInjective(a / 10, b / 10);
    } else {
      DecimalNonempty(a);
      DecimalNonempty(b);
    }
  }

  lemma {:induction false} DecimalNonempty(n: nat)
    ensures |Decimal(n)| >= if n < 10 then 1 else 2
  {
    if n >= 10 { DecimalNonempty(n / 10); }
  }

  /** Different numbers give different candidates. */
  lemma CandidateInjective(name: Name, j: nat, k: nat)
    requires Candidate(name, j) == Candidate(name, k)
    ensures j == k
  {
    assert name == Stem(name) + Extension(name);
    if j > 0 && k > 0 {
      var n, x, y := |Stem(name)| + 2, Candidate(name, j), Candidate(name, k);
      assert x[n..|x| - 1 - |Extension(name)|] == Decimal(j);
      assert y[n..|y| - 1 - |Extension(name)|] == Decimal(k);
      DecimalInjective(j, k);
    }
  }

  lemma CandidatesNotHidden(name: Name, k: nat)
    requires name != "" && name[0] != '.'
    ensures Candidate(name, k) != "" && !Hidden(Candidate(name, k))
  {
    assert LastDot(name) > 0;
  }

  /** The first free candidate from the `k`-th on. The last one tried is number 9998:
      number 9999 is formed but then always given up on. */
  function FirstFree(files: Files, name: Name, k: nat): (dest: Option<Name>)
    requires k <= MAX_DEDUP
    decreases MAX_DEDUP - k
  {
    if k == MAX_DEDUP then None
    else if Candidate(name, k) !in files then Some(Candidate(name, k))
    else FirstFree(files, name, k + 1)
  }

  /** Where the search stops: `j` is the first free candidate, or the bound if all are taken. */
  lemma {:induction false} FirstFreeIndex(files: Files, name: Name, k: nat) returns (j: nat)
    requires k <= MAX_DEDUP
    ensures k <= j <= MAX_DEDUP
    ensures forall i: nat | k <= i < j :: Candidate(name, i) in files
    ensures j < MAX_DEDUP ==>
              Candidate(name, j) !in files && FirstFree(files, name, k) == Some(Candidate(name, j))
    ensures j == MAX_DEDUP ==> FirstFree(files, name, k) == None
    decreases MAX_DEDUP - k
  {
    if k == MAX_DEDUP || Candidate(name, k) !in files {
      j := k;
    } else {
      j := FirstFreeIndex(files, name, k + 1);
    }
  }

  lemma DestNotHidden(files: Files, name: Name)
    requires name != "" && !Hidden(name) && FirstFree(files, name, 0).Some?
    ensures var dest := FirstFree(files, name, 0).value; dest != "" && !Hidden(dest) && dest !in files
  {
    var j := FirstFreeIndex(files, name, 0);
    CandidatesNotHidden(name, j);
  }

  // ---- Contents ----

  function Zeros(n: nat): (z: Content)
    ensures |z| == n && forall i | 0 <= i < n :: z[i] == 0
  {
    seq(n, _ => 0)
  }

  /** Seek, then write: a gap past the end reads as zeros, an empty write does nothing. */
  function WriteAt(c: Content, offset: nat, data: Content): Content {
    if data == [] then c
    else
      var base := if offset > |c| then c + Zeros(offset - |c|) else c;
      base[..offset] + data + (if offset + |data| < |base| then base[offset + |data|..] else [])
  }

  lemma WriteAtBytes(c: Content, offset: nat, data: Content)
    ensures var w := WriteAt(c, offset, data);
            && |w| == (if data != [] && offset + |data| > |c| then offset + |data| else |c|)
            && forall p | 0 <= p < |w| ::
                 w[p] == if offset <= p < offset + |data| then data[p - offset] else if p < |c| then c[p] else 0
  {
  }

  // ---- The protocol ----

  datatype Config = Config(maxFileBytes: nat, digest: Digest)

  datatype Transfer = Transfer(expectedSize: nat, expectedHash: string, name: Name)

  datatype Saved = Saved(id: Id, name: Name, content: Content, hash: string)

  /** `leaked` are temp files whose deletion failed; `saved` is every file ever saved. */
  datatype State = State(files: Files, live: map<Id, Transfer>, leaked: set<Name>, saved: seq<Saved>)

  datatype Message =
    | Start(id: Id, name: string, size: nat, hash: string)
    | Chunk(id: Id, offset: nat, data: Buffer)
    | Done(id: Id)
    | Abort(id: Id)

  /** Which system calls of one message succeed. */
  datatype Env = Env(resolve: bool, create: bool, write: bool, read: bool, rename: bool, remove: bool)

  predicate HashFormat(h: string) {
    |h| == 64 && forall c <- h :: '0' <= c <= '9' || 'a' <= c <= 'f' || 'A' <= c <= 'F'
  }

  predicate Admissible(cfg: Config, st: State, m: Message, env: Env)
    requires m.Start?
  {
    && |st.live| < MAX_CONCURRENT_TRANSFERS
    && m.size <= cfg.maxFileBytes
    && SanitizeFilename(m.name) != ""
    && HashFormat(m.hash)
    && env.resolve
    && TempName(m.id) !in st.files && env.create
  }

  /** Forget a transfer and try to delete its temp file. */
  function Discard(st: State, id: Id, env: Env): State {
    var s := st.(live := st.live - {id});
    if env.remove then s.(files := s.files - {TempName(id)})
    else s.(leaked := s.leaked + {TempName(id)})
  }

  predicate FitsDeclared(t: Transfer, offset: nat, data: Content) {
    (if offset + |data| > U64_MAX then U64_MAX else offset + |data|) <= t.expectedSize
  }

  function Handle(cfg: Config, st: State, m: Message, env: Env): State {
    match m
    case Start(id, name, size, hash) =>
      if !Admissible(cfg, st, m, env) then st
      else
        var transfer := Transfer(size, hash, SanitizeFilename(name));
        st.(files := st.files[TempName(id) := []], live := st.live[id := transfer])
    case Chunk(id, offset, data) =>
      if id !in st.live then st
      else if !FitsDeclared(st.live[id], offset, data) then Discard(st, id, env)
      else if offset >= SEEK_LIMIT || !env.write || TempName(id) !in st.files then Discard(st, id, env)
      else st.(files := st.files[TempName(id) := WriteAt(st.files[TempName(id)], offset, data)])
    case Done(id) =>
      if id !in st.live then st
      else
        var t := st.live[id];
        if !env.read || TempName(id) !in st.files then Discard(st, id, env)
        else
          var content := st.files[TempName(id)];
          if cfg.digest(content) != t.expectedHash then Discard(st, id, env)
          else (match FirstFree(st.files, t.name, 0)
                case None => Discard(st, id, env)
                case Some(dest) =>
                  if !env.rename then Discard(st, id, env)
                  else Renamed(st, id, dest))
    case Abort(id) =>
      if id in st.live then Discard(st, id, env) else st
  }

  datatype Event = Event(msg: Message, env: Env)

  function Run(cfg: Config, st: State, es: seq<Event>): State {
    if es == [] then st
    else Handle(cfg, Run(cfg, st, es[..|es| - 1]), es[|es| - 1].msg, es[|es| - 1].env)
  }

  function Initially(files: Files): State {
    State(files, map[], {}, [])
  }

  // ---- What every message keeps ----

  /** A live transfer has its temp file, no longer than declared, and a savable name. */
  ghost predicate LiveOk(cfg: Config, st: State, id: Id)
    requires id in st.live
  {
    var t := st.live[id];
    && TempName(id) in st.files && |st.files[TempName(id)]| <= t.expectedSize <= cfg.maxFileBytes
    && t.name != "" && !Hidden(t.name)
  }

  ghost predicate SavedOk(cfg: Config, st: State, first: Files, s: Saved) {
    && s.name !in first && !Hidden(s.name)
    && s.name in st.files && st.files[s.name] == s.content
    && cfg.digest(s.content) == s.hash && |s.content| <= cfg.maxFileBytes
  }

  /** `n` is on disk for a reason: it was there first, or it is a live or undeletable temp
      file, or it was saved. */
  ghost predicate Accounted(st: State, first: Files, n: Name) {
    || n in first || n in st.leaked
    || (exists id :: id in st.live && n == TempName(id))
    || (exists k :: 0 <= k < |st.saved| && st.saved[k].name == n)
  }

  ghost predicate AllLive(cfg: Config, st: State, first: Files) {
    && |st.live| <= MAX_CONCURRENT_TRANSFERS
    && forall id | id in st.live :: LiveOk(cfg, st, id) && TempName(id) !in first && TempName(id) !in st.leaked
  }

  ghost predicate AllSaved(cfg: Config, st: State, first: Files) {
    forall k | 0 <= k < |st.saved| :: SavedOk(cfg, st, first, st.saved[k])
  }

  ghost predicate Inv(cfg: Config, st: State, first: Files) {
    && AllLive(cfg, st, first)
    && AllSaved(cfg, st, first)
    && (forall n | n in first :: n in st.files && st.files[n] == first[n])
    && (forall n <- st.leaked :: Hidden(n) && n in st.files && n !in first)
    && (forall n | n in st.files :: Accounted(st, first, n))
  }

  lemma AccountedStays(st: State, st': State, first: Files, n: Name)
    requires Accounted(st, first, n) && st.leaked <= st'.leaked && st.saved <= st'.saved
    requires forall id | id in st.live :: id in st'.live || n != TempName(id)
    ensures Accounted(st', first, n)
  {
    if k :| 0 <= k < |st.saved| && st.saved[k].name == n { assert st'.saved[k] == st.saved[k]; }
  }

  /** Losing one transfer and perhaps its temp file, and gaining files with other names,
      leaves the other transfers alone. */
  lemma OthersStayLive(cfg: Config, st: State, st': State, first: Files, id: Id)
    requires AllLive(cfg, st, first) && id in st.live && st'.live == st.live - {id}
    requires st'.leaked <= st.leaked + {TempName(id)}
    requires forall n | n in st.files && n != TempName(id) :: n in st'.files && st'.files[n] == st.files[n]
    ensures AllLive(cfg, st', first)
  {
    LiveShrinks(st.live, id);
    forall j | j in st'.live ensures LiveOk(cfg, st', j) && TempName(j) !in first && TempName(j) !in st'.leaked {
      TempNameInjective(id, j);
      assert LiveOk(cfg, st, j);
    }
  }

  lemma SavedStay(cfg: Config, st: State, st': State, first: Files)
    requires AllSaved(cfg, st, first) && st'.saved == st.saved
    requires forall n | n in st.files && !Hidden(n) :: n in st'.files && st'.files[n] == st.files[n]
    ensures AllSaved(cfg, st', first)
  {
    forall k | 0 <= k < |st'.saved| ensures SavedOk(cfg, st', first, st'.saved[k]) {
      assert SavedOk(cfg, st, first, st.saved[k]);
    }
  }

  lemma DiscardKeeps(cfg: Config, st: State, first: Files, id: Id, env: Env)
    requires Inv(cfg, st, first) && id in st.live
    ensures Inv(cfg, Discard(st, id, env), first)
  {
    assert LiveOk(cfg, st, id);
    LosingOneKeeps(cfg, st, Discard(st, id, env), first, id);
  }

  /** Losing a transfer whose temp file is deleted, or left behind as leaked. */
  lemma LosingOneKeeps(cfg: Config, st: State, st': State, first: Files, id: Id)
    requires Inv(cfg, st, first) && id in st.live && st'.live == st.live - {id} && st'.saved == st.saved
    requires TempName(id) in st.files && Hidden(TempName(id)) && TempName(id) !in first
    requires || (st'.files == st.files - {TempName(id)} && st'.leaked == st.leaked)
             || (st'.files == st.files && st'.leaked == st.leaked + {TempName(id)})
    ensures Inv(cfg, st', first)
  {
    assert TempName(id) !in st.leaked;
    OthersStayLive(cfg, st, st', first, id);
    SavedStay(cfg, st, st', first);
    forall n | n in st'.files ensures Accounted(st', first, n) {
      if n != TempName(id) { AccountedStays(st, st', first, n); }
    }
  }

  lemma LiveShrinks(live: map<Id, Transfer>, id: Id)
    requires id in live
    ensures |live - {id}| == |live| - 1
  {
    assert (live - {id}).Keys == live.Keys - {id};
  }

  lemma StartKeeps(cfg: Config, st: State, first: Files, m: Message, env: Env)
    requires Inv(cfg, st, first) && m.Start?
    ensures Inv(cfg, Handle(cfg, st, m, env), first)
  {
    if Admissible(cfg, st, m, env) {
      SanitizedNames(m.name);
      assert forall id | id in st.live :: LiveOk(cfg, st, id);
      StartingKeeps(cfg, st, Handle(cfg, st, m, env), first, m.id, Transfer(m.size, m.hash, SanitizeFilename(m.name)));
    }
  }

  lemma StartingKeepsLive(cfg: Config, st: State, st': State, first: Files, id: Id, t: Transfer)
    requires AllLive(cfg, st, first) && id !in st.live && |st.live| < MAX_CONCURRENT_TRANSFERS
    requires TempName(id) !in first && TempName(id) !in st.leaked
    requires t.expectedSize <= cfg.maxFileBytes && t.name != "" && !Hidden(t.name)
    requires st' == st.(files := st.files[TempName(id) := []], live := st.live[id := t])
    ensures AllLive(cfg, st', first)
  {
    assert st'.live.Keys == st.live.Keys + {id};
    forall j | j in st'.live ensures LiveOk(cfg, st', j) && TempName(j) !in first && TempName(j) !in st'.leaked {
      TempNameInjective(id, j);
      if j != id { assert LiveOk(cfg, st, j); }
    }
  }

  lemma StartingKeeps(cfg: Config, st: State, st': State, first: Files, id: Id, t: Transfer)
    requires Inv(cfg, st, first) && id !in st.live && |st.live| < MAX_CONCURRENT_TRANSFERS && TempName(id) !in st.files
    requires t.expectedSize <= cfg.maxFileBytes && t.name != "" && !Hidden(t.name)
    requires st' == st.(files := st.files[TempName(id) := []], live := st.live[id := t])
    ensures Inv(cfg, st', first)
  {
    assert TempName(id) !in first && TempName(id) !in st.leaked;
    StartingKeepsLive(cfg, st, st', first, id, t);
    SavedStay(cfg, st, st', first);
    forall n | n in st'.files ensures Accounted(st', first, n) {
      if n != TempName(id) { AccountedStays(st, st', first, n); }
    }
  }

  lemma ChunkKeeps(cfg: Config, st: State, first: Files, m: Message, env: Env)
    requires Inv(cfg, st, first) && m.Chunk?
    ensures Inv(cfg, Handle(cfg, st, m, env), first)
  {
    var st' := Handle(cfg, st, m, env);
    if m.id in st.live {
      assert LiveOk(cfg, st, m.id);
      if !FitsDeclared(st.live[m.id], m.offset, m.data) || m.offset >= SEEK_LIMIT || !env.write {
        DiscardKeeps(cfg, st, first, m.id, env);
      } else {
        WriteAtBytes(st.files[TempName(m.id)], m.offset, m.data);
        forall j | j in st'.live ensures LiveOk(cfg, st', j) && TempName(j) !in first && TempName(j) !in st'.leaked {
          TempNameInjective(m.id, j);
          assert LiveOk(cfg, st, j);
        }
        forall n | n in st'.files ensures Accounted(st', first, n) { AccountedStays(st, st', first, n); }
        SavedStay(cfg, st, st', first);
      }
    }
  }

  lemma DoneKeeps(cfg: Config, st: State, first: Files, m: Message, env: Env)
    requires Inv(cfg, st, first) && m.Done?
    ensures Inv(cfg, Handle(cfg, st, m, env), first)
  {
    var st' := Handle(cfg, st, m, env);
    if m.id in st.live {
      var t := st.live[m.id];
      assert LiveOk(cfg, st, m.id);
      if |st'.saved| == |st.saved| {
        DiscardKeeps(cfg, st, first, m.id, env);
      } else {
        var dest := FirstFree(st.files, t.name, 0).value;
        DestNotHidden(st.files, t.name);
        LiveShrinks(st.live, m.id);
        SaveKeeps(cfg, st, first, m.id, dest);
      }
    }
  }

  /** The state after the temp file of `id` has been renamed to `dest`. */
  function Renamed(st: State, id: Id, dest: Name): State
    requires id in st.live && TempName(id) in st.files
  {
    var content := st.files[TempName(id)];
    var saved := Saved(id, dest, content, st.live[id].expectedHash);
    State((st.files - {TempName(id)})[dest := content], st.live - {id}, st.leaked, st.saved + [saved])
  }

  lemma SavedGrow(cfg: Config, st: State, st': State, first: Files, s: Saved)
    requires AllSaved(cfg, st, first) && st'.saved == st.saved + [s] && SavedOk(cfg, st', first, s)
    requires forall n | n in st.files && !Hidden(n) :: n in st'.files && st'.files[n] == st.files[n]
    ensures AllSaved(cfg, st', first)
  {
    forall k | 0 <= k < |st'.saved| ensures SavedOk(cfg, st', first, st'.saved[k]) {
      if k < |st.saved| { assert SavedOk(cfg, st, first, st.saved[k]); }
    }
  }

  lemma AccountedAfterRename(st: State, first: Files, id: Id, dest: Name, n: Name)
    requires id in st.live && TempName(id) in st.files && n in Renamed(st, id, dest).files
    requires n != dest ==> Accounted(st, first, n)
    ensures Accounted(Renamed(st, id, dest), first, n)
  {
    var st' := Renamed(st, id, dest);
    if n == dest { assert st'.saved[|st.saved|].name == n; } else { AccountedStays(st, st', first, n); }
  }

  lemma SaveKeeps(cfg: Config, st: State, first: Files, id: Id, dest: Name)
    requires Inv(cfg, st, first) && id in st.live && TempName(id) in st.files
    requires dest !in st.files && dest != "" && !Hidden(dest)
    requires cfg.digest(st.files[TempName(id)]) == st.live[id].expectedHash
    ensures Inv(cfg, Renamed(st, id, dest), first)
  {
    var st' := Renamed(st, id, dest);
    assert LiveOk(cfg, st, id);
    OthersStayLive(cfg, st, st', first, id);
    SavedGrow(cfg, st, st', first, st'.saved[|st.saved|]);
    forall n | n in st'.files ensures Accounted(st', first, n) { AccountedAfterRename(st, first, id, dest, n); }
  }

  lemma MessageKeeps(cfg: Config, st: State, first: Files, e: Event)
    requires Inv(cfg, st, first)
    ensures Inv(cfg, Handle(cfg, st, e.msg, e.env), first)
  {
    match e.msg
    case Start(_, _, _, _) => StartKeeps(cfg, st, first, e.msg, e.env);
    case Chunk(_, _, _) => ChunkKeeps(cfg, st, first, e.msg, e.env);
    case Done(_) => DoneKeeps(cfg, st, first, e.msg, e.env);
    case Abort(id) => if id in st.live { DiscardKeeps(cfg, st, first, id, e.env); }
  }

  lemma {:induction false} RunKeepsInv(cfg: Config, first: Files, es: seq<Event>)
    ensures Inv(cfg, Run(cfg, Initially(first), es), first)
  {
    if es != [] {
      RunKeepsInv(cfg, first, es[..|es| - 1]);
      MessageKeeps(cfg, Run(cfg, Initially(first), es[..|es| - 1]), first, es[|es| - 1]);
    } else {
      var st := Initially(first);
      forall n | n in st.files ensures Accounted(st, first, n) { }
    }
  }

  /** Every saved file has the hash declared for it, at most the configured size, and a
      name that was free and never a temp name; files that were there first are untouched. */
  lemma SavedFilesHash(cfg: Config, first: Files, es: seq<Event>, k: nat)
    requires k < |Run(cfg, Initially(first), es).saved|
    ensures var st := Run(cfg, Initially(first), es);
            var s := st.saved[k];
            && s.name in st.files && st.files[s.name] == s.content
            && cfg.digest(s.content) == s.hash && |s.content| <= cfg.maxFileBytes
            && s.name !in first
            && (forall id :: s.name != TempName(id))
            && (forall n | n in first :: n in st.files && st.files[n] == first[n])
  {
    RunKeepsInv(cfg, first, es);
    assert SavedOk(cfg, Run(cfg, Initially(first), es), first, Run(cfg, Initially(first), es).saved[k]);
  }

  lemma RemovalSucceeds(cfg: Config, st: State, e: Event)
    requires e.env.remove
    ensures Handle(cfg, st, e.msg, e.env).leaked == st.leaked
  {
  }

  lemma {:induction false} NoLeaks(cfg: Config, first: Files, es: seq<Event>)
    requires forall k | 0 <= k < |es| :: es[k].env.remove
    ensures Run(cfg, Initially(first), es).leaked == {}
  {
    if es != [] {
      NoLeaks(cfg, first, es[..|es| - 1]);
      RemovalSucceeds(cfg, Run(cfg, Initially(first), es[..|es| - 1]), es[|es| - 1]);
    }
  }

  /** Temp-file conservation: as long as deletions succeed, the hidden files on disk are
      those that were there first and one for each of the at most eight live transfers,
      none longer than its declared size. */
  lemma TempFilesAreLive(cfg: Config, first: Files, es: seq<Event>, n: Name)
    requires forall k | 0 <= k < |es| :: es[k].env.remove
    requires Hidden(n)
    ensures var st := Run(cfg, Initially(first), es);
            && (n in st.files <==> n in first || exists id :: id in st.live && n == TempName(id))
            && |st.live| <= MAX_CONCURRENT_TRANSFERS
            && forall id | id in st.live :: TempName(id) in st.files && TempName(id) !in first
                 && |st.files[TempName(id)]| <= st.live[id].expectedSize <= cfg.maxFileBytes
  {
    RunKeepsInv(cfg, first, es);
    NoLeaks(cfg, first, es);
    var st := Run(cfg, Initially(first), es);
    forall id | id in st.live ensures TempName(id) in st.files && TempName(id) !in first
      && |st.files[TempName(id)]| <= st.live[id].expectedSize <= cfg.maxFileBytes
    {
      assert LiveOk(cfg, st, id);
    }
    if n in st.files {
      assert Accounted(st, first, n);
      assert forall k | 0 <= k < |st.saved| :: SavedOk(cfg, st, first, st.saved[k]);
    }
  }

  // ---- Reassembly ----

  /** A chunk of `content` at its right place. */
  predicate Agrees(content: Content, m: Message) {
    m.Chunk? && m.offset + |m.data| <= |content| && m.data == content[m.offset..m.offset + |m.data|]
  }

  /** Everything said about transfer `id` is a successfully written chunk of `content`;
      other transfers may do anything. */
  ghost predicate Feeds(es: seq<Event>, id: Id, content: Content) {
    forall k | 0 <= k < |es| :: es[k].msg.id == id ==> Agrees(content, es[k].msg) && es[k].env.write
  }

  ghost predicate Covered(es: seq<Event>, id: Id, p: nat) {
    exists k :: 0 <= k < |es| && es[k].msg.id == id && es[k].msg.Chunk?
      && es[k].msg.offset <= p < es[k].msg.offset + |es[k].msg.data|
  }

  /** The temp file of `id` holds `content` at every byte covered so far. */
  ghost predicate Progress(st: State, es: seq<Event>, id: Id, t: Transfer, content: Content) {
    && id in st.live && st.live[id] == t && TempName(id) in st.files
    && |st.files[TempName(id)]| <= |content|
    && forall p: nat | Covered(es, id, p) :: p < |st.files[TempName(id)]| && st.files[TempName(id)][p] == content[p]
  }

  lemma OtherDone(cfg: Config, st: State, other: Id, env: Env, id: Id)
    requires id in st.live && other != id && TempName(id) in st.files
    requires other in st.live ==> st.live[other].name != "" && !Hidden(st.live[other].name)
    ensures var st' := Handle(cfg, st, Done(other), env);
            && id in st'.live && st'.live[id] == st.live[id]
            && TempName(id) in st'.files && st'.files[TempName(id)] == st.files[TempName(id)]
  {
    TempNameInjective(id, other);
    if other in st.live && FirstFree(st.files, st.live[other].name, 0).Some? {
      DestNotHidden(st.files, st.live[other].name);
    }
  }

  lemma OthersDoNotTouch(cfg: Config, st: State, first: Files, e: Event, id: Id)
    requires Inv(cfg, st, first) && id in st.live && e.msg.id != id
    ensures var st' := Handle(cfg, st, e.msg, e.env);
            && id in st'.live && st'.live[id] == st.live[id]
            && TempName(id) in st.files && TempName(id) in st'.files
            && st'.files[TempName(id)] == st.files[TempName(id)]
  {
    assert LiveOk(cfg, st, id);
    if e.msg.Done? {
      assert e.msg.id in st.live ==> LiveOk(cfg, st, e.msg.id);
      OtherDone(cfg, st, e.msg.id, e.env, id);
    } else {
      OtherNotDone(cfg, st, e, id);
    }
  }

  lemma OtherNotDone(cfg: Config, st: State, e: Event, id: Id)
    requires id in st.live && TempName(id) in st.files && e.msg.id != id && !e.msg.Done?
    ensures var st' := Handle(cfg, st, e.msg, e.env);
            && id in st'.live && st'.live[id] == st.live[id]
            && TempName(id) in st'.files && st'.files[TempName(id)] == st.files[TempName(id)]
  {
    TempNameInjective(id, e.msg.id);
  }

  lemma ChunkProgress(cfg: Config, st: State, before: seq<Event>, e: Event, id: Id, t: Transfer, content: Buffer)
    requires Progress(st, before, id, t, content) && t.expectedSize == |content|
    requires e.msg.id == id && Agrees(content, e.msg) && e.env.write
    ensures Progress(Handle(cfg, st, e.msg, e.env), before + [e], id, t, content)
  {
    var st' := Handle(cfg, st, e.msg, e.env);
    var temp := st.files[TempName(id)];
    WriteAtBytes(temp, e.msg.offset, e.msg.data);
    var es := before + [e];
    forall p: nat | Covered(es, id, p)
      ensures p < |st'.files[TempName(id)]| && st'.files[TempName(id)][p] == content[p]
    {
      if !(e.msg.offset <= p < e.msg.offset + |e.msg.data|) {
        var k :| 0 <= k < |es| && es[k].msg.id == id && es[k].msg.Chunk?
          && es[k].msg.offset <= p < es[k].msg.offset + |es[k].msg.data|;
        assert before[k] == es[k];
        assert Covered(before, id, p);
      }
    }
  }

  lemma SameCover(before: seq<Event>, e: Event, id: Id, p: nat)
    requires e.msg.id != id && Covered(before + [e], id, p)
    ensures Covered(before, id, p)
  {
    var es := before + [e];
    var k :| 0 <= k < |es| && es[k].msg.id == id && es[k].msg.Chunk?
      && es[k].msg.offset <= p < es[k].msg.offset + |es[k].msg.data|;
    assert before[k] == es[k];
  }

  lemma OtherProgress(cfg: Config, st: State, first: Files, before: seq<Event>, e: Event,
                      id: Id, t: Transfer, content: Buffer)
    requires Inv(cfg, st, first) && Progress(st, before, id, t, content) && e.msg.id != id
    ensures Progress(Handle(cfg, st, e.msg, e.env), before + [e], id, t, content)
  {
    OthersDoNotTouch(cfg, st, first, e, id);
    forall p: nat | Covered(before + [e], id, p) ensures Covered(before, id, p) {
      SameCover(before, e, id, p);
    }
  }

  lemma FeedsPrefix(es: seq<Event>, id: Id, content: Content)
    requires es != [] && Feeds(es, id, content)
    ensures Feeds(es[..|es| - 1], id, content)
    ensures var e := es[|es| - 1]; e.msg.id == id ==> Agrees(content, e.msg) && e.env.write
    ensures es == es[..|es| - 1] + [es[|es| - 1]]
  {
    var before := es[..|es| - 1];
    forall k | 0 <= k < |before| ensures before[k] == es[k] { }
  }

  lemma FeedStep(cfg: Config, st: State, st': State, first: Files, before: seq<Event>, e: Event, id: Id, t: Transfer,
                 content: Buffer)
    requires st' == Handle(cfg, st, e.msg, e.env)
    requires Inv(cfg, st, first) && Progress(st, before, id, t, content) && t.expectedSize == |content|
    requires e.msg.id == id ==> Agrees(content, e.msg) && e.env.write
    ensures Inv(cfg, st', first) && Progress(st', before + [e], id, t, content)
  {
    MessageKeeps(cfg, st, first, e);
    if e.msg.id == id {
      ChunkProgress(cfg, st, before, e, id, t, content);
    } else {
      OtherProgress(cfg, st, first, before, e, id, t, content);
    }
  }

  lemma {:induction false} FeedProgress(cfg: Config, st: State, first: Files, es: seq<Event>, id: Id,
                                        t: Transfer, content: Buffer)
    requires Inv(cfg, st, first) && Progress(st, [], id, t, content) && t.expectedSize == |content|
    requires Feeds(es, id, content)
    ensures Inv(cfg, Run(cfg, st, es), first) && Progress(Run(cfg, st, es), es, id, t, content)
  {
    if es != [] {
      var before, e := es[..|es| - 1], es[|es| - 1];
      FeedsPrefix(es, id, content);
      FeedProgress(cfg, st, first, before, id, t, content);
      FeedStep(cfg, Run(cfg, st, before), Run(cfg, st, es), first, before, e, id, t, content);
    }
  }

  /** Done on a transfer whose temp file hashes as declared saves it under a free name, if
      and only if one of the candidates 0 to 9998 is free. */
  lemma DoneSavesIff(cfg: Config, st: State, id: Id, done: Env)
    requires id in st.live && TempName(id) in st.files && st.live[id].name != "" && !Hidden(st.live[id].name)
    requires cfg.digest(st.files[TempName(id)]) == st.live[id].expectedHash
    requires done.read && done.rename
    ensures var name, content := st.live[id].name, st.files[TempName(id)];
            var st' := Handle(cfg, st, Done(id), done);
            && (|st'.saved| == |st.saved| + 1 <==> exists k: nat | k <= 9998 :: Candidate(name, k) !in st.files)
            && (|st'.saved| != |st.saved| + 1 ==> st' == Discard(st, id, done))
            && (|st'.saved| == |st.saved| + 1 ==>
                  var s := st'.saved[|st.saved|];
                  s.content == content && s.name !in st.files && s.name in st'.files && st'.files[s.name] == content
                  && TempName(id) !in st'.files && id !in st'.live)
            && (forall k: nat | k <= 9998 && Candidate(name, k) !in st.files
                                && (forall i: nat | i < k :: Candidate(name, i) in st.files) ::
                  st'.saved == st.saved + [Saved(id, Candidate(name, k), content, st.live[id].expectedHash)])
  {
    var name := st.live[id].name;
    var j := FirstFreeIndex(st.files, name, 0);
    if FirstFree(st.files, name, 0).Some? { DestNotHidden(st.files, name); }
  }

  // ---- The four messages in plain terms ----

  lemma {:induction false} SanitizedNonempty(name: string)
    ensures SanitizeFilename(name) != "" <==>
            exists i :: 0 <= i < |name| && name[i] != '.' && name[i] !in "/\\:"
                        && 0x20 <= name[i] as int && !(0x7f <= name[i] as int <= 0x9f)
  {
    if name != "" {
      SanitizedNonempty(name[1..]);
      if i :| 0 <= i < |name| && name[i] != '.' && name[i] !in "/\\:"
              && 0x20 <= name[i] as int && !(0x7f <= name[i] as int <= 0x9f) {
        if i > 0 { assert name[1..][i - 1] == name[i]; }
      }
      if SanitizeFilename(name[1..]) != "" {
        var j :| 0 <= j < |name| - 1 && name[1..][j] != '.' && name[1..][j] !in "/\\:"
                 && 0x20 <= name[1..][j] as int && !(0x7f <= name[1..][j] as int <= 0x9f);
        assert name[j + 1] == name[1..][j];
      }
    }
  }

  /** `Start` opens an empty temp file and a transfer under the sanitized name exactly when fewer
      than 8 are live, the size is within the limit, the hash is 64 hexadecimal digits, a
      character of the name survives, and the temp file is new and can be made; otherwise nothing
      happens. */
  lemma StartIff(cfg: Config, st: State, id: Id, name: string, size: nat, hash: string, env: Env)
    ensures var st', temp := Handle(cfg, st, Start(id, name, size, hash), env), "." + id + ".tmp";
            if && |st.live| < 8 && size <= cfg.maxFileBytes
               && |hash| == 64 && (forall k | 0 <= k < 64 :: hash[k] in "0123456789abcdefABCDEF")
               && (exists i :: 0 <= i < |name| && name[i] != '.' && name[i] !in "/\\:"
                               && 0x20 <= name[i] as int && !(0x7f <= name[i] as int <= 0x9f))
               && env.resolve && env.create && temp !in st.files
            then st' == State(st.files[temp := []], st.live[id := Transfer(size, hash, SanitizeFilename(name))],
                              st.leaked, st.saved)
            else st' == st
  {
    SanitizedNonempty(name);
    HashFormatIff(hash);
  }

  lemma HashFormatIff(h: string)
    ensures HashFormat(h) <==> |h| == 64 && forall k | 0 <= k < 64 :: h[k] in "0123456789abcdefABCDEF"
  {
    forall c: char ensures ('0' <= c <= '9' || 'a' <= c <= 'f' || 'A' <= c <= 'F') <==> c in "0123456789abcdefABCDEF" {
      HexDigits(c);
    }
    if HashFormat(h) {
      forall k | 0 <= k < 64 ensures h[k] in "0123456789abcdefABCDEF" { assert h[k] in h; }
    }
  }

  /** In particular every transfer of an ordinary name is admitted, under exactly that name. */
  lemma OrdinaryStart(cfg: Config, st: State, id: Id, name: string, size: nat, hash: string, env: Env)
    requires |st.live| < 8 && size <= cfg.maxFileBytes && env.resolve && env.create
    requires |hash| == 64 && forall k | 0 <= k < 64 :: hash[k] in "0123456789abcdefABCDEF"
    requires 0 < |name| <= 255 && name[0] != '.' && AllClean(name)
    requires "." + id + ".tmp" !in st.files
    ensures var temp := "." + id + ".tmp";
            Handle(cfg, st, Start(id, name, size, hash), env) ==
            State(st.files[temp := []], st.live[id := Transfer(size, hash, name)], st.leaked, st.saved)
  {
    CleanNameStays(name);
    StartIff(cfg, st, id, name, size, hash, env);
  }

  /** A transfer that ends without being saved: it is not live any more, and its temp file is
      deleted, or leaked when deleting fails. */
  ghost predicate Ended(st: State, st': State, id: Id, deleted: bool) {
    var temp := "." + id + ".tmp";
    && st'.live == st.live - {id} && st'.saved == st.saved
    && st'.files == (if deleted then st.files - {temp} else st.files)
    && st'.leaked == if deleted then st.leaked else st.leaked + {temp}
  }

  /** `Abort` ends a live transfer, and touches nothing else. */
  lemma AbortEnds(cfg: Config, st: State, id: Id, env: Env)
    ensures var st' := Handle(cfg, st, Abort(id), env);
            if id in st.live then Ended(st, st', id, env.remove) else st' == st
  {
  }

  /** A chunk of a live transfer is written when it ends within the declared size, seeking there
      is possible and the write succeeds; a chunk past the declared size or a failing one ends
      the transfer, and one of an unknown transfer does nothing. */
  lemma ChunkWritesOrEnds(cfg: Config, st: State, id: Id, offset: nat, data: Buffer, env: Env)
    ensures var st', temp := Handle(cfg, st, Chunk(id, offset, data), env), "." + id + ".tmp";
            if id !in st.live then st' == st
            else if && offset + |data| <= st.live[id].expectedSize && offset < 0x8000_0000_0000_0000
                    && env.write && temp in st.files
            then st' == st.(files := st.files[temp := WriteAt(st.files[temp], offset, data)])
            else Ended(st, st', id, env.remove)
  {
  }

  /** `Done` ends a live transfer in any case: without saving if the temp file cannot be read, its
      hash is not the declared one, all names are taken or renaming fails; otherwise the file
      gets the first free name. */
  lemma DoneSavesOrEnds(cfg: Config, st: State, id: Id, env: Env)
    requires id in st.live ==> st.live[id].name != "" && !Hidden(st.live[id].name)
    ensures var st', temp := Handle(cfg, st, Done(id), env), "." + id + ".tmp";
            if id !in st.live then st' == st
            else if && env.read && temp in st.files && cfg.digest(st.files[temp]) == st.live[id].expectedHash
                    && env.rename && exists k: nat | k <= 9998 :: Candidate(st.live[id].name, k) !in st.files
            then st'.live == st.live - {id} && |st'.saved| == |st.saved| + 1
            else Ended(st, st', id, env.remove)
  {
    if id in st.live { var j := FirstFreeIndex(st.files, st.live[id].name, 0); }
  }

  /** A directory in which the first n candidates are taken. */
  function Crowded(name: Name, n: nat): Files {
    if n == 0 then map[] else Crowded(name, n - 1)[Candidate(name, n - 1) := []]
  }

  lemma {:induction false} CrowdedHolds(name: Name, n: nat, k: nat)
    ensures Candidate(name, k) in Crowded(name, n) <==> k < n
  {
    if n > 0 {
      CrowdedHolds(name, n - 1, k);
      if k != n - 1 { CandidatesDiffer(name, k, n - 1); }
    }
  }

  lemma {:induction false} CrowdedHidesNothing(name: Name, n: nat, id: Id)
    requires name != "" && name[0] != '.'
    ensures TempName(id) !in Crowded(name, n)
  {
    if n > 0 {
      CandidatesNotHidden(name, n - 1);
      assert Hidden(TempName(id));
      CrowdedHidesNothing(name, n - 1, id);
    }
  }

  lemma CandidatesDiffer(name: Name, j: nat, k: nat)
    requires j != k
    ensures Candidate(name, j) != Candidate(name, k)
  {
    if Candidate(name, j) == Candidate(name, k) { CandidateInjective(name, j, k); }
  }

  /** An undisturbed transfer in one chunk, before its Done. */
  lemma OneChunkArrives(cfg: Config, first: Files, id: Id, name: Name, content: Buffer, calm: Env)
    requires SanitizeFilename(name) == name != "" && HashFormat(cfg.digest(content)) && |content| <= cfg.maxFileBytes
    requires calm == Env(true, true, true, true, true, true) && TempName(id) !in first
    ensures var t := Transfer(|content|, cfg.digest(content), name);
            var st := Handle(cfg, Initially(first), Start(id, name, |content|, cfg.digest(content)), calm);
            Handle(cfg, st, Chunk(id, 0, content), calm) == State(first[TempName(id) := content], map[id := t], {}, [])
  {
    var st := Handle(cfg, Initially(first), Start(id, name, |content|, cfg.digest(content)), calm);
    assert st.live == map[id := Transfer(|content|, cfg.digest(content), name)];
    assert WriteAt([], 0, content) == content by { WriteAtBytes([], 0, content); }
  }

  /** The failing input: in a crowded directory an undisturbed transfer with the right hash is
      thrown away, although candidate 9999 is free. */
  lemma LastCandidateNeverUsed(cfg: Config, id: Id, name: Name, content: Buffer)
    requires SanitizeFilename(name) == name != "" && HashFormat(cfg.digest(content)) && |content| <= cfg.maxFileBytes
    ensures var calm := Env(true, true, true, true, true, true);
            var start := Start(id, name, |content|, cfg.digest(content));
            var st1 := Handle(cfg, Initially(Crowded(name, 9999)), start, calm);
            var st2 := Handle(cfg, st1, Chunk(id, 0, content), calm);
            && id in st2.live && TempName(id) in st2.files && st2.files[TempName(id)] == content
            && Candidate(name, 9999) !in st2.files
            && Handle(cfg, st2, Done(id), calm) == Initially(Crowded(name, 9999))
  {
    var calm, first := Env(true, true, true, true, true, true), Crowded(name, 9999);
    SanitizedNames(name);
    CrowdedHidesNothing(name, 9999, id);
    CrowdedHolds(name, 9999, 9999);
    forall k: nat | k <= 9998 ensures Candidate(name, k) in first { CrowdedHolds(name, 9999, k); }
    CandidatesNotHidden(name, 9999);
    assert Hidden(TempName(id));
    OneChunkArrives(cfg, first, id, name, content, calm);
    var t := Transfer(|content|, cfg.digest(content), name);
    var st2 := State(first[TempName(id) := content], map[id := t], {}, []);
    DoneSavesIff(cfg, st2, id, calm);
    assert Discard(st2, id, calm) == Initially(first) by {
      assert first[TempName(id) := content] - {TempName(id)} == first;
      assert map[id := t] - {id} == map[];
    }
  }

  /** Reassembly does not depend on the order of delivery: once an admitted transfer's
      chunks, in any order, overlap or repetition and amid any other traffic, have covered
      content with the declared hash, Done saves exactly that content under a free name if
      one of the candidates 0 to 9998 is free, and otherwise saves nothing. */
  lemma ReassemblyAnyOrder(cfg: Config, first: Files, earlier: seq<Event>, start: Event, es: seq<Event>,
                           done: Env, content: Buffer)
    requires start.msg.Start? && start.msg.size == |content| && start.msg.hash == cfg.digest(content)
    requires Admissible(cfg, Run(cfg, Initially(first), earlier), start.msg, start.env)
    requires Feeds(es, start.msg.id, content)
    requires forall p: nat | p < |content| :: Covered(es, start.msg.id, p)
    requires done.read && done.rename
    ensures var id, name := start.msg.id, SanitizeFilename(start.msg.name);
            var st := Run(cfg, Handle(cfg, Run(cfg, Initially(first), earlier), start.msg, start.env), es);
            var st' := Handle(cfg, st, Done(id), done);
            && (|st'.saved| == |st.saved| + 1 <==> exists k: nat | k <= 9998 :: Candidate(name, k) !in st.files)
            && (|st'.saved| != |st.saved| + 1 ==> st' == Discard(st, id, done))
            && (|st'.saved| == |st.saved| + 1 ==>
                  var s := st'.saved[|st.saved|];
                  s.content == content && s.name !in st.files && s.name in st'.files && st'.files[s.name] == content
                  && TempName(id) !in st'.files && id !in st'.live)
            && (forall k: nat | k <= 9998 && Candidate(name, k) !in st.files
                                && (forall i: nat | i < k :: Candidate(name, i) in st.files) ::
                  st'.saved == st.saved + [Saved(id, Candidate(name, k), content, cfg.digest(content))])
  {
    var id, name := start.msg.id, SanitizeFilename(start.msg.name);
    var st0 := Run(cfg, Initially(first), earlier);
    RunKeepsInv(cfg, first, earlier);
    StartKeeps(cfg, st0, first, start.msg, start.env);
    var st1 := Handle(cfg, st0, start.msg, start.env);
    var t := st1.live[id];
    assert Progress(st1, [], id, t, content);
    FeedProgress(cfg, st1, first, es, id, t, content);
    var st := Run(cfg, st1, es);
    var temp := st.files[TempName(id)];
    if content != [] { assert Covered(es, id, |content| - 1); }
    assert temp == content;
    SanitizedNames(start.msg.name);
    DoneSavesIff(cfg, st, id, done);
  }

  // ---- The receiver ----

  /** An ordinary file arrives: with fewer than 8 transfers live, a size within the limit, an
      ordinary name, and chunks that cover the content in any order, it is saved whole under the
      first free of its names. */
  lemma OrdinaryFileArrives(cfg: Config, first: Files, earlier: seq<Event>, id: Id, name: string, env: Env,
                            es: seq<Event>, done: Env, content: Buffer, k: nat)
    requires |Run(cfg, Initially(first), earlier).live| < 8 && |content| <= cfg.maxFileBytes
    requires "." + id + ".tmp" !in Run(cfg, Initially(first), earlier).files && env.resolve && env.create
    requires 0 < |name| <= 255 && name[0] != '.' && AllClean(name)
    requires var h := cfg.digest(content); |h| == 64 && forall i | 0 <= i < 64 :: h[i] in "0123456789abcdefABCDEF"
    requires Feeds(es, id, content) && forall p: nat | p < |content| :: Covered(es, id, p)
    requires done.read && done.rename
    requires var start := Event(Start(id, name, |content|, cfg.digest(content)), env);
             var files := Run(cfg, Initially(first), earlier + [start] + es).files;
             k <= 9998 && Candidate(name, k) !in files && forall i: nat | i < k :: Candidate(name, i) in files
    ensures var start := Event(Start(id, name, |content|, cfg.digest(content)), env);
            var st := Run(cfg, Initially(first), earlier + [start] + es);
            var st' := Run(cfg, Initially(first), earlier + [start] + es + [Event(Done(id), done)]);
            && st'.saved == st.saved + [Saved(id, Candidate(name, k), content, cfg.digest(content))]
            && Candidate(name, k) in st'.files && st'.files[Candidate(name, k)] == content
  {
    var start := Event(Start(id, name, |content|, cfg.digest(content)), env);
    var st0 := Run(cfg, Initially(first), earlier);
    CleanNameStays(name);
    HashFormatIff(cfg.digest(content));
    ReassemblyAnyOrder(cfg, first, earlier, start, es, done, content);
    RunConcat(cfg, Initially(first), earlier, [start]);
    RunConcat(cfg, Initially(first), earlier + [start], es);
    assert [start][..0] == [] && Run(cfg, st0, []) == st0;
    assert Run(cfg, st0, [start]) == Handle(cfg, st0, start.msg, start.env);
    var all := earlier + [start] + es;
    assert (all + [Event(Done(id), done)])[..|all|] == all;
  }

  lemma {:induction false} RunConcat(cfg: Config, st: State, a: seq<Event>, b: seq<Event>)
    ensures Run(cfg, st, a + b) == Run(cfg, Run(cfg, st, a), b)
  {
    if b == [] {
      assert a + b == a;
    } else {
      RunConcat(cfg, st, a, b[..|b| - 1]);
      assert (a + b)[..|a + b| - 1] == a + b[..|b| - 1];
    }
  }

  /** Hash a file piece by piece; a read returns any number of bytes up to the buffer. */
  method HashFileStreaming(digest: Digest, file: Content) returns (h: string)
    ensures h == digest(file)
  {
    var ctx: Content := [];
    var at := 0;
    while at < |file|
      invariant at <= |file| && ctx == file[..at]
    {
      var n :| 0 < n <= 65536 && at + n <= |file|;
      assert file[..at + n] == file[..at] + file[at..at + n];
      ctx := ctx + file[at..at + n];
      at := at + n;
    }
    assert file[..|file|] == file;
    return digest(ctx);
  }

  /** The dedup loop of a finished transfer. */
  method ChooseDestination(files: Files, name: Name) returns (dest: Option<Name>)
    ensures dest == FirstFree(files, name, 0)
  {
    var path := name;
    var counter := 1;
    while path in files && counter <= MAX_DEDUP
      invariant 1 <= counter <= MAX_DEDUP + 1
      invariant path == Candidate(name, counter - 1)
      invariant counter <= MAX_DEDUP ==> FirstFree(files, name, 0) == FirstFree(files, name, counter - 1)
      invariant counter > MAX_DEDUP ==> FirstFree(files, name, 0) == None
      decreases MAX_DEDUP + 1 - counter
    {
      path := Stem(name) + " (" + Decimal(counter) + ")" + Extension(name);
      counter := counter + 1;
    }
    if counter > MAX_DEDUP {
      return None;
    }
    return Some(path);
  }

  class Receiver {
    const cfg: Config
    var files: Files
    var transfers: map<Id, Transfer>
    ghost var leaked: set<Name>
    ghost var saved: seq<Saved>

    ghost function View(): State
      reads this
    {
      State(files, transfers, leaked, saved)
    }

    constructor (cfg: Config, files: Files)
      ensures this.cfg == cfg && View() == Initially(files)
    {
      this.cfg, this.files, this.transfers := cfg, files, map[];
      leaked, saved := {}, [];
    }

    method RemoveTemp(id: Id, env: Env)
      modifies this`files, this`leaked
      ensures files == if env.remove then old(files) - {TempName(id)} else old(files)
      ensures leaked == if env.remove then old(leaked) else old(leaked) + {TempName(id)}
    {
      if env.remove {
        files := files - {TempName(id)};
      } else {
        leaked := leaked + {TempName(id)};
      }
    }

    method HandleFileTransfer(m: Message, env: Env)
      modifies this
      ensures View() == Handle(cfg, old(View()), m, env)
    {
      match m {
        case Start(id, name, size, hash) =>
          if |transfers| >= MAX_CONCURRENT_TRANSFERS || size > cfg.maxFileBytes {
            return;
          }
          var safeName := SanitizeFilename(name);
          if safeName == "" || !HashFormat(hash) || !env.resolve {
            return;
          }
          if TempName(id) in files || !env.create {
            return;
          }
          files := files[TempName(id) := []];
          transfers := transfers[id := Transfer(size, hash, safeName)];
        case Chunk(id, offset, data) =>
          if id !in transfers {
            return;
          }
          var rx := transfers[id];
          var chunkEnd := if offset + |data| > U64_MAX then U64_MAX else offset + |data|;
          if chunkEnd > rx.expectedSize || offset >= SEEK_LIMIT || !env.write || TempName(id) !in files {
            RemoveTemp(id, env);
            transfers := transfers - {id};
            return;
          }
          files := files[TempName(id) := WriteAt(files[TempName(id)], offset, data)];
        case Done(id) =>
          if id !in transfers {
            return;
          }
          var rx := transfers[id];
          transfers := transfers - {id};
          if !env.read || TempName(id) !in files {
            RemoveTemp(id, env);
            return;
          }
          var content := files[TempName(id)];
          var actualHash := HashFileStreaming(cfg.digest, content);
          if actualHash != rx.expectedHash {
            RemoveTemp(id, env);
            return;
          }
          var dest := ChooseDestination(files, rx.name);
          if dest.None? || !env.rename {
            RemoveTemp(id, env);
            return;
          }
          files := (files - {TempName(id)})[dest.value := content];
          saved := saved + [Saved(id, dest.value, content, rx.expectedHash)];
        case Abort(id) =>
          if id in transfers {
            transfers := transfers - {id};
            RemoveTemp(id, env);
          }
      }
    }
  }
}
