/** The session cipher of `miru-common`: a send counter, and a receive window kept
    as a 128-bit bitmap that slides with the highest number seen. The AEAD is a
    parameter. */
module Crypto {
  import opened Common
  import opened Bits
  import opened Bytes

  const U64: nat := 0x1_0000_0000_0000_0000
  const REPLAY_WINDOW: nat := 128
  const MIN_CIPHERTEXT_LEN: nat := 24

  type Key = seq<byte>

  datatype Error = CounterExhausted | SealFailed | TooShort | Replay | OpenFailed

  datatype Result<+T> = Ok(value: T) | Err(error: Error)

  /** Authenticated encryption as two functions of key, 12-byte nonce and text. */
  datatype Aead = Aead(
    seal: (Key, seq<byte>, seq<byte>) -> Option<seq<byte>>,
    open: (Key, seq<byte>, seq<byte>) -> Option<seq<byte>>
  )

  /** Largest plaintext the relay ever hands to the cipher. */
  const SEALABLE: nat := 4 * 1024 * 1024

  ghost predicate Lawful(a: Aead) {
    && (forall k, n, p :: a.seal(k, n, p).Some? ==>
          |a.seal(k, n, p).value| == |p| + 16 && a.open(k, n, a.seal(k, n, p).value) == Some(p))
    && (forall k, n, p {:trigger a.seal(k, n, p)} :: |p| <= SEALABLE ==> a.seal(k, n, p).Some?)
  }

  const ZeroTag: seq<byte> := [0, 0, 0, 0, 0, 0, 0, 0, 0, 0, 0, 0, 0, 0, 0, 0]

  /** The laws can be met: by appending a constant tag, say. */
  lemma LawfulAeadExists()
    ensures var seal := (k: Key, n: seq<byte>, p: seq<byte>) => Some(p + ZeroTag);
            var open := (k: Key, n: seq<byte>, c: seq<byte>) => if |c| >= 16 then Some(c[..|c| - 16]) else None;
            Lawful(Aead(seal, open))
  {
    assert forall p: seq<byte> :: (p + ZeroTag)[..|p|] == p;
  }

  function NonceFromU64(v: nat): (n: seq<byte>) {
    ToLe(v, 8) + [0, 0, 0, 0]
  }

  lemma NonceInjective(v: nat, w: nat)
    requires v < U64 && w < U64
    ensures NonceFromU64(v) == NonceFromU64(w) ==> v == w
  {
    assert NonceFromU64(v)[..8] == ToLe(v, 8);
    assert NonceFromU64(w)[..8] == ToLe(w, 8);
    U64Bytes();
    LeRoundTrip(v, 8);
    LeRoundTrip(w, 8);
  }

  lemma U64Bytes()
    ensures Pow256(8) == U64
  {
    assert Pow256(4) == 0x1_0000_0000;
    assert Pow256(6) == 0x1_0000_0000_0000;
  }

  /** The nonce is the number's eight bytes, lowest first, and four zero bytes. */
  lemma NonceLayout(v: nat, i: nat)
    requires i < 12
    ensures |NonceFromU64(v)| == 12
    ensures NonceFromU64(v)[i] == if i < 8 then v / Pow256(i) % 256 else 0
  {
    if i < 8 { LeByteAt(v, 8, i); }
  }

  // ---- Sending ----

  /** Refused sequence numbers: the last two values of the counter. */
  predicate Exhausted(n: nat) {
    n >= U64 - 2
  }

  /** What `encrypt` returns when the counter reads `n`. */
  function EncryptAt(a: Aead, key: Key, n: nat, plain: seq<byte>): Result<seq<byte>> {
    if Exhausted(n) then Err(CounterExhausted)
    else match a.seal(key, NonceFromU64(n), plain)
         case None => Err(SealFailed)
         case Some(ct) => Ok(ToLe(n, 8) + ct)
  }

  function NextCounter(n: nat): nat {
    (n + 1) % U64
  }

  // ---- Receiving ----

  /** The sequence number written in front of a ciphertext. */
  function SeqOf(data: seq<byte>): (n: nat)
    requires |data| >= 8
    ensures n < U64
  {
    FromLeBound(data[..8]);
    U64Bytes();
    FromLe(data[..8])
  }

  /** The replay rule over the plain set of numbers recorded so far: never seen,
      and not 128 or more below the highest. */
  predicate Accepts(recorded: set<nat>, n: nat) {
    n !in recorded && forall m <- recorded :: m < n + REPLAY_WINDOW
  }

  /** What `decrypt` answers, and what it has recorded afterwards. The number is
      recorded before the AEAD runs, so a forged body uses it up as well. */
  function DecryptWith(a: Aead, key: Key, recorded: set<nat>, data: seq<byte>): (set<nat>, Result<seq<byte>>) {
    if |data| < MIN_CIPHERTEXT_LEN then (recorded, Err(TooShort))
    else
      var n := SeqOf(data);
      if !Accepts(recorded, n) then (recorded, Err(Replay))
      else match a.open(key, NonceFromU64(n), data[8..])
           case None => (recorded + {n}, Err(OpenFailed))
           case Some(p) => (recorded + {n}, Ok(p))
  }

  /** A sealed message decrypts to its plaintext exactly when its number is still
      acceptable. */
  lemma SealedDecryptsIffAcceptable(a: Aead, key: Key, n: nat, plain: seq<byte>, recorded: set<nat>)
    requires Lawful(a) && n < U64
    requires EncryptAt(a, key, n, plain).Ok?
    ensures var wire := EncryptAt(a, key, n, plain).value;
            && |wire| == |plain| + 24
            && SeqOf(wire) == n
            && DecryptWith(a, key, recorded, wire) ==
               if Accepts(recorded, n) then (recorded + {n}, Ok(plain)) else (recorded, Err(Replay))
  {
    var wire := EncryptAt(a, key, n, plain).value;
    var ct := a.seal(key, NonceFromU64(n), plain).value;
    assert wire[..8] == ToLe(n, 8) && wire[8..] == ct;
    U64Bytes();
    LeRoundTrip(n, 8);
  }

  /** Sealing succeeds, for every text up to 4 MiB, exactly up to number 2^64 - 3; beyond that
      the counter counts as exhausted. */
  lemma SealsIff(a: Aead, key: Key, n: nat, plain: seq<byte>)
    requires Lawful(a) && |plain| <= 4_194_304 && n < 18_446_744_073_709_551_616
    ensures EncryptAt(a, key, n, plain).Ok? <==> n < 18_446_744_073_709_551_614
    ensures n >= 18_446_744_073_709_551_614 ==> EncryptAt(a, key, n, plain) == Err(CounterExhausted)
    ensures EncryptAt(a, key, n, plain).Ok? ==>
              && |EncryptAt(a, key, n, plain).value| == |plain| + 24
              && forall i | 0 <= i < 8 :: EncryptAt(a, key, n, plain).value[i] == n / Pow256(i) % 256
  {
    assert a.seal(key, NonceFromU64(n), plain).Some?;
    forall i | 0 <= i < 8 ensures ToLe(n, 8)[i] == n / Pow256(i) % 256 { LeByteAt(n, 8, i); }
  }

  /** What each answer of `decrypt` means: fewer than 24 bytes are too short; of the rest, a
      number seen before or 128 or more below one recorded is a replay, and is not recorded
      again; otherwise the AEAD decides, with the number recorded. */
  lemma DecryptAnswers(a: Aead, key: Key, recorded: set<nat>, data: seq<byte>)
    ensures var (after, r) := DecryptWith(a, key, recorded, data);
            && (r == Err(TooShort) <==> |data| < 24)
            && (|data| >= 24 ==>
                  var n := FromLe(data[..8]);
                  var stale := n in recorded || exists m <- recorded :: m >= n + 128;
                  var plain := a.open(key, ToLe(n, 8) + [0, 0, 0, 0], data[8..]);
                  && after == (if stale then recorded else recorded + {n})
                  && r == if stale then Err(Replay) else if plain.Some? then Ok(plain.value) else Err(OpenFailed))
  {
  }

  // ---- Nonce reuse ----

  /** The number the `call`-th call of `encrypt` draws from a fresh cipher. */
  function SeqOfCall(call: nat): nat {
    call % U64
  }

  lemma SmallNumber(call: nat)
    requires call < 18_446_744_073_709_551_616
    ensures SeqOfCall(call) == call
  {
  }

  lemma CounterAfter(calls: nat)
    ensures SeqOfCall(calls + 1) == NextCounter(SeqOfCall(calls))
  {
    var q, r := calls / U64, calls % U64;
    if r + 1 == U64 {
      ModUnique(calls + 1, U64, q + 1, 0);
      ModUnique(r + 1, U64, 1, 0);
    } else {
      ModUnique(calls + 1, U64, q, r + 1);
    }
  }

  /** Among the first `n` calls, no two that are let through share a number. */
  ghost predicate NoncesDistinct(n: nat) {
    forall i, j | 0 <= i < j < n && !Exhausted(SeqOfCall(i)) && !Exhausted(SeqOfCall(j)) ::
      SeqOfCall(i) != SeqOfCall(j)
  }

  /** The counter never repeats a nonce within 2^64 calls, and does at the next one:
      refused calls advance it too, so it wraps to 0. */
  lemma NoncesDistinctIff(n: nat)
    ensures NoncesDistinct(n) <==> n <= U64
  {
    if n > U64 {
      assert SeqOfCall(0) == 0 && SeqOfCall(U64) == 0;
      assert !Exhausted(SeqOfCall(0));
    }
  }

  // ---- The bitmap ----

  /** The bitmap state stands for the set `recorded`: the flag says it is nonempty,
      `highest` is its maximum, and bit `i` says whether `highest - i` is in it. */
  ghost predicate Represents(highest: nat, initialised: bool, bitmap: nat, recorded: set<nat>) {
    && initialised == (recorded != {})
    && (initialised ==>
          && highest in recorded
          && (forall m <- recorded :: m <= highest)
          && forall i: nat | i < REPLAY_WINDOW :: Bit(bitmap, i) == (i <= highest && highest - i in recorded))
  }

  /** Receive window: the highest number accepted and one bit for each of the 128
      numbers up to it. */
  class ReplayWindow {
    var highest: nat
    var initialised: bool
    var bitmap: nat
    /** Every number recorded since creation. */
    ghost var recorded: set<nat>

    ghost predicate Valid()
      reads this
    {
      Represents(highest, initialised, bitmap, recorded)
    }

    constructor ()
      ensures Valid() && recorded == {}
    {
      highest, initialised, bitmap := 0, false, 0;
      recorded := {};
    }

    method CheckAndRecordSeq(n: nat) returns (ok: bool)
      requires Valid()
      modifies this
      ensures Valid()
      ensures ok == Accepts(old(recorded), n)
      ensures recorded == if ok then old(recorded) + {n} else old(recorded)
    {
      if !initialised {
        highest, bitmap, initialised := n, 1, true;
        recorded := {n};
        OneBit();
        return true;
      }
      if n > highest {
        var delta := n - highest;
        ghost var before := bitmap;
        if delta >= 128 {
          bitmap := 1;
          OneBit();
        } else {
          bitmap := Or(Shl(128, bitmap, delta), 1);
          SlideBits(before, delta);
        }
        highest := n;
        recorded := recorded + {n};
        return true;
      } else if n == highest {
        return false;
      } else {
        var offset := highest - n;
        if offset >= REPLAY_WINDOW {
          return false;
        }
        var bit := Shl(128, 1, offset);
        OneShifted(offset);
        MaskTestsBit(bitmap, offset);
        if And(bitmap, bit) != 0 {
          return false;
        }
        ghost var before := bitmap;
        bitmap := Or(bitmap, bit);
        SetBit(before, offset);
        recorded := recorded + {n};
        return true;
      }
    }
  }

  lemma OneBit()
    ensures forall i: nat {:trigger Bit(1, i)} :: Bit(1, i) == (i == 0)
  {
    forall i: nat ensures Bit(1, i) == (i == 0) { BitPow2(0, i); }
  }

  lemma SlideBits(w: nat, d: nat)
    ensures forall i: nat | i < 128 :: Bit(Or(Shl(128, w, d), 1), i) == (i == 0 || (i >= d && Bit(w, i - d)))
  {
    forall i: nat | i < 128
      ensures Bit(Or(Shl(128, w, d), 1), i) == (i == 0 || (i >= d && Bit(w, i - d)))
    {
      BitOr(Shl(128, w, d), 1, i);
      BitShl(128, w, d, i);
      OneBit();
    }
  }

  lemma SetBit(w: nat, k: nat)
    ensures forall i: nat {:trigger Bit(Or(w, Pow2(k)), i)} :: Bit(Or(w, Pow2(k)), i) == (i == k || Bit(w, i))
  {
    forall i: nat ensures Bit(Or(w, Pow2(k)), i) == (i == k || Bit(w, i)) {
      BitOr(w, Pow2(k), i);
      BitPow2(k, i);
    }
  }

  lemma OneShifted(d: nat)
    requires d < 128
    ensures Shl(128, 1, d) == Pow2(d)
  {
    ShlPow2(0, d);
  }

  lemma {:induction false} ShlPow2(k: nat, d: nat)
    requires k + d < 128
    ensures Shl(128, Pow2(k), d) == Pow2(k + d)
    decreases d
  {
    if d > 0 {
      Pow2Monotone(k + 1, 128);
      ModUnique(2 * Pow2(k), Pow2(128), 0, Pow2(k + 1));
      ShlPow2(k + 1, d - 1);
    }
  }

  lemma {:induction false} Pow2Monotone(a: nat, b: nat)
    requires a < b
    ensures Pow2(a) < Pow2(b)
    decreases b
  {
    if a + 1 < b { Pow2Monotone(a, b - 1); }
  }

  // ---- The cipher ----

  /** One direction of a session. */
  class SessionCipher {
    const aead: Aead
    const key: Key
    var sendNonce: nat
    const replay: ReplayWindow

    ghost predicate Valid()
      reads this, replay
    {
      sendNonce < U64 && replay.Valid()
    }

    constructor (aead: Aead, key: Key)
      ensures Valid() && fresh(replay)
      ensures this.aead == aead && this.key == key
      ensures sendNonce == SeqOfCall(0) && replay.recorded == {}
    {
      this.aead := aead;
      this.key := key;
      sendNonce := 0;
      replay := new ReplayWindow();
    }

    method Encrypt(plain: seq<byte>) returns (r: Result<seq<byte>>)
      requires Valid()
      modifies this`sendNonce
      ensures Valid()
      ensures sendNonce == NextCounter(old(sendNonce))
      ensures r == EncryptAt(aead, key, old(sendNonce), plain)
    {
      var n := sendNonce;
      sendNonce := (sendNonce + 1) % U64;
      if n >= U64 - 2 {
        return Err(CounterExhausted);
      }
      var out := ToLe(n, 8);
      var ct := aead.seal(key, NonceFromU64(n), plain);
      if ct.None? {
        return Err(SealFailed);
      }
      out := out + ct.value;
      return Ok(out);
    }

    method Decrypt(data: seq<byte>) returns (r: Result<seq<byte>>)
      requires Valid()
      modifies replay
      ensures Valid()
      ensures (replay.recorded, r) == DecryptWith(aead, key, old(replay.recorded), data)
    {
      if |data| < MIN_CIPHERTEXT_LEN {
        return Err(TooShort);
      }
      var n := SeqOf(data);
      var unseen := replay.CheckAndRecordSeq(n);
      if !unseen {
        return Err(Replay);
      }
      var p := aead.open(key, NonceFromU64(n), data[8..]);
      if p.None? {
        return Err(OpenFailed);
      }
      return Ok(p.value);
    }
  }
}
