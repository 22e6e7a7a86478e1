/** Machine words as natural numbers: bit tests, shifts, masks and byte encodings.
    The arithmetic of `u16`, `u32`, `u64` and `u128` values is written out on
    `nat`, so every truncation is visible. */
module Bits {
  function Pow2(n: nat): (p: nat)
    ensures p > 0
  {
    if n == 0 then 1 else 2 * Pow2(n - 1)
  }

  /** Bit `i` of `w`, bit 0 being the least significant. */
  predicate Bit(w: nat, i: nat) {
    if i == 0 then w % 2 == 1 else Bit(w / 2, i - 1)
  }

  function Or(a: nat, b: nat): nat {
    if a == 0 && b == 0 then 0
    else 2 * Or(a / 2, b / 2) + (if a % 2 == 1 || b % 2 == 1 then 1 else 0)
  }

  function And(a: nat, b: nat): nat {
    if a == 0 || b == 0 then 0
    else 2 * And(a / 2, b / 2) + (if a % 2 == 1 && b % 2 == 1 then 1 else 0)
  }

  function Xor(a: nat, b: nat): nat {
    if a == 0 && b == 0 then 0
    else 2 * Xor(a / 2, b / 2) + (if a % 2 == b % 2 then 0 else 1)
  }

  /** `w << d` in a word of `width` bits: bits pushed past the top are lost. */
  function Shl(width: nat, w: nat, d: nat): nat
    decreases d
  {
    if d == 0 then w else Shl(width, (2 * w) % Pow2(width), d - 1)
  }

  lemma OrHalves(a: nat, b: nat)
    ensures Or(a, b) / 2 == Or(a / 2, b / 2)
    ensures Or(a, b) % 2 == if a % 2 == 1 || b % 2 == 1 then 1 else 0
  {
  }

  lemma {:induction false} BitOr(a: nat, b: nat, i: nat)
    ensures Bit(Or(a, b), i) == (Bit(a, i) || Bit(b, i))
  {
    OrHalves(a, b);
    if i > 0 { BitOr(a / 2, b / 2, i - 1); }
  }

  lemma {:induction false} BitAnd(a: nat, b: nat, i: nat)
    ensures Bit(And(a, b), i) == (Bit(a, i) && Bit(b, i))
  {
    if a == 0 || b == 0 {
      BitZero(i);
    } else if i > 0 {
      BitAnd(a / 2, b / 2, i - 1);
    }
  }

  lemma {:induction false} BitZero(i: nat)
    ensures !Bit(0, i)
  {
    if i > 0 { BitZero(i - 1); }
  }

  lemma {:induction false} BitPow2(k: nat, i: nat)
    ensures Bit(Pow2(k), i) == (i == k)
  {
    if k == 0 {
      if i > 0 { BitZero(i - 1); }
    } else if i > 0 {
      BitPow2(k - 1, i - 1);
    }
  }

  /** `w & (1 << k) != 0` tests bit `k`. */
  lemma {:induction false} MaskTestsBit(w: nat, k: nat)
    ensures (And(w, Pow2(k)) != 0) == Bit(w, k)
  {
    if k == 0 {
      assert And(w / 2, 0) == 0;
    } else if w == 0 {
      BitZero(k);
    } else {
      MaskTestsBit(w / 2, k - 1);
    }
  }

  lemma {:induction false} BitMod(w: nat, n: nat, i: nat)
    ensures Bit(w % Pow2(n), i) == (i < n && Bit(w, i))
  {
    if n == 0 {
      BitZero(i);
    } else {
      HalfMod(w, Pow2(n - 1));
      if i > 0 { BitMod(w / 2, n - 1, i - 1); }
    }
  }

  lemma HalfMod(w: nat, m: nat)
    requires m > 0
    ensures (w % (2 * m)) / 2 == (w / 2) % m
    ensures (w % (2 * m)) % 2 == w % 2
  {
    var q := w / (2 * m);
    var r := w % (2 * m);
    assert w == 2 * (m * q) + r;
    assert w / 2 == m * q + r / 2;
    ModUnique(w / 2, m, q, r / 2);
  }

  lemma ModUnique(x: int, m: nat, q: int, r: nat)
    requires x == m * q + r && r < m
    ensures x % m == r && x / m == q
  {
    var d := x / m - q;
    assert m * d == r - x % m by { assert x == m * (x / m) + x % m; }
    assert d >= 1 ==> m * d >= m;
    assert d <= -1 ==> m * d + m <= 0;
  }

  /** After `w << d`, bit `i` is what bit `i - d` was, and the low `d` bits are clear. */
  lemma {:induction false} BitShl(width: nat, w: nat, d: nat, i: nat)
    requires i < width
    ensures Bit(Shl(width, w, d), i) == (i >= d && Bit(w, i - d))
    decreases d
  {
    if d > 0 {
      var w' := (2 * w) % Pow2(width);
      BitShl(width, w', d - 1, i);
      if i >= d - 1 {
        BitMod(2 * w, width, i - (d - 1));
        if i >= d { assert Bit(2 * w, i - (d - 1)) == Bit(w, i - d); }
      }
    }
  }

  lemma {:induction false} BitXor(a: nat, b: nat, i: nat)
    ensures Bit(Xor(a, b), i) == (Bit(a, i) != Bit(b, i))
  {
    XorHalves(a, b);
    if i > 0 { BitXor(a / 2, b / 2, i - 1); }
  }

  lemma XorHalves(a: nat, b: nat)
    ensures Xor(a, b) / 2 == Xor(a / 2, b / 2)
    ensures Xor(a, b) % 2 == if a % 2 == b % 2 then 0 else 1
  {
  }

  lemma {:induction false} XorCancels(a: nat, c: nat)
    ensures Xor(Xor(a, c), c) == a
  {
    if a != 0 || c != 0 {
      XorCancels(a / 2, c / 2);
      var x := Xor(a, c);
      assert x / 2 == Xor(a / 2, c / 2);
    }
  }

  lemma {:induction false} XorBound(a: nat, c: nat, n: nat)
    requires a < Pow2(n) && c < Pow2(n)
    ensures Xor(a, c) < Pow2(n)
  {
    if n > 0 && (a != 0 || c != 0) { XorBound(a / 2, c / 2, n - 1); }
  }
}

/** Byte strings and fixed-width integer encodings. */
module Bytes {
  import opened Bits

  type byte = x: int | 0 <= x < 256

  function Pow256(k: nat): (p: nat)
    ensures p > 0
  {
    if k == 0 then 1 else 256 * Pow256(k - 1)
  }

  /** `k` bytes of `n`, least significant first. */
  function ToLe(n: nat, k: nat): (s: seq<byte>)
    ensures |s| == k
  {
    if k == 0 then [] else [n % 256] + ToLe(n / 256, k - 1)
  }

  function FromLe(s: seq<byte>): nat {
    if s == [] then 0 else s[0] + 256 * FromLe(s[1..])
  }

  /** `k` bytes of `n`, most significant first. */
  function ToBe(n: nat, k: nat): (s: seq<byte>)
    ensures |s| == k
  {
    if k == 0 then [] else ToBe(n / 256, k - 1) + [n % 256]
  }

  function FromBe(s: seq<byte>): nat {
    if s == [] then 0 else 256 * FromBe(s[..|s| - 1]) + s[|s| - 1]
  }

  lemma {:induction false} LeRoundTrip(n: nat, k: nat)
    requires n < Pow256(k)
    ensures FromLe(ToLe(n, k)) == n
  {
    if k > 0 { LeRoundTrip(n / 256, k - 1); }
  }

  /** Byte `i` of a little-endian word weighs 256^i. */
  lemma {:induction false} LeByteAt(n: nat, k: nat, i: nat)
    requires i < k
    ensures ToLe(n, k)[i] == n / Pow256(i) % 256
  {
    if i > 0 {
      LeByteAt(n / 256, k - 1, i - 1);
      DivTwice(n, Pow256(i - 1));
    }
  }

  lemma DivTwice(n: nat, b: nat)
    requires b > 0
    ensures n / 256 / b == n / (256 * b)
  {
    var q := n / 256;
    var u, v := q / b, q % b;
    assert q == b * u + v;
    assert (256 * b) * u == 256 * (b * u);
    ModUnique(n, 256 * b, u, 256 * v + n % 256);
  }

  lemma {:induction false} FromLeBound(s: seq<byte>)
    ensures FromLe(s) < Pow256(|s|)
  {
    if s != [] { FromLeBound(s[1..]); }
  }

  lemma {:induction false} BeRoundTrip(n: nat, k: nat)
    requires n < Pow256(k)
    ensures FromBe(ToBe(n, k)) == n
  {
    if k > 0 {
      BeRoundTrip(n / 256, k - 1);
      var s := ToBe(n, k);
      assert s[..k - 1] == ToBe(n / 256, k - 1);
    }
  }
}
