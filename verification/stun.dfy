/** The STUN response parser: walks the attributes behind the 20-byte header to the mapped
    address (sections 15 and 15.2 of RFC 5389). */
module Stun {
  import opened Bits
  import opened Bytes

  const HEADER: nat := 20
  const XOR_MAPPED_ADDRESS: nat := 0x0020
  const FAMILY_IPV4: byte := 0x01
  /** The magic cookie, and its upper half. */
  const COOKIE: nat := 0x2112A442
  const COOKIE_HIGH: nat := 0x2112

  datatype Result = Mapped(ip: nat, port: nat) | TooShort | NotFound

  /** Big-endian words at an offset. */
  function Word16(buf: seq<byte>, i: nat): nat
    requires i + 2 <= |buf|
  {
    256 * (buf[i] as int) + buf[i + 1]
  }

  function Word32(buf: seq<byte>, i: nat): nat
    requires i + 4 <= |buf|
  {
    0x100_0000 * (buf[i] as int) + 0x1_0000 * (buf[i + 1] as int) + 256 * (buf[i + 2] as int) + buf[i + 3]
  }

  /** Type and value of an attribute; padding is not part of it. */
  datatype Attribute = Attribute(kind: nat, value: seq<byte>)

  /** Lengths are padded to a multiple of four: `(len + 3) & !3`. */
  function Padded(len: nat): nat {
    (len + 3) / 4 * 4
  }

  // ---- What a buffer means ----

  /** The attributes from offset i on, up to the first that does not fit. */
  function Walk(buf: seq<byte>, i: nat): seq<Attribute>
    decreases |buf| - i
  {
    if i + 4 > |buf| then []
    else
      var len := Word16(buf, i + 2);
      if i + 4 + len > |buf| then []
      else [Attribute(Word16(buf, i), buf[i + 4..i + 4 + len])] + Walk(buf, i + 4 + Padded(len))
  }

  /** An IPv4 XOR-MAPPED-ADDRESS long enough to hold one. */
  predicate HoldsIpv4(a: Attribute) {
    a.kind == XOR_MAPPED_ADDRESS && |a.value| >= 8 && a.value[1] == FAMILY_IPV4
  }

  function AddressIn(a: Attribute): Result
    requires HoldsIpv4(a)
  {
    Mapped(Xor(Word32(a.value, 4), COOKIE), Xor(Word16(a.value, 2), COOKIE_HIGH))
  }

  function First(attributes: seq<Attribute>): Result {
    if attributes == [] then NotFound
    else if HoldsIpv4(attributes[0]) then AddressIn(attributes[0])
    else First(attributes[1..])
  }

  /** The answer is the first attribute that holds an IPv4 address, if any. */
  lemma {:induction false} FirstIff(attributes: seq<Attribute>, r: Result)
    ensures First(attributes) == r <==>
      || (r == NotFound && forall a <- attributes :: !HoldsIpv4(a))
      || exists k | 0 <= k < |attributes| ::
           && HoldsIpv4(attributes[k]) && AddressIn(attributes[k]) == r
           && forall j | 0 <= j < k :: !HoldsIpv4(attributes[j])
  {
    if attributes != [] {
      var rest := attributes[1..];
      FirstIff(rest, r);
      assert attributes == [attributes[0]] + rest;
      if !HoldsIpv4(attributes[0]) {
        forall k | 0 <= k < |rest| && HoldsIpv4(rest[k]) && AddressIn(rest[k]) == r
                   && forall j | 0 <= j < k :: !HoldsIpv4(rest[j])
          ensures HoldsIpv4(attributes[k + 1]) && AddressIn(attributes[k + 1]) == r
          ensures forall j | 0 <= j < k + 1 :: !HoldsIpv4(attributes[j])
        {
        }
        forall k | 0 <= k < |attributes| && HoldsIpv4(attributes[k]) && AddressIn(attributes[k]) == r
                   && forall j | 0 <= j < k :: !HoldsIpv4(attributes[j])
          ensures k > 0 && HoldsIpv4(rest[k - 1]) && AddressIn(rest[k - 1]) == r
          ensures forall j | 0 <= j < k - 1 :: !HoldsIpv4(rest[j])
        {
          assert k > 0;
          forall j | 0 <= j < k - 1 ensures !HoldsIpv4(rest[j]) { assert rest[j] == attributes[j + 1]; }
        }
      }
    }
  }

  // ---- The parser ----

  /** The attribute at offset i, and the answer found from there on. */
  predicate Fits(buf: seq<byte>, i: nat) {
    i + 4 <= |buf| && i + 4 + Word16(buf, i + 2) <= |buf|
  }

  function AttributeAt(buf: seq<byte>, i: nat): Attribute
    requires Fits(buf, i)
  {
    Attribute(Word16(buf, i), buf[i + 4..i + 4 + Word16(buf, i + 2)])
  }

  function Answer(buf: seq<byte>, i: nat): Result
    decreases |buf| - i
  {
    if !Fits(buf, i) then NotFound
    else if HoldsIpv4(AttributeAt(buf, i)) then AddressIn(AttributeAt(buf, i))
    else Answer(buf, i + 4 + Padded(Word16(buf, i + 2)))
  }

  /** The search answers with the first attribute of the buffer that holds an address. */
  lemma {:induction false} AnswerIsFirst(buf: seq<byte>, i: nat)
    ensures Answer(buf, i) == First(Walk(buf, i))
    decreases |buf| - i
  {
    if Fits(buf, i) {
      var a, next := AttributeAt(buf, i), i + 4 + Padded(Word16(buf, i + 2));
      assert Walk(buf, i) == [a] + Walk(buf, next);
      AnswerIsFirst(buf, next);
      assert ([a] + Walk(buf, next))[1..] == Walk(buf, next);
    }
  }

  /** The answer at an attribute, in terms of the buffer's bytes: an attribute of type 0x0020,
      family 1 and at least 8 bytes gives port and address, each with the magic cookie taken off;
      any other is skipped with its padding to a multiple of four. */
  lemma AnswerAt(buf: seq<byte>, i: nat, len: nat)
    requires i + 4 <= |buf| && len == 256 * (buf[i + 2] as int) + buf[i + 3] && i + 4 + len <= |buf|
    ensures Answer(buf, i) ==
      if buf[i] == 0 && buf[i + 1] == 0x20 && len >= 8 && buf[i + 5] == 1
      then Mapped(Xor(FromBe(buf[i + 8..i + 12]), 0x2112_A442), Xor(FromBe(buf[i + 6..i + 8]), 0x2112))
      else Answer(buf, i + 4 + (len + 3) / 4 * 4)
  {
    if buf[i] == 0 && buf[i + 1] == 0x20 && len >= 8 && buf[i + 5] == 1 {
      WordsAreBe(buf, i + 6);
      WordsAreBe(buf, i + 8);
      HolderAt(buf, i);
    } else {
      OtherAt(buf, i);
    }
  }

  lemma HolderAt(buf: seq<byte>, i: nat)
    requires Fits(buf, i) && Word16(buf, i) == XOR_MAPPED_ADDRESS && Word16(buf, i + 2) >= 8
    requires buf[i + 5] == FAMILY_IPV4
    ensures Answer(buf, i) == Mapped(Xor(Word32(buf, i + 8), COOKIE), Xor(Word16(buf, i + 6), COOKIE_HIGH))
  {
    var a := AttributeAt(buf, i);
    assert Word32(a.value, 4) == Word32(buf, i + 8) && Word16(a.value, 2) == Word16(buf, i + 6);
  }

  lemma OtherAt(buf: seq<byte>, i: nat)
    requires Fits(buf, i)
    requires Word16(buf, i) != XOR_MAPPED_ADDRESS || Word16(buf, i + 2) < 8 || buf[i + 5] != FAMILY_IPV4
    ensures Answer(buf, i) == Answer(buf, i + 4 + Padded(Word16(buf, i + 2)))
  {
  }

  /** The search ends where no whole attribute is left. */
  lemma NoAnswerAt(buf: seq<byte>, i: nat)
    requires i + 4 <= |buf| ==> i + 4 + 256 * (buf[i + 2] as int) + buf[i + 3] > |buf|
    ensures Answer(buf, i) == NotFound
  {
  }

  /** An answer needs the 20 bytes of the header, and is searched for behind them. */
  method ParseXorMapped(buf: seq<byte>) returns (r: Result)
    ensures r == if |buf| < 20 then TooShort else Answer(buf, 20)
  {
    if |buf| < HEADER {
      return TooShort;
    }
    var i := HEADER;
    while i + 4 <= |buf|
      invariant Answer(buf, i) == Answer(buf, HEADER)
    {
      var attrType := Word16(buf, i);
      var attrLen := Word16(buf, i + 2);
      var valStart := i + 4;
      if valStart + attrLen > |buf| {
        break;
      }
      if attrType == XOR_MAPPED_ADDRESS && attrLen >= 4 {
        var family := buf[valStart + 1];
        var port := Xor(Word16(buf, valStart + 2), COOKIE_HIGH);
        if family == FAMILY_IPV4 && attrLen >= 8 {
          HolderAt(buf, i);
          return Mapped(Xor(Word32(buf, valStart + 4), COOKIE), port);
        }
      }
      OtherAt(buf, i);
      i := valStart + Padded(attrLen);
    }
    return NotFound;
  }

  // ---- Encoding ----

  /** An attribute as a server writes it, with its padding bytes. */
  datatype Wire = Wire(attribute: Attribute, padding: seq<byte>) {
    ghost predicate Valid() {
      && attribute.kind < 0x1_0000 && |attribute.value| < 0x1_0000
      && |padding| < 4 && (|attribute.value| + |padding|) % 4 == 0
    }

    function Bytes(): seq<byte> {
      ToBe(attribute.kind, 2) + ToBe(|attribute.value|, 2) + attribute.value + padding
    }
  }

  function AllBytes(ws: seq<Wire>): seq<byte> {
    if ws == [] then [] else ws[0].Bytes() + AllBytes(ws[1..])
  }

  function AllAttributes(ws: seq<Wire>): seq<Attribute> {
    if ws == [] then [] else [ws[0].attribute] + AllAttributes(ws[1..])
  }

  lemma Widths()
    ensures Pow2(16) == Pow256(2) == 0x1_0000
    ensures Pow2(32) == Pow256(4) == 0x1_0000_0000
  {
    assert Pow2(8) == 256 && Pow2(16) == 0x1_0000 && Pow2(24) == 0x100_0000 && Pow2(32) == 0x1_0000_0000;
    assert Pow256(2) == 0x1_0000 && Pow256(4) == 0x1_0000_0000;
  }

  predicate Holds(buf: seq<byte>, i: nat, bytes: seq<byte>) {
    i + |bytes| <= |buf| && buf[i..i + |bytes|] == bytes
  }

  lemma HoldsParts(buf: seq<byte>, i: nat, x: seq<byte>, y: seq<byte>)
    requires Holds(buf, i, x + y)
    ensures Holds(buf, i, x) && Holds(buf, i + |x|, y)
  {
    var n := |x + y|;
    assert (x + y)[..|x|] == x && (x + y)[|x|..] == y;
    assert buf[i..i + n][..|x|] == buf[i..i + |x|];
    assert buf[i..i + n][|x|..] == buf[i + |x|..i + n];
  }

  lemma WordsAreBe(buf: seq<byte>, i: nat)
    ensures i + 2 <= |buf| ==> Word16(buf, i) == FromBe(buf[i..i + 2])
    ensures i + 4 <= |buf| ==> Word32(buf, i) == FromBe(buf[i..i + 4])
  {
    if i + 2 <= |buf| {
      FromBe2(buf[i..i + 2]);
    }
    if i + 4 <= |buf| {
      var s := buf[i..i + 4];
      FromBe2(s[..2]);
      assert s[..3][..2] == s[..2];
      assert FromBe(s[..3]) == 256 * FromBe(s[..3][..2]) + s[..3][2];
    }
  }

  lemma FromBe2(s: seq<byte>)
    requires |s| == 2
    ensures FromBe(s) == 256 * (s[0] as int) + s[1]
  {
    assert FromBe(s[..1]) == 256 * FromBe(s[..1][..0]) + s[..1][0];
  }

  lemma WireParts(buf: seq<byte>, i: nat, w: Wire)
    requires w.Valid() && Holds(buf, i, w.Bytes())
    ensures var n := |w.attribute.value|;
            && i + 4 + n <= |buf| && Word16(buf, i) == w.attribute.kind && Word16(buf, i + 2) == n
            && buf[i + 4..i + 4 + n] == w.attribute.value
  {
    var kind, len := ToBe(w.attribute.kind, 2), ToBe(|w.attribute.value|, 2);
    HoldsParts(buf, i, kind + len + w.attribute.value, w.padding);
    HoldsParts(buf, i, kind + len, w.attribute.value);
    HoldsParts(buf, i, kind, len);
    WordsAreBe(buf, i);
    WordsAreBe(buf, i + 2);
    Widths();
    BeRoundTrip(w.attribute.kind, 2);
    BeRoundTrip(|w.attribute.value|, 2);
  }

  lemma AnswerAtWritten(buf: seq<byte>, i: nat, w: Wire)
    requires w.Valid() && Holds(buf, i, w.Bytes())
    ensures Answer(buf, i) == if HoldsIpv4(w.attribute) then AddressIn(w.attribute) else Answer(buf, i + |w.Bytes()|)
  {
    WireParts(buf, i, w);
    assert Fits(buf, i) && AttributeAt(buf, i) == w.attribute;
    assert i + |w.Bytes()| == i + 4 + Padded(Word16(buf, i + 2));
  }

  /** Parsing over written attributes: the first of them that holds an address, else whatever
      comes behind them. */
  lemma {:induction false} FirstOfWritten(buf: seq<byte>, i: nat, ws: seq<Wire>)
    requires (forall w <- ws :: w.Valid()) && Holds(buf, i, AllBytes(ws))
    ensures Answer(buf, i) ==
      if First(AllAttributes(ws)).Mapped? then First(AllAttributes(ws)) else Answer(buf, i + |AllBytes(ws)|)
    decreases |ws|
  {
    if ws != [] {
      var w, n := ws[0], i + |ws[0].Bytes()|;
      HoldsParts(buf, i, w.Bytes(), AllBytes(ws[1..]));
      FirstAttribute(ws);
      assert i + |AllBytes(ws)| == n + |AllBytes(ws[1..])|;
      FirstOfWritten(buf, n, ws[1..]);
      AnswerAtWritten(buf, i, w);
    }
  }

  lemma FirstAttribute(ws: seq<Wire>)
    requires ws != []
    ensures First(AllAttributes(ws)) ==
      if HoldsIpv4(ws[0].attribute) then AddressIn(ws[0].attribute) else First(AllAttributes(ws[1..]))
  {
    assert ([ws[0].attribute] + AllAttributes(ws[1..]))[1..] == AllAttributes(ws[1..]);
  }

  /** XOR-MAPPED-ADDRESS for an IPv4 address and port; the first byte is reserved. */
  function MappedAttribute(reserved: byte, ip: nat, port: nat): Attribute {
    Attribute(0x0020, [reserved, 1] + ToBe(Xor(port, 0x2112), 2) + ToBe(Xor(ip, 0x2112_A442), 4))
  }

  lemma WordRoundTrip(n: nat, cookie: nat, bytes: nat)
    requires n < Pow2(8 * bytes) && cookie < Pow2(8 * bytes) && Pow2(8 * bytes) == Pow256(bytes)
    ensures Xor(FromBe(ToBe(Xor(n, cookie), bytes)), cookie) == n
  {
    XorBound(n, cookie, 8 * bytes);
    BeRoundTrip(Xor(n, cookie), bytes);
    XorCancels(n, cookie);
  }

  lemma MappedRoundTrip(reserved: byte, ip: nat, port: nat)
    requires ip < 0x1_0000_0000 && port < 0x1_0000
    ensures HoldsIpv4(MappedAttribute(reserved, ip, port))
    ensures AddressIn(MappedAttribute(reserved, ip, port)) == Mapped(ip, port)
  {
    var value := MappedAttribute(reserved, ip, port).value;
    assert value[2..4] == ToBe(Xor(port, COOKIE_HIGH), 2);
    assert value[4..8] == ToBe(Xor(ip, COOKIE), 4);
    WordsAreBe(value, 2);
    WordsAreBe(value, 4);
    Widths();
    WordRoundTrip(port, COOKIE_HIGH, 2);
    WordRoundTrip(ip, COOKIE, 4);
  }

  lemma FindsMapped(buf: seq<byte>, ws: seq<Wire>, w: Wire)
    requires (forall each <- ws :: each.Valid()) && w.Valid()
    requires Holds(buf, HEADER, AllBytes(ws)) && Holds(buf, HEADER + |AllBytes(ws)|, w.Bytes())
    requires First(AllAttributes(ws)) == NotFound && HoldsIpv4(w.attribute)
    ensures Answer(buf, HEADER) == AddressIn(w.attribute)
  {
    FirstOfWritten(buf, HEADER, ws);
    AnswerAtWritten(buf, HEADER + |AllBytes(ws)|, w);
  }

  /** The parser undoes the encoding: behind any header and any attributes that hold no IPv4
      mapped address, the mapped address is found, whatever follows it. */
  lemma ParseFindsMapped(header: seq<byte>, ws: seq<Wire>, reserved: byte, ip: nat, port: nat, tail: seq<byte>)
    requires |header| == 20 && ip < 0x1_0000_0000 && port < 0x1_0000
    requires forall w <- ws :: w.Valid()
    requires forall a <- AllAttributes(ws) :: !HoldsIpv4(a)
    ensures var buf := header + AllBytes(ws) + Wire(MappedAttribute(reserved, ip, port), []).Bytes() + tail;
            Answer(buf, 20) == Mapped(ip, port)
  {
    var w := Wire(MappedAttribute(reserved, ip, port), []);
    var bytes, mapped := AllBytes(ws), w.Bytes();
    var buf := header + bytes + mapped + tail;
    FirstIff(AllAttributes(ws), NotFound);
    MappedRoundTrip(reserved, ip, port);
    assert Holds(buf, HEADER, bytes) && Holds(buf, HEADER + |bytes|, mapped);
    FindsMapped(buf, ws, w);
  }

  /** What a parsed address can be. */
  lemma {:induction false} ParsedInRange(attributes: seq<Attribute>)
    requires First(attributes).Mapped?
    ensures First(attributes).ip < 0x1_0000_0000 && First(attributes).port < 0x1_0000
  {
    if HoldsIpv4(attributes[0]) {
      Widths();
      XorBound(Word16(attributes[0].value, 2), COOKIE_HIGH, 16);
      XorBound(Word32(attributes[0].value, 4), COOKIE, 32);
    } else {
      ParsedInRange(attributes[1..]);
    }
  }
}
