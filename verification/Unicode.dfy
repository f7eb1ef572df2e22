/** UTF-8 (section 3 of RFC 3629) and UTF-16 (section 2.1 of RFC 2781) as
    encodings of sequences of scalar values. */
module Unicode {
  import opened Prelude
  import opened Bytes

  type CodeUnit = u: int | 0 <= u < 0x1_0000
  type Scalar = v: int | 0 <= v < 0xD800 || 0xE000 <= v < 0x11_0000

  function Encode8(v: Scalar): (r: seq<Byte>)
    ensures 1 <= |r| <= 4
  {
    if v < 0x80 then [v]
    else if v < 0x800 then [0xC0 + v / 0x40, 0x80 + v % 0x40]
    else if v < 0x1_0000 then [0xE0 + v / 0x1000, 0x80 + v / 0x40 % 0x40, 0x80 + v % 0x40]
    else [0xF0 + v / 0x4_0000, 0x80 + v / 0x1000 % 0x40, 0x80 + v / 0x40 % 0x40, 0x80 + v % 0x40]
  }

  function Encode16(v: Scalar): (r: seq<CodeUnit>)
    ensures 1 <= |r| <= 2
  {
    if v < 0x1_0000 then [v] else [0xD800 + (v - 0x1_0000) / 0x400, 0xDC00 + (v - 0x1_0000) % 0x400]
  }

  function Utf8(s: seq<Scalar>): seq<Byte> {
    if s == [] then [] else Utf8(s[..|s| - 1]) + Encode8(s[|s| - 1])
  }

  function Utf16(s: seq<Scalar>): seq<CodeUnit> {
    if s == [] then [] else Utf16(s[..|s| - 1]) + Encode16(s[|s| - 1])
  }

  lemma {:induction false} Utf8Concat(s: seq<Scalar>, t: seq<Scalar>)
    ensures Utf8(s + t) == Utf8(s) + Utf8(t)
    decreases |t|
  {
    if t == [] {
      assert s + t == s;
    } else {
      var init, last := t[..|t| - 1], t[|t| - 1];
      Utf8Concat(s, init);
      assert (s + t)[..|s + t| - 1] == s + init && (s + t)[|s + t| - 1] == last;
      Associate(Utf8(s), Utf8(init), Encode8(last));
    }
  }

  lemma {:induction false} Utf16Concat(s: seq<Scalar>, t: seq<Scalar>)
    ensures Utf16(s + t) == Utf16(s) + Utf16(t)
    decreases |t|
  {
    if t == [] {
      assert s + t == s;
    } else {
      var init, last := t[..|t| - 1], t[|t| - 1];
      Utf16Concat(s, init);
      assert (s + t)[..|s + t| - 1] == s + init && (s + t)[|s + t| - 1] == last;
      Associate(Utf16(s), Utf16(init), Encode16(last));
    }
  }

  // ----- a byte string is the UTF-8 form of at most one text

  lemma LeadByte(v: Scalar)
    ensures |Encode8(v)| == (var b := Encode8(v)[0]; if b < 0x80 then 1 else if b < 0xE0 then 2 else if b < 0xF0 then 3 else 4)
    ensures Encode8(v)[0] < 0x80 || Encode8(v)[0] >= 0xC0
    ensures forall k :: 1 <= k < |Encode8(v)| ==> 0x80 <= Encode8(v)[k] < 0xC0
  {
  }

  /** The scalar value an encoding carries. */
  function Payload(b: seq<Byte>): int
    requires 1 <= |b| <= 4
  {
    var at := (i: nat) requires i < |b| => b[i] as int;
    match |b|
    case 1 => at(0)
    case 2 => (at(0) - 0xC0) * 0x40 + (at(1) - 0x80)
    case 3 => (at(0) - 0xE0) * 0x1000 + (at(1) - 0x80) * 0x40 + (at(2) - 0x80)
    case _ => (at(0) - 0xF0) * 0x4_0000 + (at(1) - 0x80) * 0x1000 + (at(2) - 0x80) * 0x40 + (at(3) - 0x80)
  }

  lemma Base64Digits(v: int)
    ensures v == v / 0x40 * 0x40 + v % 0x40
    ensures v / 0x40 == v / 0x1000 * 0x40 + v / 0x40 % 0x40
    ensures v / 0x1000 == v / 0x4_0000 * 0x40 + v / 0x1000 % 0x40
  {
  }

  lemma PayloadInverts(v: Scalar)
    ensures Payload(Encode8(v)) == v
  {
    Base64Digits(v);
  }

  lemma FirstScalar(s: seq<Scalar>)
    requires s != []
    ensures Utf8(s) == Encode8(s[0]) + Utf8(s[1..])
  {
    assert s == [s[0]] + s[1..];
    Utf8Concat([s[0]], s[1..]);
    assert [s[0]][..0] == [];
    assert Utf8([s[0]]) == Encode8(s[0]);
  }

  /** The first encoded scalar can be told from what follows. */
  lemma FirstIsTold(v: Scalar, w: Scalar, x: seq<Byte>, y: seq<Byte>)
    requires Encode8(v) + x == Encode8(w) + y
    ensures v == w && x == y
  {
    var a, b := Encode8(v), Encode8(w);
    assert a[0] == (a + x)[0] && b[0] == (b + y)[0];
    LeadByte(v);
    LeadByte(w);
    assert a == (a + x)[..|a|] && b == (b + y)[..|b|];
    assert x == (a + x)[|a|..] && y == (b + y)[|b|..];
    PayloadInverts(v);
    PayloadInverts(w);
  }

  lemma {:induction false} Utf8Injective(s: seq<Scalar>, t: seq<Scalar>)
    requires Utf8(s) == Utf8(t)
    ensures s == t
    decreases |s|
  {
    if s != [] {
      FirstScalar(s);
    }
    if t != [] {
      FirstScalar(t);
    }
    if s != [] && t != [] {
      FirstIsTold(s[0], t[0], Utf8(s[1..]), Utf8(t[1..]));
      Utf8Injective(s[1..], t[1..]);
      assert s == [s[0]] + s[1..] && t == [t[0]] + t[1..];
    }
  }

  /** A scalar below 0x10000 is its own code unit; any other is a high and a low
      surrogate that carry ten bits each. */
  lemma SurrogatesCarry(v: Scalar)
    ensures v < 0x1_0000 ==> Encode16(v) == [v]
    ensures v >= 0x1_0000 ==>
              && |Encode16(v)| == 2 && 0xD800 <= Encode16(v)[0] < 0xDC00 <= Encode16(v)[1] < 0xE000
              && 0x1_0000 + (Encode16(v)[0] as int - 0xD800) * 0x400 + (Encode16(v)[1] as int - 0xDC00) == v
  {
  }
}
