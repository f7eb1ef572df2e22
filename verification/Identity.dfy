/** 128-bit document ids: UUID text in the Node binding (section 4 of
    RFC 9562), and the two-word path from the Python workload writer to the
    decimal text of the Swift driver. */
module Identity {
  import opened Prelude
  import opened Bytes
  import opened Decimal

  const TWO128: nat := 0x1_0000_0000_0000_0000_0000_0000_0000_0000

  // ----- hexadecimal digit sequences

  function Pow16(k: nat): (r: nat)
    ensures r >= 1
  {
    if k == 0 then 1 else 16 * Pow16(k - 1)
  }

  /** `toString(16)`: no leading zeros. */
  function HexDigits(n: nat): (r: seq<nat>)
    ensures |r| >= 1 && forall i :: 0 <= i < |r| ==> r[i] < 16
  {
    if n < 16 then [n] else HexDigits(n / 16) + [n % 16]
  }

  /** The low `k` hexadecimal digits of `n`. */
  function Nibbles(n: nat, k: nat): (r: seq<nat>)
    ensures |r| == k && forall i :: 0 <= i < |r| ==> r[i] < 16
  {
    if k == 0 then [] else Nibbles(n / 16, k - 1) + [n % 16]
  }

  function Value16(ds: seq<nat>): nat {
    if ds == [] then 0 else 16 * Value16(ds[..|ds| - 1]) + ds[|ds| - 1]
  }

  /** `padStart(k, '0')`. */
  function PadStart(ds: seq<nat>, k: nat): seq<nat> {
    if |ds| >= k then ds else seq(k - |ds|, _ => 0) + ds
  }

  lemma {:induction false} ZeroNibbles(k: nat)
    ensures Nibbles(0, k) == seq(k, _ => 0)
  {
    if k > 0 {
      ZeroNibbles(k - 1);
    }
  }

  /** Padding the shortest numeral gives the fixed-width one. */
  lemma {:induction false} PaddedIsFixedWidth(n: nat, k: nat)
    requires k > 0 && n < Pow16(k)
    ensures |HexDigits(n)| <= k && PadStart(HexDigits(n), k) == Nibbles(n, k)
    decreases k
  {
    if n < 16 {
      ZeroNibbles(k - 1);
    } else {
      PaddedIsFixedWidth(n / 16, k - 1);
    }
  }

  lemma {:induction false} NibblesHaveValue(n: nat, k: nat)
    requires n < Pow16(k)
    ensures Value16(Nibbles(n, k)) == n
  {
    if k > 0 {
      NibblesHaveValue(n / 16, k - 1);
    }
  }

  lemma {:induction false} ValueHasNibbles(ds: seq<nat>)
    requires forall i :: 0 <= i < |ds| ==> ds[i] < 16
    ensures Nibbles(Value16(ds), |ds|) == ds && Value16(ds) < Pow16(|ds|)
  {
    if ds != [] {
      ValueHasNibbles(ds[..|ds| - 1]);
    }
  }

  // ----- hexadecimal text

  const LOWER := "0123456789abcdef"

  function HexValue(c: char): (r: Option<nat>)
    ensures r.Some? ==> r.value < 16 && c != '-'
  {
    if '0' <= c <= '9' then Some(c as int - '0' as int)
    else if 'a' <= c <= 'f' then Some(c as int - 'a' as int + 10)
    else if 'A' <= c <= 'F' then Some(c as int - 'A' as int + 10)
    else None
  }

  function LowerChar(c: char): char {
    if 'A' <= c <= 'F' then (c as int - 'A' as int + 'a' as int) as char else c
  }

  function Lower(s: string): string {
    seq(|s|, i requires 0 <= i < |s| => LowerChar(s[i]))
  }

  predicate IsHex(s: string) {
    forall i :: 0 <= i < |s| ==> HexValue(s[i]).Some?
  }

  function HexText(ds: seq<nat>): string
    requires forall i :: 0 <= i < |ds| ==> ds[i] < 16
  {
    seq(|ds|, i requires 0 <= i < |ds| => LOWER[ds[i]])
  }

  function HexParse(s: string): (r: seq<nat>)
    requires IsHex(s)
    ensures |r| == |s| && forall i :: 0 <= i < |r| ==> r[i] < 16
  {
    seq(|s|, i requires 0 <= i < |s| => HexValue(s[i]).value)
  }

  lemma HexChar(d: nat)
    requires d < 16
    ensures HexValue(LOWER[d]) == Some(d)
  {
  }

  lemma LowerIsCanonical(c: char)
    requires HexValue(c).Some?
    ensures LOWER[HexValue(c).value] == LowerChar(c)
  {
  }

  lemma TextParses(ds: seq<nat>)
    requires forall i :: 0 <= i < |ds| ==> ds[i] < 16
    ensures IsHex(HexText(ds)) && HexParse(HexText(ds)) == ds
  {
    forall i | 0 <= i < |ds|
      ensures HexValue(HexText(ds)[i]) == Some(ds[i])
    {
      HexChar(ds[i]);
    }
  }

  lemma ParsePrintsLower(s: string)
    requires IsHex(s)
    ensures HexText(HexParse(s)) == Lower(s)
  {
    forall i | 0 <= i < |s|
      ensures HexText(HexParse(s))[i] == LowerChar(s[i])
    {
      LowerIsCanonical(s[i]);
    }
  }

  // ----- UUID text

  /** 8-4-4-4-12 hexadecimal digits, either case. */
  predicate UuidPattern(s: string) {
    && |s| == 36
    && s[8] == s[13] == s[18] == s[23] == '-'
    && IsHex(s[..8]) && IsHex(s[9..13]) && IsHex(s[14..18]) && IsHex(s[19..23]) && IsHex(s[24..])
  }

  function RemoveDashes(s: string): string {
    if s == [] then [] else RemoveDashes(s[..|s| - 1]) + (if s[|s| - 1] == '-' then [] else [s[|s| - 1]])
  }

  function UuidToId(s: string): Option<nat> {
    if !UuidPattern(s) then None
    else
      DashesGone(s);
      Some(Value16(HexParse(RemoveDashes(s))))
  }

  function IdToUuid(id: int): Option<string> {
    if id < 0 || id >= TWO128 then None
    else
      Sixteen();
      PaddedIsFixedWidth(id, 32);
      Some(Dashed(HexText(PadStart(HexDigits(id), 32))))
  }

  function Dashed(h: string): string
    requires |h| == 32
  {
    h[..8] + "-" + h[8..12] + "-" + h[12..16] + "-" + h[16..20] + "-" + h[20..]
  }

  lemma Sixteen()
    ensures Pow16(32) == TWO128
  {
    assert Pow16(8) == 0x1_0000_0000;
    assert Pow16(16) == 0x1_0000_0000_0000_0000;
    assert Pow16(24) == 0x1_0000_0000_0000_0000_0000_0000;
  }

  lemma {:induction false} RemoveDashesConcat(a: string, b: string)
    ensures RemoveDashes(a + b) == RemoveDashes(a) + RemoveDashes(b)
    decreases |b|
  {
    if b == [] {
      assert a + b == a;
    } else {
      RemoveDashesConcat(a, b[..|b| - 1]);
      assert (a + b)[..|a + b| - 1] == a + b[..|b| - 1];
    }
  }

  lemma {:induction false} HexHasNoDashes(s: string)
    requires IsHex(s)
    ensures RemoveDashes(s) == s
  {
    if s != [] {
      HexHasNoDashes(s[..|s| - 1]);
      assert HexValue(s[|s| - 1]).Some?;
    }
  }

  lemma OneDash(a: string, b: string)
    requires IsHex(b)
    ensures RemoveDashes(a + "-" + b) == RemoveDashes(a) + b
  {
    DashIsRemoved(a);
    RemoveDashesConcat(a + "-", b);
    HexHasNoDashes(b);
  }

  lemma DashIsRemoved(a: string)
    ensures RemoveDashes(a + "-") == RemoveDashes(a)
  {
    var s := a + "-";
    assert s[|s| - 1] == '-' && s[..|s| - 1] == a;
  }

  /** Removing the dashes of a UUID leaves its 32 digits, in order. */
  lemma DashesGone(s: string)
    requires UuidPattern(s)
    ensures var h := s[..8] + s[9..13] + s[14..18] + s[19..23] + s[24..];
            RemoveDashes(s) == h && |h| == 32 && IsHex(h) && Dashed(h) == s
  {
    var a, b, c, d, e := s[..8], s[9..13], s[14..18], s[19..23], s[24..];
    var h := a + b + c + d + e;
    assert s == a + "-" + b + "-" + c + "-" + d + "-" + e;
    HexHasNoDashes(a);
    OneDash(a, b);
    OneDash(a + "-" + b, c);
    OneDash(a + "-" + b + "-" + c, d);
    OneDash(a + "-" + b + "-" + c + "-" + d, e);
    assert h[..8] == a && h[8..12] == b && h[12..16] == c && h[16..20] == d && h[20..] == e;
  }

  lemma DashedMatches(h: string)
    requires |h| == 32 && IsHex(h)
    ensures UuidPattern(Dashed(h)) && RemoveDashes(Dashed(h)) == h
  {
    var s := Dashed(h);
    assert s[..8] == h[..8] && s[9..13] == h[8..12] && s[14..18] == h[12..16] && s[19..23] == h[16..20] && s[24..] == h[20..];
    assert s[8] == s[13] == s[18] == s[23] == '-';
    DashesGone(s);
    assert h == h[..8] + h[8..12] + h[12..16] + h[16..20] + h[20..];
  }

  /** Every id survives the trip through its UUID. */
  lemma IdRoundTrip(id: nat)
    requires id < TWO128
    ensures IdToUuid(id).Some? && UuidToId(IdToUuid(id).value) == Some(id)
  {
    Sixteen();
    PaddedIsFixedWidth(id, 32);
    var ds := Nibbles(id, 32);
    TextParses(ds);
    DashedMatches(HexText(ds));
    NibblesHaveValue(id, 32);
  }

  /** Every accepted UUID comes back in lower case, from an id in range. */
  lemma UuidRoundTrip(s: string)
    requires UuidToId(s).Some?
    ensures UuidToId(s).value < TWO128 && IdToUuid(UuidToId(s).value) == Some(Lower(s))
  {
    Sixteen();
    DashesGone(s);
    var h := RemoveDashes(s);
    var ds := HexParse(h);
    ValueHasNibbles(ds);
    PaddedIsFixedWidth(Value16(ds), 32);
    ParsePrintsLower(h);
    LowerDashes(h);
  }

  lemma LowerDashes(h: string)
    requires |h| == 32
    ensures Dashed(Lower(h)) == Lower(Dashed(h))
  {
    var l := Lower(h);
    forall i | 0 <= i < 36
      ensures Dashed(l)[i] == LowerChar(Dashed(h)[i])
    {
    }
  }

  // ----- two words, and decimal text

  /** `(ident >> 64, ident & (2**64 - 1))`. */
  function Split(id: nat): (Word, Word)
    requires id < TWO128
  {
    (id / TWO64, id % TWO64)
  }

  /** `(high << 64) | low`. */
  function Join(high: Word, low: Word): nat {
    high * TWO64 + low
  }

  lemma SplitJoins(id: nat)
    requires id < TWO128
    ensures Join(Split(id).0, Split(id).1) == id
  {
  }

  lemma JoinSplits(high: Word, low: Word)
    ensures Join(high, low) < TWO128 && Split(Join(high, low)) == (high, low)
  {
  }

  /** Swift's full-width division traps unless the quotient fits a word. */
  function DivideFullWidth(divisor: Word, high: Word, low: Word): (r: (Word, Word))
    requires high < divisor
    ensures r.0 * divisor + r.1 == high * TWO64 + low && r.1 < divisor
  {
    var n := high * TWO64 + low;
    QuotientFits(divisor, high, low);
    (n / divisor, n % divisor)
  }

  lemma QuotientFits(divisor: Word, high: Word, low: Word)
    requires high < divisor
    ensures (high * TWO64 + low) / divisor < TWO64
  {
    var n := high * TWO64 + low;
    assert n < divisor * TWO64 by {
      assert high + 1 <= divisor;
      assert (high + 1) * TWO64 <= divisor * TWO64;
    }
    assert n == divisor * (n / divisor) + n % divisor;
    Cancel(divisor, n / divisor, TWO64);
  }

  lemma Cancel(d: nat, a: nat, b: nat)
    requires d * a < d * b
    ensures a < b
  {
    assert a >= b ==> d * a == d * b + d * (a - b);
  }

  function Reverse(s: seq<nat>): seq<nat> {
    if s == [] then [] else [s[|s| - 1]] + Reverse(s[..|s| - 1])
  }

  lemma DivideByTen(high: Word, low: Word)
    ensures var (q, r) := DivideFullWidth(10, high % 10, low);
            && Join(high / 10, q) == Join(high, low) / 10 && r == Join(high, low) % 10
  {
    var n := high % 10 * TWO64 + low;
    assert Join(high, low) == 10 * (high / 10 * TWO64) + n;
  }

  lemma ReversePush(s: seq<nat>, d: nat)
    ensures Reverse(s + [d]) == [d] + Reverse(s)
  {
    assert (s + [d])[..|s|] == s;
  }

  /** Moving the last digit of a numeral to the digits already printed. */
  lemma PeelDigit(n: nat, printed: seq<nat>)
    ensures n < 10 ==> Digits(n) + printed == [n % 10] + printed
    ensures n >= 10 ==> Digits(n) + printed == Digits(n / 10) + ([n % 10] + printed)
  {
    if n >= 10 {
      assert Digits(n / 10) + [n % 10] + printed == Digits(n / 10) + ([n % 10] + printed);
    }
  }

  /** The decimal text of the 128-bit value, produced a digit at a time; every
      full-width division is within its range. */
  method FullId(high: Word, low: Word) returns (text: seq<nat>)
    ensures text == Digits(Join(high, low))
  {
    var hi, lo, digits: seq<nat> := high, low, [];
    ghost var n := Digits(Join(high, low));
    var more := true;
    assert n + Reverse([]) == n;
    while more
      invariant n == if more then Digits(Join(hi, lo)) + Reverse(digits) else Reverse(digits)
      decreases more, Join(hi, lo)
    {
      DivideByTen(hi, lo);
      PeelDigit(Join(hi, lo), Reverse(digits));
      var headQuotient, headRemainder := hi / 10, hi % 10;
      var (tailQuotient, tailRemainder) := DivideFullWidth(10, headRemainder, lo);
      ReversePush(digits, tailRemainder);
      digits := digits + [tailRemainder];
      hi, lo := headQuotient, tailQuotient;
      more := hi != 0 || lo != 0;
    }
    text := Reverse(digits);
  }

  /** An id written as two words and printed from them is its own canonical
      decimal numeral, and only its own. */
  lemma IdSurvivesTheWords(id: nat, other: nat)
    requires id < TWO128 && other < TWO128
    ensures var text := Digits(Join(Split(id).0, Split(id).1));
            Canonical(text) && Value(text) == id && (text == Digits(Join(Split(other).0, Split(other).1)) ==> other == id)
  {
    SplitJoins(id);
    SplitJoins(other);
    DigitsHaveValue(id);
    DigitsHaveValue(other);
  }

  // ----- the digits of an id

  lemma {:induction false} NibbleAt(n: nat, k: nat, i: nat)
    requires i < k
    ensures Nibbles(n, k)[i] == n / Pow16(k - 1 - i) % 16
    decreases k
  {
    if i < k - 1 {
      NibbleAt(n / 16, k - 1, i);
      DivideTwice(n, 16, Pow16(k - 2 - i));
    }
  }

  /** Where digit `i` of 32 stands in the text. */
  function Place(i: nat): nat {
    if i < 8 then i else if i < 12 then i + 1 else if i < 16 then i + 2 else if i < 20 then i + 3 else i + 4
  }

  lemma DashedAt(h: string, i: nat)
    requires |h| == 32 && i < 32
    ensures |Dashed(h)| == 36 && Dashed(h)[Place(i)] == h[i]
  {
  }

  /** The UUID of an id is its hexadecimal numeral, most significant digit
      first, in lower case. */
  lemma UuidIsBigEndian(id: nat, i: nat)
    requires id < TWO128 && i < 32
    ensures IdToUuid(id).Some? && |IdToUuid(id).value| == 36
    ensures IdToUuid(id).value[Place(i)] == LOWER[id / Pow16(31 - i) % 16]
  {
    Sixteen();
    PaddedIsFixedWidth(id, 32);
    NibbleAt(id, 32, i);
    DashedAt(HexText(Nibbles(id, 32)), i);
  }

  /** The id of an accepted string has the digits it shows. */
  lemma IdIsBigEndian(s: string, i: nat)
    requires UuidToId(s).Some? && i < 32
    ensures |s| == 36 && LowerChar(s[Place(i)]) == LOWER[UuidToId(s).value / Pow16(31 - i) % 16]
  {
    UuidRoundTrip(s);
    UuidIsBigEndian(UuidToId(s).value, i);
  }

  const HEX := "0123456789abcdefABCDEF"

  /** A string is accepted exactly if it has 36 characters, dashes at 8, 13, 18
      and 23 and hexadecimal digits of either case elsewhere. */
  lemma AcceptedIffUuid(s: string)
    ensures UuidToId(s).Some?
            <==> |s| == 36 && forall i :: 0 <= i < 36 ==> if i in {8, 13, 18, 23} then s[i] == '-' else s[i] in HEX
  {
    forall c
      ensures HexValue(c).Some? <==> c in HEX
    {
      HexDigits16(c);
    }
    if |s| == 36 {
      PartsAreHex(s);
    }
  }

  lemma HexDigits16(c: char)
    ensures HexValue(c).Some? <==> c in HEX
  {
    if HexValue(c).Some? {
      var v := HexValue(c).value;
      assert HEX[v] == c || HEX[v + 6] == c;
    }
  }

  lemma PartsAreHex(s: string)
    requires |s| == 36
    ensures (IsHex(s[..8]) && IsHex(s[9..13]) && IsHex(s[14..18]) && IsHex(s[19..23]) && IsHex(s[24..]))
            <==> forall i :: 0 <= i < 36 && i !in {8, 13, 18, 23} ==> HexValue(s[i]).Some?
  {
    assert IsHex(s[..8]) <==> forall i :: 0 <= i < 8 ==> HexValue(s[i]).Some?;
    PartIsHex(s, 9, 13);
    PartIsHex(s, 14, 18);
    PartIsHex(s, 19, 23);
    PartIsHex(s, 24, 36);
    assert s[24..] == s[24..36];
  }

  lemma PartIsHex(s: string, a: nat, b: nat)
    requires a <= b <= |s|
    ensures IsHex(s[a..b]) <==> forall i :: a <= i < b ==> HexValue(s[i]).Some?
  {
    if IsHex(s[a..b]) {
      forall i | a <= i < b
        ensures HexValue(s[i]).Some?
      {
        assert s[a..b][i - a] == s[i];
      }
    }
  }
}
