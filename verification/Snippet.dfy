/** Snippet highlights of the Node addon: the engine's UTF-8 byte ranges are
    turned into UTF-16 ranges with one cursor that only moves forward. */
module Snippet {
  import opened Prelude
  import opened Bytes
  import opened Unicode

  const UINT32: nat := 0x1_0000_0000

  datatype Highlight = Highlight(start: nat, end: nat)

  // ----- counting code units byte by byte

  /** A continuation byte adds nothing; a four-byte lead adds a pair. */
  function Weight(b: Byte): nat {
    if b / 0x40 == 2 then 0 else if b >= 0xF0 then 2 else 1
  }

  function Units(text: seq<Byte>): nat {
    if text == [] then 0 else Units(text[..|text| - 1]) + Weight(text[|text| - 1])
  }

  lemma {:induction false} UnitsConcat(a: seq<Byte>, b: seq<Byte>)
    ensures Units(a + b) == Units(a) + Units(b)
    decreases |b|
  {
    if b == [] {
      assert a + b == a;
    } else {
      UnitsConcat(a, b[..|b| - 1]);
      assert (a + b)[..|a + b| - 1] == a + b[..|b| - 1];
    }
  }

  lemma UnitsOfPrefix(text: seq<Byte>, i: nat, j: nat)
    requires i <= j <= |text|
    ensures Units(text[..j]) == Units(text[..i]) + Units(text[i..j])
  {
    assert text[..j] == text[..i] + text[i..j];
    UnitsConcat(text[..i], text[i..j]);
  }

  lemma UnitsOfScalar(v: Scalar)
    ensures Units(Encode8(v)) == |Encode16(v)|
  {
    var e := Encode8(v);
    LeadByte(v);
    assert e[..1] == [e[0]] && [e[0]][..0] == [];
    assert Units(e[..1]) == Weight(e[0]);
    if |e| >= 2 {
      assert e[..2][..1] == e[..1];
      assert Units(e[..2]) == Weight(e[0]);
    }
    if |e| >= 3 {
      assert e[..3][..2] == e[..2];
      assert Units(e[..3]) == Weight(e[0]);
    }
    assert e[..|e|] == e;
  }

  /** Counting over valid UTF-8 gives the length of the UTF-16 form. */
  lemma {:induction false} UnitsCountCodeUnits(s: seq<Scalar>)
    ensures Units(Utf8(s)) == |Utf16(s)|
  {
    if s != [] {
      UnitsCountCodeUnits(s[..|s| - 1]);
      UnitsConcat(Utf8(s[..|s| - 1]), Encode8(s[|s| - 1]));
      UnitsOfScalar(s[|s| - 1]);
    }
  }

  // ----- the cursor

  class Cursor {
    var bytes: nat
    var units: nat

    constructor ()
      ensures bytes == 0 && units == 0
    {
      bytes, units := 0, 0;
    }

    /** Fails, moving nothing, exactly when the offset lies behind the cursor
        or outside the excerpt. */
    method Advance(text: seq<Byte>, offset: nat) returns (ok: bool)
      requires bytes <= |text| && units < UINT32
      modifies this
      ensures ok <==> old(bytes) <= offset <= |text|
      ensures !ok ==> bytes == old(bytes) && units == old(units)
      ensures ok ==> bytes == offset && units == (old(units) + Units(text[old(bytes)..offset])) % UINT32
    {
      if offset < bytes || offset > |text| {
        return false;
      }
      var from := bytes;
      for index := from to offset
        invariant units == (old(units) + Units(text[from..index])) % UINT32
        invariant bytes == old(bytes)
      {
        var byte := text[index];
        assert text[from..index + 1][..index - from] == text[from..index];
        assert Units(text[from..index + 1]) == Units(text[from..index]) + Weight(byte);
        AddModulo(old(units) + Units(text[from..index]), Weight(byte));
        if byte / 0x40 != 2 {
          units := (units + if byte >= 0xF0 then 2 else 1) % UINT32;
        }
      }
      bytes := offset;
      return true;
    }

    /** One turn of the highlight loop: advance to the start, then to the end. */
    method Take(text: seq<Byte>, range: Highlight) returns (r: Option<Highlight>)
      requires bytes <= |text| && units == Converted(text, bytes)
      modifies this
      ensures r.Some? <==> old(bytes) <= range.start <= range.end <= |text|
      ensures r.Some? ==> bytes == range.end && units == Converted(text, range.end)
      ensures r.Some? ==> r.value == Highlight(Converted(text, range.start), Converted(text, range.end))
    {
      ghost var before := bytes;
      var ok := Advance(text, range.start);
      if !ok {
        return None;
      }
      ConvertedFrom(text, before, range.start);
      var start := units;
      ok := Advance(text, range.end);
      if !ok {
        return None;
      }
      ConvertedFrom(text, range.start, range.end);
      return Some(Highlight(start, units));
    }
  }

  lemma AddModulo(a: nat, b: nat)
    ensures (a % UINT32 + b) % UINT32 == (a + b) % UINT32
  {
    assert a == UINT32 * (a / UINT32) + a % UINT32;
  }

  /** Where the cursor stands before the `i`-th range. */
  function Previous(ranges: seq<Highlight>, i: nat): nat
    requires i <= |ranges|
  {
    if i == 0 then 0 else ranges[i - 1].end
  }

  predicate InOrder(ranges: seq<Highlight>, i: nat, length: nat)
    requires i < |ranges|
  {
    Previous(ranges, i) <= ranges[i].start <= ranges[i].end <= length
  }

  predicate Ascending(ranges: seq<Highlight>, length: nat) {
    forall i :: 0 <= i < |ranges| ==> InOrder(ranges, i, length)
  }

  function Converted(text: seq<Byte>, offset: nat): nat
    requires offset <= |text|
  {
    Units(text[..offset]) % UINT32
  }

  lemma ConvertedFrom(text: seq<Byte>, i: nat, j: nat)
    requires i <= j <= |text|
    ensures (Converted(text, i) + Units(text[i..j])) % UINT32 == Converted(text, j)
  {
    UnitsOfPrefix(text, i, j);
    AddModulo(Units(text[..i]), Units(text[i..j]));
  }

  predicate Converts(text: seq<Byte>, range: Highlight, out: Highlight) {
    range.start <= |text| && range.end <= |text| && out == Highlight(Converted(text, range.start), Converted(text, range.end))
  }

  /** Converts all highlights, or fails exactly when some range goes backwards
      or leaves the excerpt. The running count does not depend on the route. */
  method ConvertHighlights(text: seq<Byte>, ranges: seq<Highlight>) returns (r: Option<seq<Highlight>>)
    ensures r.Some? <==> Ascending(ranges, |text|)
    ensures r.Some? ==> |r.value| == |ranges|
    ensures r.Some? ==> forall i :: 0 <= i < |ranges| ==> Converts(text, ranges[i], r.value[i])
  {
    var cursor := new Cursor();
    var out: seq<Highlight> := [];
    for i := 0 to |ranges|
      invariant fresh(cursor) && |out| == i
      invariant cursor.bytes == Previous(ranges, i) <= |text|
      invariant cursor.units == Converted(text, cursor.bytes)
      invariant forall j :: 0 <= j < i ==> InOrder(ranges, j, |text|)
      invariant forall j :: 0 <= j < i ==> Converts(text, ranges[j], out[j])
    {
      var highlight := cursor.Take(text, ranges[i]);
      if highlight.None? {
        assert !InOrder(ranges, i, |text|);
        return None;
      }
      out := out + [highlight.value];
    }
    return Some(out);
  }

  // ----- what the converted ranges mean in JavaScript

  /** Offset `b` falls between two characters of `s`, after `n` of them. */
  ghost predicate Boundary(s: seq<Scalar>, b: nat, n: nat) {
    n <= |s| && b == |Utf8(s[..n])|
  }

  lemma SplitText(s: seq<Scalar>, n: nat)
    requires n <= |s|
    ensures Utf8(s) == Utf8(s[..n]) + Utf8(s[n..])
    ensures Utf16(s) == Utf16(s[..n]) + Utf16(s[n..])
  {
    assert s == s[..n] + s[n..];
    Utf8Concat(s[..n], s[n..]);
    Utf16Concat(s[..n], s[n..]);
  }

  lemma PrefixTaken<T>(a: seq<T>, b: seq<T>)
    ensures (a + b)[..|a|] == a && |a + b| == |a| + |b|
  {
  }

  lemma SmallIsItself(n: nat)
    requires n < UINT32
    ensures n % UINT32 == n
  {
  }

  lemma BoundaryConverts(s: seq<Scalar>, b: nat, n: nat)
    requires Boundary(s, b, n) && |Utf16(s)| < UINT32
    ensures b <= |Utf8(s)| && Converted(Utf8(s), b) == |Utf16(s[..n])| <= |Utf16(s)|
  {
    SplitText(s, n);
    PrefixTaken(Utf8(s[..n]), Utf8(s[n..]));
    PrefixTaken(Utf16(s[..n]), Utf16(s[n..]));
    UnitsCountCodeUnits(s[..n]);
    SmallIsItself(|Utf16(s[..n])|);
  }

  lemma {:induction false} BoundariesOrdered(s: seq<Scalar>, m: nat, n: nat)
    requires m <= n <= |s|
    ensures |Utf8(s[..m])| + (n - m) <= |Utf8(s[..n])|
    decreases n
  {
    if m < n {
      BoundariesOrdered(s, m, n - 1);
      assert s[..n][..n - 1] == s[..n - 1];
    }
  }

  lemma MiddleTaken<T>(a: seq<T>, m: seq<T>, b: seq<T>)
    ensures (a + m + b)[|a|..|a + m|] == m
  {
  }

  /** Two boundaries cut the same characters out of both encodings. */
  lemma CutOut(s: seq<Scalar>, m: nat, n: nat)
    requires m <= n <= |s|
    ensures |Utf8(s[..m])| <= |Utf8(s[..n])| <= |Utf8(s)| && |Utf16(s[..m])| <= |Utf16(s[..n])| <= |Utf16(s)|
    ensures Utf8(s)[|Utf8(s[..m])|..|Utf8(s[..n])|] == Utf8(s[m..n])
    ensures Utf16(s)[|Utf16(s[..m])|..|Utf16(s[..n])|] == Utf16(s[m..n])
  {
    assert s[..n] == s[..m] + s[m..n];
    Utf8Concat(s[..m], s[m..n]);
    Utf16Concat(s[..m], s[m..n]);
    SplitText(s, n);
    MiddleTaken(Utf8(s[..m]), Utf8(s[m..n]), Utf8(s[n..]));
    MiddleTaken(Utf16(s[..m]), Utf16(s[m..n]), Utf16(s[n..]));
  }

  /** The highlighted slice of the JavaScript string is the UTF-16 form of the
      text whose UTF-8 form is the highlighted byte slice. */
  lemma HighlightIsTheSameText(s: seq<Scalar>, start: nat, end: nat, m: nat, n: nat, part: seq<Scalar>)
    requires |Utf16(s)| < UINT32 && start <= end
    requires Boundary(s, start, m) && Boundary(s, end, n)
    ensures m <= n && end <= |Utf8(s)|
    ensures Converted(Utf8(s), start) <= Converted(Utf8(s), end) <= |Utf16(s)|
    ensures Utf8(part) == Utf8(s)[start..end] ==>
              Utf16(s)[Converted(Utf8(s), start)..Converted(Utf8(s), end)] == Utf16(part)
  {
    if n < m {
      BoundariesOrdered(s, n, m);
    }
    BoundaryConverts(s, start, m);
    BoundaryConverts(s, end, n);
    CutOut(s, m, n);
    if Utf8(part) == Utf8(s)[start..end] {
      Utf8Injective(part, s[m..n]);
    }
  }

  /** Read back from the result: a converted highlight cuts out of the
      JavaScript string exactly the text its byte range cuts out of the excerpt. */
  lemma ConvertedHighlightsAreExact(s: seq<Scalar>, range: Highlight, out: Highlight, m: nat, n: nat, part: seq<Scalar>)
    requires Converts(Utf8(s), range, out) && range.start <= range.end && |Utf16(s)| < UINT32
    requires Boundary(s, range.start, m) && Boundary(s, range.end, n)
    requires Utf8(part) == Utf8(s)[range.start..range.end]
    ensures out.start <= out.end <= |Utf16(s)| && Utf16(s)[out.start..out.end] == Utf16(part)
  {
    HighlightIsTheSameText(s, range.start, range.end, m, n, part);
  }

  /** A character boundary is visible in the bytes: the end of the excerpt, or
      a byte that is not a continuation byte. */
  lemma {:induction false} BoundaryIsVisible(s: seq<Scalar>, b: nat)
    requires b <= |Utf8(s)|
    ensures (exists n: nat :: Boundary(s, b, n)) <==> (b == |Utf8(s)| || Utf8(s)[b] / 0x40 != 2)
  {
    if s == [] {
      assert Boundary(s, 0, 0);
    } else {
      var init, e := s[..|s| - 1], Encode8(s[|s| - 1]);
      LeadByte(s[|s| - 1]);
      assert Utf8(s) == Utf8(init) + e;
      if b < |Utf8(init)| {
        BoundaryIsVisible(init, b);
        assert Utf8(s)[b] == Utf8(init)[b];
        if exists n: nat :: Boundary(init, b, n) {
          var n: nat :| Boundary(init, b, n);
          assert s[..n] == init[..n];
          assert Boundary(s, b, n);
        }
        if exists n: nat :: Boundary(s, b, n) {
          var n: nat :| Boundary(s, b, n);
          BoundaryInFront(s, b, n);
        }
      } else if b == |Utf8(init)| {
        assert Boundary(s, b, |s| - 1);
        assert Utf8(s)[b] == e[0];
      } else if b == |Utf8(s)| {
        assert s[..|s|] == s;
        assert Boundary(s, b, |s|);
      } else {
        assert Utf8(s)[b] == e[b - |Utf8(init)|];
        if exists n: nat :: Boundary(s, b, n) {
          var n: nat :| Boundary(s, b, n);
          InteriorIsNoBoundary(s, b, n);
        }
      }
    }
  }

  lemma BoundaryInFront(s: seq<Scalar>, b: nat, n: nat)
    requires s != [] && Boundary(s, b, n) && b < |Utf8(s[..|s| - 1])|
    ensures Boundary(s[..|s| - 1], b, n)
  {
    assert s[..|s|] == s;
    assert n < |s|;
    assert s[..n] == s[..|s| - 1][..n];
  }

  lemma InteriorIsNoBoundary(s: seq<Scalar>, b: nat, n: nat)
    requires s != [] && |Utf8(s[..|s| - 1])| < b < |Utf8(s)|
    ensures !Boundary(s, b, n)
  {
    if n < |s| {
      BoundariesOrdered(s, n, |s| - 1);
    } else if n == |s| {
      assert s[..n] == s;
    }
  }
}
