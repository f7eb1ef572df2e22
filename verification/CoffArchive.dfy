/** The member walk and name resolution of `clean_coff_archive`: a regular
    archive is a magic line followed by members, each a 60-byte header, a body
    and, after an odd body, one pad byte (Microsoft PE Format, Archive
    (Library) File Format). */
module CoffArchive {
  import opened Prelude
  import opened Bytes
  import opened Decimal

  type Text = seq<Byte>

  const MAGIC: Text := [0x21, 0x3C, 0x61, 0x72, 0x63, 0x68, 0x3E, 0x0A]
  const HEADER: nat := 60
  const END_MARK: Text := [0x60, 0x0A]
  const LONG_NAMES: Text := [0x2F, 0x2F]
  const INDEX: Text := [0x2F]
  const INDEX64: Text := [0x2F, 0x53, 0x59, 0x4D, 0x36, 0x34, 0x2F]

  datatype Member = Member(name: Text, body: Text)

  // ----- Python's int() and strip()

  /** White space for `int(bytes)`, and for `str.strip` when `wide`. */
  predicate Blank(b: Byte, wide: bool) {
    9 <= b <= 13 || b == 32 || (wide && 28 <= b <= 31)
  }

  function StripLeft(s: Text, wide: bool): Text {
    if s != [] && Blank(s[0], wide) then StripLeft(s[1..], wide) else s
  }

  function StripRight(s: Text, wide: bool): Text {
    if s != [] && Blank(s[|s| - 1], wide) then StripRight(s[..|s| - 1], wide) else s
  }

  function Strip(s: Text, wide: bool): Text {
    StripRight(StripLeft(s, wide), wide)
  }

  /** Digits, single underscores allowed between two of them. */
  function ParseDigits(s: Text): Option<nat>
    decreases |s|
  {
    var n := |s|;
    if n == 0 || !(48 <= s[n - 1] <= 57) then None
    else if n == 1 then Some(s[0] - 48)
    else
      match ParseDigits(if s[n - 2] == 0x5F then s[..n - 2] else s[..n - 1])
      case None => None
      case Some(v) => Some(10 * v + s[n - 1] - 48)
  }

  function ParseInt(s: Text, wide: bool): Option<int> {
    var t := Strip(s, wide);
    if t != [] && (t[0] == 0x2B || t[0] == 0x2D) then
      match ParseDigits(t[1..])
      case None => None
      case Some(v) => Some(if t[0] == 0x2D then 0 - (v as int) else v as int)
    else
      match ParseDigits(t)
      case None => None
      case Some(v) => Some(v)
  }

  // ----- reading one member

  predicate Ascii(s: Text) {
    forall i :: 0 <= i < |s| ==> s[i] < 0x80
  }

  /** The size a readable header at `offset` declares. */
  function SizeAt(data: Text, offset: nat): Option<nat> {
    if offset + HEADER > |data| || data[offset + 58..offset + 60] != END_MARK then None
    else
      match ParseInt(data[offset + 48..offset + 58], false)
      case None => None
      case Some(size) =>
        if size < 0 || offset + HEADER + size > |data| || !Ascii(data[offset..offset + 16]) then None else Some(size)
  }

  function MemberAt(data: Text, offset: nat): Member
    requires SizeAt(data, offset).Some?
  {
    var size := SizeAt(data, offset).value;
    Member(Strip(data[offset..offset + 16], true), data[offset + HEADER..offset + HEADER + size])
  }

  function After(data: Text, offset: nat): nat
    requires SizeAt(data, offset).Some?
  {
    var size := SizeAt(data, offset).value;
    offset + HEADER + size + size % 2
  }

  /** All members from `offset` on, if they end exactly at the end of data. */
  function Members(data: Text, offset: nat): Option<seq<Member>>
    decreases |data| - offset
  {
    if offset >= |data| then (if offset == |data| then Some([]) else None)
    else if SizeAt(data, offset).None? then None
    else
      match Members(data, After(data, offset))
      case None => None
      case Some(ms) => Some([MemberAt(data, offset)] + ms)
  }

  predicate IsEntry(m: Member) {
    m.name != LONG_NAMES && m.name != INDEX && m.name != INDEX64
  }

  function Entries(ms: seq<Member>): seq<Member> {
    if ms == [] then [] else Entries(ms[..|ms| - 1]) + (if IsEntry(ms[|ms| - 1]) then [ms[|ms| - 1]] else [])
  }

  /** The last long-name table. */
  function NameTable(ms: seq<Member>): Text {
    if ms == [] then [] else if ms[|ms| - 1].name == LONG_NAMES then ms[|ms| - 1].body else NameTable(ms[..|ms| - 1])
  }

  // ----- the walk

  /** The checks of one turn of the loop, in order. */
  method ReadMember(data: Text, offset: nat) returns (m: Option<Member>, next: nat)
    requires offset < |data|
    ensures m.Some? <==> SizeAt(data, offset).Some?
    ensures m.Some? ==> m.value == MemberAt(data, offset) && next == After(data, offset)
  {
    next := offset;
    var header := data[offset..if offset + HEADER <= |data| then offset + HEADER else |data|];
    if |header| != HEADER {
      return None, next;
    }
    assert data[offset + 58..offset + 60] == header[58..];
    assert data[offset + 48..offset + 58] == header[48..58];
    assert data[offset..offset + 16] == header[..16];
    if header[58..] != END_MARK {
      return None, next;
    }
    var size := ParseInt(header[48..58], false);
    if size.None? || size.value < 0 || offset + HEADER + size.value > |data| || !Ascii(header[..16]) {
      return None, next;
    }
    var end := offset + HEADER + size.value;
    m := Some(Member(Strip(header[..16], true), data[offset + HEADER..end]));
    next := end + size.value % 2;
  }

  datatype Walked = Walked(entries: seq<Member>, names: Text)

  /** An archive is accepted if its members end exactly at the end of the file
      and include an entry; index members are dropped, order, duplicate names
      and bodies are kept. */
  function WalkOf(data: Text): Option<Walked> {
    if !(MAGIC <= data) then None
    else
      match Members(data, 8)
      case None => None
      case Some(ms) => if Entries(ms) == [] then None else Some(Walked(Entries(ms), NameTable(ms)))
  }

  method Walk(data: Text) returns (r: Option<Walked>)
    ensures r == WalkOf(data)
  {
    if !(MAGIC <= data) {
      return None;
    }
    var entries: seq<Member>, names: Text, offset := [], [], 8;
    ghost var done: seq<Member> := [];
    assert Members(data, 8) == Resumed(done, Members(data, 8)) by {
      ResumedNothing(Members(data, 8));
    }
    while offset < |data|
      invariant entries == Entries(done) && names == NameTable(done)
      invariant Members(data, 8) == Resumed(done, Members(data, offset))
      decreases |data| - offset
    {
      var m, next := ReadMember(data, offset);
      if m.None? {
        return None;
      }
      ReadOn(data, offset, done);
      OneMore(done, m.value);
      offset := next;
      if m.value.name == LONG_NAMES {
        names := m.value.body;
      } else if m.value.name != INDEX && m.value.name != INDEX64 {
        entries := entries + [m.value];
      }
      done := done + [m.value];
    }
    assert done + [] == done;
    if offset != |data| || entries == [] {
      return None;
    }
    r := Some(Walked(entries, names));
  }

  ghost function Resumed(done: seq<Member>, rest: Option<seq<Member>>): Option<seq<Member>> {
    match rest
    case None => None
    case Some(ms) => Some(done + ms)
  }

  lemma ResumedNothing(rest: Option<seq<Member>>)
    ensures Resumed([], rest) == rest
  {
    assert rest.Some? ==> [] + rest.value == rest.value;
  }

  lemma ReadOn(data: Text, offset: nat, done: seq<Member>)
    requires offset < |data| && SizeAt(data, offset).Some?
    ensures Resumed(done, Members(data, offset)) == Resumed(done + [MemberAt(data, offset)], Members(data, After(data, offset)))
  {
    var m, rest := MemberAt(data, offset), Members(data, After(data, offset));
    if rest.Some? {
      assert done + ([m] + rest.value) == (done + [m]) + rest.value;
    }
  }

  lemma OneMore(done: seq<Member>, m: Member)
    ensures Entries(done + [m]) == Entries(done) + (if IsEntry(m) then [m] else [])
    ensures NameTable(done + [m]) == if m.name == LONG_NAMES then m.body else NameTable(done)
  {
    assert (done + [m])[..|done|] == done;
  }

  // ----- what acceptance says about the bytes

  /** The bytes at `offset` are the header and body of `m`. */
  predicate Holds(data: Text, offset: nat, m: Member) {
    && offset + HEADER + |m.body| <= |data|
    && data[offset + 58..offset + 60] == END_MARK
    && ParseInt(data[offset + 48..offset + 58], false) == Some(|m.body|)
    && Strip(data[offset..offset + 16], true) == m.name
    && data[offset + HEADER..offset + HEADER + |m.body|] == m.body
  }

  /** The bytes from `offset` on are exactly these members, one after the other,
      with one pad byte after an odd body. */
  predicate Tiles(data: Text, offset: nat, ms: seq<Member>)
    decreases |ms|
  {
    if ms == [] then offset == |data|
    else Holds(data, offset, ms[0]) && Tiles(data, offset + HEADER + |ms[0].body| + |ms[0].body| % 2, ms[1..])
  }

  lemma MemberHeld(data: Text, offset: nat)
    requires SizeAt(data, offset).Some?
    ensures Holds(data, offset, MemberAt(data, offset))
    ensures After(data, offset) == offset + HEADER + |MemberAt(data, offset).body| + |MemberAt(data, offset).body| % 2
  {
  }

  /** An accepted archive has no gap, no overlap and nothing left over. */
  lemma {:induction false} AcceptedIsTiled(data: Text, offset: nat)
    requires offset <= |data| && Members(data, offset).Some?
    ensures Tiles(data, offset, Members(data, offset).value)
    decreases |data| - offset
  {
    if offset < |data| {
      var next, m := After(data, offset), MemberAt(data, offset);
      MemberHeld(data, offset);
      assert Members(data, next).Some?;
      AcceptedIsTiled(data, next);
      assert ([m] + Members(data, next).value)[1..] == Members(data, next).value;
    }
  }

  // ----- writing an archive

  /** A member with the header fields the walk ignores. */
  datatype Source = Source(member: Member, stamp: Text, pad: Byte)

  function Spaces(n: nat): (r: Text)
    ensures |r| == n && forall i :: 0 <= i < n ==> r[i] == 32
  {
    seq(n, _ => 32)
  }

  function Numeral(n: nat): (r: Text)
    ensures |r| == |Digits(n)| && forall i :: 0 <= i < |r| ==> 48 <= r[i] <= 57
  {
    seq(|Digits(n)|, i requires 0 <= i < |Digits(n)| => Digits(n)[i] + 48)
  }

  predicate Trimmed(s: Text) {
    s == [] || (!Blank(s[0], true) && !Blank(s[|s| - 1], true))
  }

  /** What the archive format can express in a header. */
  predicate Writable(m: Source) {
    && |m.member.name| <= 16 && Ascii(m.member.name) && Trimmed(m.member.name)
    && |m.stamp| == 32 && |m.member.body| < Pow10(10)
  }

  function Header(m: Source): (r: Text)
    requires Writable(m)
    ensures |r| == HEADER
  {
    DigitsFit(|m.member.body|, 10);
    var size := Numeral(|m.member.body|);
    m.member.name + Spaces(16 - |m.member.name|) + m.stamp + (size + Spaces(10 - |size|)) + END_MARK
  }

  function Block(m: Source): Text
    requires Writable(m)
  {
    Header(m) + m.member.body + (if |m.member.body| % 2 == 1 then [m.pad] else [])
  }

  function Blocks(ms: seq<Source>): Text
    requires forall m :: m in ms ==> Writable(m)
  {
    if ms == [] then [] else Block(ms[0]) + Blocks(ms[1..])
  }

  function Bare(ms: seq<Source>): seq<Member> {
    if ms == [] then [] else [ms[0].member] + Bare(ms[1..])
  }

  // ----- reading back what was written

  lemma {:induction false} StripRightPadding(s: Text, n: nat, wide: bool)
    requires s == [] || !Blank(s[|s| - 1], wide)
    ensures StripRight(s + Spaces(n), wide) == s
  {
    if n == 0 {
      assert s + Spaces(0) == s;
    } else {
      assert (s + Spaces(n))[..|s| + n - 1] == s + Spaces(n - 1);
      StripRightPadding(s, n - 1, wide);
    }
  }

  lemma {:induction false} StripBlanks(n: nat, wide: bool)
    ensures StripLeft(Spaces(n), wide) == []
  {
    if n > 0 {
      assert Spaces(n)[1..] == Spaces(n - 1);
      StripBlanks(n - 1, wide);
    }
  }

  lemma PaddedStrips(s: Text, n: nat)
    requires Trimmed(s)
    ensures Strip(s + Spaces(n), true) == s
  {
    if s == [] {
      assert s + Spaces(n) == Spaces(n);
      StripBlanks(n, true);
    } else {
      assert (s + Spaces(n))[0] == s[0];
      StripRightPadding(s, n, true);
    }
  }

  lemma {:induction false} NumeralParses(n: nat)
    ensures ParseDigits(Numeral(n)) == Some(n)
  {
    var t := Numeral(n);
    if n >= 10 {
      NumeralParses(n / 10);
      assert t[..|t| - 1] == Numeral(n / 10);
    }
  }

  lemma PaddedNumeralParses(n: nat, k: nat)
    ensures ParseInt(Numeral(n) + Spaces(k), false) == Some(n)
  {
    var t := Numeral(n);
    assert (t + Spaces(k))[0] == t[0];
    StripRightPadding(t, k, false);
    NumeralParses(n);
  }

  lemma StripKeeps(s: Text, wide: bool)
    requires s != [] && !Blank(s[0], wide) && !Blank(s[|s| - 1], wide)
    ensures Strip(s, wide) == s
  {
  }

  /** Python's `int` takes a sign. */
  lemma SignedNumeralParses(sign: Byte, n: nat)
    requires sign == 0x2D || sign == 0x2B
    ensures ParseInt([sign] + Numeral(n), false) == Some(if sign == 0x2D then -(n as int) else n as int)
  {
    var t := [sign] + Numeral(n);
    assert t[|t| - 1] == Numeral(n)[|Numeral(n)| - 1];
    StripKeeps(t, false);
    assert t[1..] == Numeral(n);
    NumeralParses(n);
  }

  lemma HeaderFields(m: Source)
    requires Writable(m)
    ensures var h := Header(m);
            && h[58..60] == END_MARK
            && ParseInt(h[48..58], false) == Some(|m.member.body|)
            && Ascii(h[..16]) && Strip(h[..16], true) == m.member.name
  {
    var h, name := Header(m), m.member.name;
    DigitsFit(|m.member.body|, 10);
    var size := Numeral(|m.member.body|);
    assert h[..16] == name + Spaces(16 - |name|);
    assert h[48..58] == size + Spaces(10 - |size|);
    assert h[58..60] == END_MARK;
    PaddedStrips(name, 16 - |name|);
    PaddedNumeralParses(|m.member.body|, 10 - |size|);
  }

  lemma SliceInside(front: Text, x: Text, rest: Text, i: nat, j: nat)
    requires i <= j <= |x|
    ensures (front + x + rest)[|front| + i..|front| + j] == x[i..j]
  {
  }

  lemma BlockSlices(front: Text, m: Source, rest: Text)
    requires Writable(m)
    ensures var data, h, at, n := front + Block(m) + rest, Header(m), |front|, |m.member.body|;
            && at + HEADER + n <= |data|
            && data[at + 58..at + 60] == h[58..60] && data[at + 48..at + 58] == h[48..58] && data[at..at + 16] == h[..16]
            && data[at + HEADER..at + HEADER + n] == m.member.body
  {
    var b, h, body := Block(m), Header(m), m.member.body;
    assert b[58..60] == h[58..60] && b[48..58] == h[48..58] && b[0..16] == h[..16];
    assert b[HEADER..HEADER + |body|] == body;
    SliceInside(front, b, rest, 58, 60);
    SliceInside(front, b, rest, 48, 58);
    SliceInside(front, b, rest, 0, 16);
    SliceInside(front, b, rest, HEADER, HEADER + |body|);
  }

  lemma BlockReads(front: Text, m: Source, rest: Text)
    requires Writable(m)
    ensures var data := front + Block(m) + rest;
            && SizeAt(data, |front|) == Some(|m.member.body|)
            && MemberAt(data, |front|) == m.member && After(data, |front|) == |front + Block(m)|
  {
    HeaderFields(m);
    BlockSlices(front, m, rest);
  }

  lemma {:induction false} BlocksRead(front: Text, ms: seq<Source>)
    requires forall m :: m in ms ==> Writable(m)
    ensures Members(front + Blocks(ms), |front|) == Some(Bare(ms))
    decreases |ms|
  {
    if ms == [] {
      assert front + Blocks(ms) == front;
    } else {
      var b, rest := Block(ms[0]), Blocks(ms[1..]);
      assert front + Blocks(ms) == front + b + rest;
      BlockReads(front, ms[0], rest);
      BlocksRead(front + b, ms[1..]);
    }
  }

  /** Walking a written archive gives back its entries and its name table: names
      trimmed, bodies byte for byte, order and duplicates kept. */
  lemma WrittenArchiveReadsBack(ms: seq<Source>)
    requires forall m :: m in ms ==> Writable(m)
    ensures WalkOf(MAGIC + Blocks(ms))
            == if Entries(Bare(ms)) == [] then None else Some(Walked(Entries(Bare(ms)), NameTable(Bare(ms))))
  {
    BlocksRead(MAGIC, ms);
  }

  // ----- member names

  const SLASH: Byte := 0x2F

  /** The long name at the start of `s`: up to a NUL or a slash and newline. */
  function UpToEnd(s: Text): Text {
    if s == [] || s[0] == 0 || (|s| >= 2 && s[0] == SLASH && s[1] == 0x0A) then [] else [s[0]] + UpToEnd(s[1..])
  }

  /** What follows the last slash or backslash. */
  function Basename(s: Text): Text {
    if s == [] then []
    else if s[|s| - 1] == SLASH || s[|s| - 1] == 0x5C then []
    else Basename(s[..|s| - 1]) + [s[|s| - 1]]
  }

  predicate PlainName(s: Text) {
    s != [] && s != [0x2E] && s != [0x2E, 0x2E] && 0x3A !in s
  }

  /** The label of an entry, or None when the archive is refused. */
  function Label(name: Text, names: Text): Option<Text> {
    if name != [] && name[0] == SLASH then
      match ParseInt(name[1..], true)
      case None => None
      case Some(start) => if 0 <= start < |names| then Checked(UpToEnd(names[start..])) else None
    else Checked(if name != [] && name[|name| - 1] == SLASH then name[..|name| - 1] else name)
  }

  function Checked(name: Text): Option<Text> {
    if PlainName(Basename(name)) then Some(Basename(name)) else None
  }

  lemma {:induction false} BasenameHasNoSeparator(s: Text)
    ensures SLASH !in Basename(s) && 0x5C !in Basename(s)
  {
    if s != [] {
      BasenameHasNoSeparator(s[..|s| - 1]);
    }
  }

  /** The basename is what stands behind the last separator, or the whole name. */
  lemma {:induction false} BasenameIsLastComponent(s: Text)
    ensures |Basename(s)| <= |s| && Basename(s) == s[|s| - |Basename(s)|..]
    ensures var n := |s| - |Basename(s)|; n > 0 ==> s[n - 1] == SLASH || s[n - 1] == 0x5C
  {
    if s != [] && s[|s| - 1] != SLASH && s[|s| - 1] != 0x5C {
      var init := s[..|s| - 1];
      BasenameIsLastComponent(init);
      var n := |init| - |Basename(init)|;
      assert s[n..] == init[n..] + [s[|s| - 1]];
    }
  }

  /** A label is one plain path component, so a member stays in its directory. */
  lemma LabelsAreComponents(name: Text, names: Text)
    requires Label(name, names).Some?
    ensures var l := Label(name, names).value;
            l != [] && l != [0x2E] && l != [0x2E, 0x2E] && SLASH !in l && 0x5C !in l && 0x3A !in l
  {
    if name != [] && name[0] == SLASH {
      BasenameHasNoSeparator(UpToEnd(names[ParseInt(name[1..], true).value..]));
    } else {
      BasenameHasNoSeparator(if name != [] && name[|name| - 1] == SLASH then name[..|name| - 1] else name);
    }
  }

  /** A long name free of the two terminators. */
  predicate Storable(name: Text) {
    0 !in name && (forall i :: 0 <= i < |name| - 1 ==> !(name[i] == SLASH && name[i + 1] == 0x0A))
  }

  lemma {:induction false} UpToEndFinds(name: Text, rest: Text)
    requires Storable(name)
    ensures UpToEnd(name + [SLASH, 0x0A] + rest) == name
    ensures UpToEnd(name + [0] + rest) == name
    decreases |name|
  {
    var s, t := name + [SLASH, 0x0A] + rest, name + [0] + rest;
    if name != [] {
      UpToEndFinds(name[1..], rest);
      assert s[1..] == name[1..] + [SLASH, 0x0A] + rest && t[1..] == name[1..] + [0] + rest;
      assert name == [name[0]] + name[1..];
      if |name| == 1 {
        assert s[1] == SLASH && t[1] == 0;
      } else {
        assert s[1] == name[1] && t[1] == name[1];
      }
    }
  }

  function SlashNumeral(n: nat): Text {
    [SLASH] + Numeral(n)
  }

  lemma NumeralIsInt(n: nat)
    ensures ParseInt(Numeral(n), true) == Some(n)
  {
    var t := Numeral(n);
    NumeralParses(n);
    assert StripLeft(t, true) == t && StripRight(t, true) == t;
  }

  /** A "/offset" entry resolves to the name stored at that offset, whichever
      of the two terminators ends it. */
  lemma LongNameResolves(front: Text, name: Text, rest: Text)
    requires Storable(name)
    ensures Label(SlashNumeral(|front|), front + (name + [SLASH, 0x0A] + rest)) == Checked(name)
    ensures Label(SlashNumeral(|front|), front + (name + [0] + rest)) == Checked(name)
  {
    var entry := SlashNumeral(|front|);
    assert entry[1..] == Numeral(|front|);
    NumeralIsInt(|front|);
    UpToEndFinds(name, rest);
    assert (front + (name + [SLASH, 0x0A] + rest))[|front|..] == name + [SLASH, 0x0A] + rest;
    assert (front + (name + [0] + rest))[|front|..] == name + [0] + rest;
  }

  // ----- archives with names of any length

  /** The labels of all entries, or None when one of them is refused. */
  function Labelled(entries: seq<Member>, names: Text): Option<seq<Member>> {
    if entries == [] then Some([])
    else
      var last := entries[|entries| - 1];
      match (Labelled(entries[..|entries| - 1], names), Label(last.name, names))
      case (Some(ms), Some(l)) => Some(ms + [Member(l, last.body)])
      case _ => None
  }

  /** The walk followed by the loop over its entries. */
  method Extract(data: Text) returns (r: Option<seq<Member>>)
    ensures r == match WalkOf(data) case None => None case Some(w) => Labelled(w.entries, w.names)
  {
    var w := Walk(data);
    if w.None? {
      return None;
    }
    var entries, names, members: seq<Member> := w.value.entries, w.value.names, [];
    for i := 0 to |entries|
      invariant Labelled(entries[..i], names) == Some(members)
    {
      LabelledPrefix(entries, names, i);
      var l := Label(entries[i].name, names);
      if l.None? {
        RefusedForGood(entries, names, i + 1);
        return None;
      }
      members := members + [Member(l.value, entries[i].body)];
    }
    assert entries[..|entries|] == entries;
    r := Some(members);
  }

  lemma LabelledOneMore(entries: seq<Member>, names: Text, m: Member)
    ensures Labelled(entries + [m], names)
            == match (Labelled(entries, names), Label(m.name, names))
               case (Some(ms), Some(l)) => Some(ms + [Member(l, m.body)])
               case _ => None
  {
    assert (entries + [m])[..|entries|] == entries;
  }

  lemma LabelledPrefix(entries: seq<Member>, names: Text, i: nat)
    requires i < |entries|
    ensures Labelled(entries[..i + 1], names)
            == match (Labelled(entries[..i], names), Label(entries[i].name, names))
               case (Some(ms), Some(l)) => Some(ms + [Member(l, entries[i].body)])
               case _ => None
  {
    LabelledOneMore(entries[..i], names, entries[i]);
    assert entries[..i + 1] == entries[..i] + [entries[i]];
  }

  lemma {:induction false} RefusedForGood(entries: seq<Member>, names: Text, n: nat)
    requires n <= |entries| && Labelled(entries[..n], names).None?
    ensures Labelled(entries, names).None?
    decreases |entries|
  {
    if n < |entries| {
      assert entries[..|entries| - 1][..n] == entries[..n];
      RefusedForGood(entries[..|entries| - 1], names, n);
    } else {
      assert entries[..n] == entries;
    }
  }

  /** Where a name is stored: in the header, with or without a closing slash, or,
      whatever its length, in the name table. */
  datatype Storage = Slashed | Plainly | InTable

  /** An object file to be archived. */
  datatype Object = Object(name: Text, body: Text, stamp: Text, pad: Byte, storage: Storage)

  function NameEntry(o: Object): Text {
    if o.storage.InTable? then o.name + [SLASH, 0x0A] else []
  }

  function TableOf(objects: seq<Object>): Text {
    if objects == [] then []
    else
      var last := objects[|objects| - 1];
      TableOf(objects[..|objects| - 1]) + NameEntry(last)
  }

  /** An entry, given where its name starts in the table. */
  function EntryOf(o: Object, at: nat): Source {
    var name :=
      match o.storage
      case Slashed => o.name + [SLASH]
      case Plainly => o.name
      case InTable => SlashNumeral(at);
    Source(Member(name, o.body), o.stamp, o.pad)
  }

  function EntriesOf(objects: seq<Object>): (r: seq<Source>)
    ensures |r| == |objects|
  {
    if objects == [] then []
    else
      var init := objects[..|objects| - 1];
      EntriesOf(init) + [EntryOf(objects[|objects| - 1], |TableOf(init)|)]
  }

  /** What such an archive stands for. */
  function Plain(objects: seq<Object>): seq<Member> {
    if objects == [] then []
    else
      var last := objects[|objects| - 1];
      Plain(objects[..|objects| - 1]) + [Member(Basename(last.name), last.body)]
  }

  predicate Archivable(o: Object) {
    && Basename(o.name) !in {[], [0x2E], [0x2E, 0x2E]} && 0x3A !in Basename(o.name)
    && |o.stamp| == 32 && |o.body| < Pow10(10)
    && match o.storage
       case Slashed => |o.name| <= 15 && Ascii(o.name) && o.name[0] != SLASH && !Blank(o.name[0], true)
       case Plainly => |o.name| <= 16 && Ascii(o.name) && o.name[0] != SLASH && o.name[|o.name| - 1] != SLASH && Trimmed(o.name)
       case InTable => Storable(o.name)
  }

  lemma {:induction false} BareConcat(a: seq<Source>, b: seq<Source>)
    ensures Bare(a + b) == Bare(a) + Bare(b)
  {
    if a == [] {
      assert a + b == b;
    } else {
      BareConcat(a[1..], b);
      assert (a + b)[1..] == a[1..] + b;
      Associate([a[0].member], Bare(a[1..]), Bare(b));
    }
  }

  lemma EntriesConcatStep(a: seq<Member>, init: seq<Member>, last: Member)
    requires Entries(a + init) == Entries(a) + Entries(init)
    ensures Entries(a + (init + [last])) == Entries(a) + Entries(init + [last])
  {
    Associate(a, init, [last]);
    OneMore(a + init, last);
    OneMore(init, last);
    Associate(Entries(a), Entries(init), if IsEntry(last) then [last] else []);
  }

  lemma {:induction false} EntriesConcat(a: seq<Member>, b: seq<Member>)
    ensures Entries(a + b) == Entries(a) + Entries(b)
    decreases |b|
  {
    if b == [] {
      assert a + b == a;
    } else {
      var init, last := b[..|b| - 1], b[|b| - 1];
      EntriesConcat(a, init);
      EntriesConcatStep(a, init, last);
      Unsnoc(b);
    }
  }

  lemma {:induction false} OnlyEntries(a: seq<Member>, b: seq<Member>)
    requires forall m :: m in b ==> IsEntry(m)
    ensures Entries(b) == b && NameTable(a + b) == NameTable(a)
    decreases |b|
  {
    if b == [] {
      assert a + b == a;
    } else {
      var init, last := b[..|b| - 1], b[|b| - 1];
      OnlyEntries(a, init);
      Unsnoc(b);
      Associate(a, init, [last]);
      OneMore(a + init, last);
      OneMore(init, last);
    }
  }

  lemma {:induction false} NoEntries(ms: seq<Member>)
    requires forall m :: m in ms ==> !IsEntry(m)
    ensures Entries(ms) == []
  {
    if ms != [] {
      NoEntries(ms[..|ms| - 1]);
    }
  }

  lemma NumberedEntryIsWritable(at: nat)
    requires at < Pow10(10)
    ensures var name := SlashNumeral(at); |name| <= 16 && Ascii(name) && Trimmed(name) && IsEntry(Member(name, []))
  {
    DigitsFit(at, 10);
    assert SlashNumeral(at)[1] == Numeral(at)[0];
  }

  lemma NamedEntryIsWritable(o: Object, at: nat)
    requires Archivable(o) && !o.storage.InTable?
    ensures Writable(EntryOf(o, at)) && IsEntry(EntryOf(o, at).member)
  {
    assert EntryOf(o, at).member.name[0] == o.name[0];
  }

  lemma EntryIsWritable(o: Object, at: nat)
    requires Archivable(o) && at < Pow10(10)
    ensures Writable(EntryOf(o, at)) && IsEntry(EntryOf(o, at).member)
  {
    if o.storage.InTable? {
      NumberedEntryIsWritable(at);
    } else {
      NamedEntryIsWritable(o, at);
    }
  }

  lemma {:induction false} EntriesAreWritable(objects: seq<Object>)
    requires AllArchivable(objects)
    ensures forall m :: m in EntriesOf(objects) ==> Writable(m)
    ensures forall m :: m in Bare(EntriesOf(objects)) ==> IsEntry(m)
    ensures |Bare(EntriesOf(objects))| == |objects|
  {
    if objects != [] {
      var init, last := objects[..|objects| - 1], objects[|objects| - 1];
      EntriesAreWritable(init);
      EntryIsWritable(last, |TableOf(init)|);
      BareConcat(EntriesOf(init), [EntryOf(last, |TableOf(init)|)]);
    }
  }

  lemma EntryIsLabelled(o: Object, front: Text, rest: Text)
    requires Archivable(o)
    ensures Label(EntryOf(o, |front|).member.name, front + (NameEntry(o) + rest)) == Some(Basename(o.name))
  {
    match o.storage {
      case Slashed => assert (o.name + [SLASH])[..|o.name|] == o.name;
      case Plainly =>
      case InTable => LongNameResolves(front, o.name, rest);
    }
  }

  lemma BareOneMore(ms: seq<Source>, m: Source)
    ensures Bare(ms + [m]) == Bare(ms) + [m.member]
  {
    BareConcat(ms, [m]);
    assert Bare([m]) == [m.member];
  }

  lemma ObjectIsLabelled(init: seq<Object>, last: Object, names: Text)
    requires Labelled(Bare(EntriesOf(init)), names) == Some(Plain(init))
    requires Label(EntryOf(last, |TableOf(init)|).member.name, names) == Some(Basename(last.name))
    ensures Labelled(Bare(EntriesOf(init + [last])), names) == Some(Plain(init + [last]))
  {
    var entry := EntryOf(last, |TableOf(init)|);
    assert (init + [last])[..|init|] == init;
    BareOneMore(EntriesOf(init), entry);
    LabelledOneMore(Bare(EntriesOf(init)), names, entry.member);
  }

  lemma TableGrows(init: seq<Object>, last: Object, rest: Text)
    ensures TableOf(init + [last]) + rest == TableOf(init) + (NameEntry(last) + rest)
  {
    assert (init + [last])[..|init|] == init;
    Associate(TableOf(init), NameEntry(last), rest);
  }

  /** Later names in the table do not disturb earlier entries. */
  lemma {:induction false} EntriesAreLabelled(objects: seq<Object>, rest: Text)
    requires forall i :: 0 <= i < |objects| ==> Archivable(objects[i])
    ensures Labelled(Bare(EntriesOf(objects)), TableOf(objects) + rest) == Some(Plain(objects))
    decreases |objects|
  {
    if objects != [] {
      var init, last := objects[..|objects| - 1], objects[|objects| - 1];
      EntriesAreLabelled(init, NameEntry(last) + rest);
      EntryIsLabelled(last, TableOf(init), rest);
      TableGrows(init, last, rest);
      ObjectIsLabelled(init, last, TableOf(init) + (NameEntry(last) + rest));
      Unsnoc(objects);
    }
  }

  /** The members of an archive: linker indexes, the name table, the objects. */
  function Layout(indexes: seq<Source>, stamp: Text, pad: Byte, objects: seq<Object>): seq<Source> {
    indexes + [Source(Member(LONG_NAMES, TableOf(objects)), stamp, pad)] + EntriesOf(objects)
  }

  predicate AllIndexes(indexes: seq<Source>) {
    forall m :: m in indexes ==> Writable(m) && (m.member.name == INDEX || m.member.name == INDEX64)
  }

  predicate AllArchivable(objects: seq<Object>) {
    |TableOf(objects)| < Pow10(10) && forall i :: 0 <= i < |objects| ==> Archivable(objects[i])
  }

  lemma LayoutEntries(indexes: seq<Source>, stamp: Text, pad: Byte, objects: seq<Object>)
    requires AllIndexes(indexes) && AllArchivable(objects)
    ensures Entries(Bare(Layout(indexes, stamp, pad, objects))) == Bare(EntriesOf(objects))
    ensures NameTable(Bare(Layout(indexes, stamp, pad, objects))) == TableOf(objects)
  {
    var table := Source(Member(LONG_NAMES, TableOf(objects)), stamp, pad);
    var head, tail := Bare(indexes) + [table.member], Bare(EntriesOf(objects));
    BareConcat(indexes + [table], EntriesOf(objects));
    BareOneMore(indexes, table);
    EntriesAreWritable(objects);
    EntriesConcat(head, tail);
    OnlyEntries(head, tail);
    IndexesAreNoEntries(indexes);
    NoEntries(Bare(indexes));
    OneMore(Bare(indexes), table.member);
  }

  lemma TableIsWritable(table: Source)
    requires table.member.name == LONG_NAMES && |table.stamp| == 32 && |table.member.body| < Pow10(10)
    ensures Writable(table)
  {
  }

  lemma LayoutIsWritable(indexes: seq<Source>, stamp: Text, pad: Byte, objects: seq<Object>)
    requires AllIndexes(indexes) && |stamp| == 32 && AllArchivable(objects)
    ensures forall m :: m in Layout(indexes, stamp, pad, objects) ==> Writable(m)
    ensures |Bare(EntriesOf(objects))| == |objects|
  {
    var table := Source(Member(LONG_NAMES, TableOf(objects)), stamp, pad);
    EntriesAreWritable(objects);
    TableIsWritable(table);
    forall m | m in Layout(indexes, stamp, pad, objects)
      ensures Writable(m)
    {
      assert m in indexes || m == table || m in EntriesOf(objects);
    }
  }

  /** Archiving any objects under names of any length and extracting them again
      gives every basename and every body, in order. */
  lemma ArchiveRoundTrip(indexes: seq<Source>, stamp: Text, pad: Byte, objects: seq<Object>)
    requires AllIndexes(indexes) && |stamp| == 32 && objects != [] && AllArchivable(objects)
    ensures forall m :: m in Layout(indexes, stamp, pad, objects) ==> Writable(m)
    ensures var w := WalkOf(MAGIC + Blocks(Layout(indexes, stamp, pad, objects)));
            w.Some? && Labelled(w.value.entries, w.value.names) == Some(Plain(objects))
  {
    LayoutIsWritable(indexes, stamp, pad, objects);
    LayoutEntries(indexes, stamp, pad, objects);
    WrittenArchiveReadsBack(Layout(indexes, stamp, pad, objects));
    EntriesAreLabelled(objects, []);
    assert TableOf(objects) + [] == TableOf(objects);
  }

  lemma {:induction false} IndexesAreNoEntries(indexes: seq<Source>)
    requires forall m :: m in indexes ==> m.member.name == INDEX || m.member.name == INDEX64
    ensures forall m :: m in Bare(indexes) ==> !IsEntry(m)
  {
    if indexes != [] {
      IndexesAreNoEntries(indexes[1..]);
    }
  }
}
