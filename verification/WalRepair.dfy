/** The framing repair of the WAL fuzz target: walk the frames of a buffer and
    overwrite, in place, the file header checksum, each commit frame's span
    checksum and each frame's header and trailer checksums. */
module WalRepair {
  import opened Bytes

  type Hash = seq<Byte> -> Word

  const HEADER: nat := 64

  function Checksum(hash: Hash, s: seq<Byte>): (r: seq<Byte>)
    ensures |r| == 8
  {
    ToLe(hash(s), 8)
  }

  // ----- reading a frame

  /** A frame has room for its fixed part, so its fields can be read. */
  predicate Readable(buf: seq<Byte>, at: nat) {
    at + 64 <= |buf|
  }

  function Length(buf: seq<Byte>, at: nat): nat
    requires Readable(buf, at)
  {
    FromLe(buf[at + 8..at + 12])
  }

  function Kind(buf: seq<Byte>, at: nat): nat
    requires Readable(buf, at)
  {
    FromLe(buf[at + 4..at + 6])
  }

  function End(buf: seq<Byte>, at: nat): nat
    requires Readable(buf, at)
  {
    at + 72 + Length(buf, at)
  }

  /** The walk continues at `at`. */
  predicate Framed(buf: seq<Byte>, at: nat) {
    Readable(buf, at) && End(buf, at) <= |buf|
  }

  function Begin(buf: seq<Byte>, at: nat, begin: nat): nat
    requires Readable(buf, at)
  {
    if Kind(buf, at) == 1 then at else begin
  }

  predicate Commit(buf: seq<Byte>, at: nat)
    requires Readable(buf, at)
  {
    Kind(buf, at) == 6 && Length(buf, at) >= 16
  }

  // ----- repairing, on values

  /** A commit frame stores the checksum of the frames since the last begin. */
  function FixSpan(hash: Hash, buf: seq<Byte>, at: nat, from: nat): (r: seq<Byte>)
    requires Framed(buf, at) && from <= at
    ensures |r| == |buf|
  {
    if Commit(buf, at) then Put(buf, at + 72, Checksum(hash, buf[from..at])) else buf
  }

  function FixHeader(hash: Hash, buf: seq<Byte>, at: nat): (r: seq<Byte>)
    requires Readable(buf, at)
    ensures |r| == |buf|
  {
    Put(buf, at + 56, Checksum(hash, buf[at..at + 56]))
  }

  function FixTrailer(hash: Hash, buf: seq<Byte>, at: nat, end: nat): (r: seq<Byte>)
    requires at + 72 <= end <= |buf|
    ensures |r| == |buf|
  {
    Put(buf, end - 8, Checksum(hash, buf[at..end - 8]))
  }

  /** One frame: span checksum, then header checksum, then trailer checksum. */
  function RepairFrame(hash: Hash, buf: seq<Byte>, at: nat, begin: nat): (r: seq<Byte>)
    requires Framed(buf, at) && begin <= at
    ensures |r| == |buf|
  {
    FixTrailer(hash, FixHeader(hash, FixSpan(hash, buf, at, Begin(buf, at, begin)), at), at, End(buf, at))
  }

  function RepairFrom(hash: Hash, buf: seq<Byte>, at: nat, begin: nat): (r: seq<Byte>)
    requires begin <= at <= |buf|
    ensures |r| == |buf|
    decreases |buf| - at
  {
    if !Framed(buf, at) then buf
    else RepairFrom(hash, RepairFrame(hash, buf, at, begin), End(buf, at), Begin(buf, at, begin))
  }

  function Repaired(hash: Hash, buf: seq<Byte>): (r: seq<Byte>)
    ensures |r| == |buf|
  {
    if |buf| < HEADER then buf
    else RepairFrom(hash, Put(buf, 56, Checksum(hash, buf[..56])), HEADER, HEADER)
  }

  // ----- what a consistent buffer is

  /** The checksums of the frame at `at` match its bytes. */
  predicate FrameOk(hash: Hash, buf: seq<Byte>, at: nat, begin: nat)
    requires Framed(buf, at) && begin <= at
  {
    var end := End(buf, at);
    && (Commit(buf, at) ==> buf[at + 72..at + 80] == Checksum(hash, buf[Begin(buf, at, begin)..at]))
    && buf[at + 56..at + 64] == Checksum(hash, buf[at..at + 56])
    && buf[end - 8..end] == Checksum(hash, buf[at..end - 8])
  }

  predicate Consistent(hash: Hash, buf: seq<Byte>, at: nat, begin: nat)
    requires begin <= at <= |buf|
    decreases |buf| - at
  {
    Framed(buf, at) ==>
      FrameOk(hash, buf, at, begin) && Consistent(hash, buf, End(buf, at), Begin(buf, at, begin))
  }

  predicate Sound(hash: Hash, buf: seq<Byte>) {
    |buf| >= HEADER ==>
      buf[56..64] == Checksum(hash, buf[..56]) && Consistent(hash, buf, HEADER, HEADER)
  }

  /** Frame boundaries and kinds met by the walk. */
  datatype Frame = Frame(at: nat, end: nat, kind: nat)

  function Walk(buf: seq<Byte>, at: nat): seq<Frame>
    decreases |buf| - at
  {
    if !Framed(buf, at) then []
    else [Frame(at, End(buf, at), Kind(buf, at))] + Walk(buf, End(buf, at))
  }

  // ----- one frame

  lemma SliceOfPrefix(a: seq<Byte>, b: seq<Byte>, n: nat, i: nat, j: nat)
    requires n <= |a| && n <= |b| && a[..n] == b[..n] && i <= j <= n
    ensures a[i..j] == b[i..j]
  {
    assert a[i..j] == a[..n][i..j];
    assert b[i..j] == b[..n][i..j];
  }

  /** Writing behind `n` leaves every slice before `n` alone. */
  lemma PutKeeps(s: seq<Byte>, at: nat, part: seq<Byte>, i: nat, j: nat)
    requires at + |part| <= |s| && i <= j <= |s| && (j <= at || at + |part| <= i)
    ensures Put(s, at, part)[i..j] == s[i..j]
  {
    var r := Put(s, at, part);
    if j <= at {
      SliceOfPrefix(r, s, at, i, j);
    } else {
      var k := at + |part|;
      assert r[i..j] == r[k..][i - k..j - k];
      assert s[i..j] == s[k..][i - k..j - k];
    }
  }

  lemma RepairFrameSlice(hash: Hash, buf: seq<Byte>, at: nat, begin: nat, i: nat, j: nat)
    requires Framed(buf, at) && begin <= at && i <= j <= |buf| && (j <= at + 56 || End(buf, at) <= i)
    ensures RepairFrame(hash, buf, at, begin)[i..j] == buf[i..j]
  {
    var end, from := End(buf, at), Begin(buf, at, begin);
    var b1 := FixSpan(hash, buf, at, from);
    var b2 := FixHeader(hash, b1, at);
    if Commit(buf, at) {
      PutKeeps(buf, at + 72, Checksum(hash, buf[from..at]), i, j);
    }
    PutKeeps(b1, at + 56, Checksum(hash, b1[at..at + 56]), i, j);
    PutKeeps(b2, end - 8, Checksum(hash, b2[at..end - 8]), i, j);
  }

  /** The frame's fields, and all bytes outside the frame, survive its repair. */
  lemma RepairFrameKeeps(hash: Hash, buf: seq<Byte>, at: nat, begin: nat)
    requires Framed(buf, at) && begin <= at
    ensures var r := RepairFrame(hash, buf, at, begin);
            && r[..at] == buf[..at] && r[End(buf, at)..] == buf[End(buf, at)..]
            && Framed(r, at) && End(r, at) == End(buf, at) && Kind(r, at) == Kind(buf, at)
  {
    var end := End(buf, at);
    var r := RepairFrame(hash, buf, at, begin);
    RepairFrameSlice(hash, buf, at, begin, 0, at);
    RepairFrameSlice(hash, buf, at, begin, end, |buf|);
    RepairFrameSlice(hash, buf, at, begin, at + 8, at + 12);
    RepairFrameSlice(hash, buf, at, begin, at + 4, at + 6);
    assert r[0..at] == r[..at] && buf[0..at] == buf[..at];
    assert r[end..|buf|] == r[end..] && buf[end..|buf|] == buf[end..];
  }

  /** Later writes of the same frame leave its span checksum alone. */
  lemma SpanSurvives(hash: Hash, b1: seq<Byte>, at: nat, end: nat)
    requires Readable(b1, at) && at + 88 <= end <= |b1|
    ensures FixTrailer(hash, FixHeader(hash, b1, at), at, end)[at + 72..at + 80] == b1[at + 72..at + 80]
  {
    var b2 := FixHeader(hash, b1, at);
    PutKeeps(b1, at + 56, Checksum(hash, b1[at..at + 56]), at + 72, at + 80);
    PutKeeps(b2, end - 8, Checksum(hash, b2[at..end - 8]), at + 72, at + 80);
  }

  lemma HeaderAndTrailerFixed(hash: Hash, b1: seq<Byte>, at: nat, end: nat)
    requires Readable(b1, at) && at + 72 <= end <= |b1|
    ensures var r := FixTrailer(hash, FixHeader(hash, b1, at), at, end);
            && r[at + 56..at + 64] == Checksum(hash, r[at..at + 56])
            && r[end - 8..end] == Checksum(hash, r[at..end - 8])
  {
    var b2 := FixHeader(hash, b1, at);
    var c := Checksum(hash, b2[at..end - 8]);
    PutKeeps(b1, at + 56, Checksum(hash, b1[at..at + 56]), at, at + 56);
    PutKeeps(b2, end - 8, c, at, end - 8);
    PutKeeps(b2, end - 8, c, at, at + 56);
    PutKeeps(b2, end - 8, c, at + 56, at + 64);
  }

  lemma RepairFrameFixes(hash: Hash, buf: seq<Byte>, at: nat, begin: nat)
    requires Framed(buf, at) && begin <= at
    ensures Framed(RepairFrame(hash, buf, at, begin), at)
    ensures FrameOk(hash, RepairFrame(hash, buf, at, begin), at, begin)
  {
    RepairFrameKeeps(hash, buf, at, begin);
    var end, from := End(buf, at), Begin(buf, at, begin);
    var b1 := FixSpan(hash, buf, at, from);
    HeaderAndTrailerFixed(hash, b1, at, end);
    if Commit(buf, at) {
      SpanSurvives(hash, b1, at, end);
      RepairFrameSlice(hash, buf, at, begin, from, at);
    }
  }

  lemma PutSame(s: seq<Byte>, at: nat, part: seq<Byte>)
    requires at + |part| <= |s| && s[at..at + |part|] == part
    ensures Put(s, at, part) == s
  {
    assert s == s[..at] + s[at..at + |part|] + s[at + |part|..];
  }

  lemma OkFrameIsKept(hash: Hash, buf: seq<Byte>, at: nat, begin: nat)
    requires Framed(buf, at) && begin <= at && FrameOk(hash, buf, at, begin)
    ensures RepairFrame(hash, buf, at, begin) == buf
  {
    var end := End(buf, at);
    if Commit(buf, at) {
      PutSame(buf, at + 72, Checksum(hash, buf[Begin(buf, at, begin)..at]));
    }
    PutSame(buf, at + 56, Checksum(hash, buf[at..at + 56]));
    PutSame(buf, end - 8, Checksum(hash, buf[at..end - 8]));
  }

  // ----- the whole walk

  lemma {:induction false} RepairFromKeepsPrefix(hash: Hash, buf: seq<Byte>, at: nat, begin: nat)
    requires begin <= at <= |buf|
    ensures RepairFrom(hash, buf, at, begin)[..at] == buf[..at]
    decreases |buf| - at
  {
    if Framed(buf, at) {
      var next, end := RepairFrame(hash, buf, at, begin), End(buf, at);
      RepairFrameKeeps(hash, buf, at, begin);
      RepairFromKeepsPrefix(hash, next, end, Begin(buf, at, begin));
      var r := RepairFrom(hash, next, end, Begin(buf, at, begin));
      assert r[..at] == r[..end][..at];
      assert next[..at] == next[..end][..at];
    }
  }

  /** A frame check looks at the bytes up to the frame's end only. */
  lemma FrameOkLocal(hash: Hash, a: seq<Byte>, b: seq<Byte>, at: nat, begin: nat)
    requires Framed(a, at) && begin <= at && |a| == |b| && a[..End(a, at)] == b[..End(a, at)]
    ensures Framed(b, at) && End(b, at) == End(a, at) && Kind(b, at) == Kind(a, at)
    ensures FrameOk(hash, a, at, begin) <==> FrameOk(hash, b, at, begin)
  {
    var end := End(a, at);
    forall i, j | 0 <= i <= j <= end
      ensures a[i..j] == b[i..j]
    {
      SliceOfPrefix(a, b, end, i, j);
    }
  }

  /** Every walked frame of the result carries matching checksums. */
  lemma {:induction false} RepairFromIsConsistent(hash: Hash, buf: seq<Byte>, at: nat, begin: nat)
    requires begin <= at <= |buf|
    ensures Consistent(hash, RepairFrom(hash, buf, at, begin), at, begin)
    decreases |buf| - at
  {
    if Framed(buf, at) {
      var next, end, from := RepairFrame(hash, buf, at, begin), End(buf, at), Begin(buf, at, begin);
      RepairFrameKeeps(hash, buf, at, begin);
      RepairFrameFixes(hash, buf, at, begin);
      RepairFromIsConsistent(hash, next, end, from);
      RepairFromKeepsPrefix(hash, next, end, from);
      FrameOkLocal(hash, next, RepairFrom(hash, next, end, from), at, begin);
    }
  }

  lemma {:induction false} ConsistentIsKept(hash: Hash, buf: seq<Byte>, at: nat, begin: nat)
    requires begin <= at <= |buf| && Consistent(hash, buf, at, begin)
    ensures RepairFrom(hash, buf, at, begin) == buf
    decreases |buf| - at
  {
    if Framed(buf, at) {
      OkFrameIsKept(hash, buf, at, begin);
      ConsistentIsKept(hash, buf, End(buf, at), Begin(buf, at, begin));
    }
  }

  lemma SliceOfSuffix(a: seq<Byte>, b: seq<Byte>, n: nat, i: nat, j: nat)
    requires n <= |a| == |b| && a[n..] == b[n..] && n <= i <= j <= |a|
    ensures a[i..j] == b[i..j]
  {
    forall k | i <= k < j
      ensures a[k] == b[k]
    {
      assert a[k] == a[n..][k - n] && b[k] == b[n..][k - n];
    }
  }

  /** A frame, and what lies behind it, can be read off the bytes from `at` on. */
  lemma SameTailSameFrame(a: seq<Byte>, b: seq<Byte>, at: nat)
    requires at <= |a| == |b| && a[at..] == b[at..]
    ensures Framed(a, at) <==> Framed(b, at)
    ensures Framed(a, at) ==> End(a, at) == End(b, at) && Kind(a, at) == Kind(b, at) && a[End(a, at)..] == b[End(a, at)..]
  {
    if Readable(a, at) {
      SliceOfSuffix(a, b, at, at + 8, at + 12);
      SliceOfSuffix(a, b, at, at + 4, at + 6);
      if Framed(a, at) {
        SliceOfSuffix(a, b, at, End(a, at), |a|);
        assert a[End(a, at)..|a|] == a[End(a, at)..] && b[End(a, at)..|a|] == b[End(a, at)..];
      }
    }
  }

  lemma {:induction false} WalkLooksForward(a: seq<Byte>, b: seq<Byte>, at: nat)
    requires at <= |a| == |b| && a[at..] == b[at..]
    ensures Walk(a, at) == Walk(b, at)
    decreases |a| - at
  {
    SameTailSameFrame(a, b, at);
    if Framed(a, at) {
      WalkLooksForward(a, b, End(a, at));
    }
  }

  lemma {:induction false} RepairFromKeepsFrames(hash: Hash, buf: seq<Byte>, at: nat, begin: nat)
    requires begin <= at <= |buf|
    ensures Walk(RepairFrom(hash, buf, at, begin), at) == Walk(buf, at)
    decreases |buf| - at
  {
    if Framed(buf, at) {
      var next, end, from := RepairFrame(hash, buf, at, begin), End(buf, at), Begin(buf, at, begin);
      RepairFrameKeeps(hash, buf, at, begin);
      RepairFrameFixes(hash, buf, at, begin);
      RepairFromKeepsFrames(hash, next, end, from);
      WalkLooksForward(next, buf, end);
      RepairFromKeepsPrefix(hash, next, end, from);
      FrameOkLocal(hash, next, RepairFrom(hash, next, end, from), at, begin);
    }
  }

  // ----- the three promises about the repaired buffer

  lemma RepairedIsSound(hash: Hash, buf: seq<Byte>)
    ensures Sound(hash, Repaired(hash, buf))
    ensures Walk(Repaired(hash, buf), HEADER) == Walk(buf, HEADER)
  {
    if |buf| >= HEADER {
      var b := Put(buf, 56, Checksum(hash, buf[..56]));
      RepairFromIsConsistent(hash, b, HEADER, HEADER);
      RepairFromKeepsPrefix(hash, b, HEADER, HEADER);
      RepairFromKeepsFrames(hash, b, HEADER, HEADER);
      WalkLooksForward(b, buf, HEADER);
      var r := RepairFrom(hash, b, HEADER, HEADER);
      SliceOfPrefix(r, b, HEADER, 56, 64);
      SliceOfPrefix(r, b, HEADER, 0, 56);
      PutKeeps(buf, 56, Checksum(hash, buf[..56]), 0, 56);
      assert r[0..56] == r[..56] && buf[0..56] == buf[..56];
    }
  }

  lemma SoundIsKept(hash: Hash, buf: seq<Byte>)
    requires Sound(hash, buf)
    ensures Repaired(hash, buf) == buf
  {
    if |buf| >= HEADER {
      PutSame(buf, 56, Checksum(hash, buf[..56]));
      ConsistentIsKept(hash, buf, HEADER, HEADER);
    }
  }

  /** A second repair changes nothing. */
  lemma RepairIsIdempotent(hash: Hash, buf: seq<Byte>)
    ensures Repaired(hash, Repaired(hash, buf)) == Repaired(hash, buf)
  {
    RepairedIsSound(hash, buf);
    SoundIsKept(hash, Repaired(hash, buf));
  }

  // ----- nothing but checksum fields is written, and they are determined

  predicate InField(k: nat, from: nat) {
    from <= k < from + 8
  }

  /** Byte `k` lies in a checksum field of the frame at `at`. */
  predicate FrameField(buf: seq<Byte>, at: nat, k: nat)
    requires Framed(buf, at)
  {
    InField(k, at + 56) || InField(k, End(buf, at) - 8) || (Commit(buf, at) && InField(k, at + 72))
  }

  predicate ChecksumByte(buf: seq<Byte>, at: nat, k: nat)
    decreases |buf| - at
  {
    Framed(buf, at) && (FrameField(buf, at, k) || ChecksumByte(buf, End(buf, at), k))
  }

  /** `a` and `b` are equal before `at` and, from there on, may differ in the
      checksum fields of `a`'s frames only. */
  ghost predicate AgreeFrom(a: seq<Byte>, b: seq<Byte>, at: nat) {
    && at <= |a| == |b| && a[..at] == b[..at]
    && forall k :: at <= k < |a| && !ChecksumByte(a, at, k) ==> a[k] == b[k]
  }

  lemma {:induction false} FieldsLieAhead(buf: seq<Byte>, at: nat, k: nat)
    requires ChecksumByte(buf, at, k)
    ensures k >= at + 56
    decreases |buf| - at
  {
    if !FrameField(buf, at, k) {
      FieldsLieAhead(buf, End(buf, at), k);
    }
  }

  lemma AgreeingFrames(a: seq<Byte>, b: seq<Byte>, at: nat)
    requires AgreeFrom(a, b, at)
    ensures Framed(a, at) <==> Framed(b, at)
    ensures Framed(a, at) ==> End(a, at) == End(b, at) && Kind(a, at) == Kind(b, at) && a[..at + 56] == b[..at + 56]
  {
    if Readable(a, at) {
      forall k | 0 <= k < at + 56
        ensures a[k] == b[k]
      {
        if k < at {
          assert a[..at][k] == b[..at][k];
        } else if ChecksumByte(a, at, k) {
          FieldsLieAhead(a, at, k);
        }
      }
      assert a[at + 8..at + 12] == b[at + 8..at + 12];
      assert a[at + 4..at + 6] == b[at + 4..at + 6];
    }
  }

  /** Pointwise effect of one write. */
  lemma PutAt(s: seq<Byte>, at: nat, part: seq<Byte>, k: nat)
    requires at + |part| <= |s| && k < |s|
    ensures Put(s, at, part)[k] == if at <= k < at + |part| then part[k - at] else s[k]
  {
  }

  /** Outside its checksum fields a frame is left alone. */
  lemma RepairFrameAt(hash: Hash, buf: seq<Byte>, at: nat, begin: nat, k: nat)
    requires Framed(buf, at) && begin <= at && k < |buf| && !FrameField(buf, at, k)
    ensures RepairFrame(hash, buf, at, begin)[k] == buf[k]
  {
    var end, from := End(buf, at), Begin(buf, at, begin);
    var b1 := FixSpan(hash, buf, at, from);
    var b2 := FixHeader(hash, b1, at);
    if Commit(buf, at) {
      PutAt(buf, at + 72, Checksum(hash, buf[from..at]), k);
    }
    PutAt(b1, at + 56, Checksum(hash, b1[at..at + 56]), k);
    PutAt(b2, end - 8, Checksum(hash, b2[at..end - 8]), k);
  }

  lemma {:induction false} RepairFromAt(hash: Hash, buf: seq<Byte>, at: nat, begin: nat, k: nat)
    requires begin <= at <= |buf| && k < |buf| && !ChecksumByte(buf, at, k)
    ensures RepairFrom(hash, buf, at, begin)[k] == buf[k]
    decreases |buf| - at
  {
    if Framed(buf, at) {
      var next, end := RepairFrame(hash, buf, at, begin), End(buf, at);
      RepairFrameKeeps(hash, buf, at, begin);
      RepairFrameAt(hash, buf, at, begin, k);
      FieldsLookForward(buf, next, end, k);
      RepairFromAt(hash, next, end, Begin(buf, at, begin), k);
    }
  }

  lemma {:induction false} FieldsLookForward(a: seq<Byte>, b: seq<Byte>, at: nat, k: nat)
    requires at <= |a| == |b| && a[at..] == b[at..]
    ensures ChecksumByte(a, at, k) <==> ChecksumByte(b, at, k)
    decreases |a| - at
  {
    SameTailSameFrame(a, b, at);
    if Framed(a, at) {
      FieldsLookForward(a, b, End(a, at), k);
    }
  }

  /** Only the file header checksum and frame checksum fields are written. */
  lemma OnlyChecksumsChange(hash: Hash, buf: seq<Byte>, k: nat)
    requires k < |buf| && !InField(k, 56) && !ChecksumByte(buf, HEADER, k)
    ensures Repaired(hash, buf)[k] == buf[k]
  {
    if |buf| >= HEADER {
      var b := Put(buf, 56, Checksum(hash, buf[..56]));
      PutAt(buf, 56, Checksum(hash, buf[..56]), k);
      FieldsLookForward(b, buf, HEADER, k);
      RepairFromAt(hash, b, HEADER, HEADER, k);
    }
  }

  lemma AgreeAt(a: seq<Byte>, b: seq<Byte>, at: nat, k: nat)
    requires AgreeFrom(a, b, at) && Framed(a, at) && k < End(a, at) && !FrameField(a, at, k)
    ensures a[k] == b[k]
  {
    if k < at {
      assert a[..at][k] == b[..at][k];
    } else if ChecksumByte(a, End(a, at), k) {
      FieldsLieAhead(a, End(a, at), k);
    }
  }

  lemma SpansDetermined(hash: Hash, a: seq<Byte>, b: seq<Byte>, at: nat, from: nat, k: nat)
    requires AgreeFrom(a, b, at) && Framed(a, at) && Framed(b, at) && from <= at
    requires k < End(a, at) && !InField(k, at + 56) && !InField(k, End(a, at) - 8)
    ensures FixSpan(hash, a, at, from)[k] == FixSpan(hash, b, at, from)[k]
  {
    AgreeingFrames(a, b, at);
    SliceOfPrefix(a, b, at, from, at);
    if Commit(a, at) {
      PutAt(a, at + 72, Checksum(hash, a[from..at]), k);
      PutAt(b, at + 72, Checksum(hash, b[from..at]), k);
    }
    if !FrameField(a, at, k) {
      AgreeAt(a, b, at, k);
    }
  }

  /** Equal up to `end`, except perhaps in the fields at `f` and `g`. */
  ghost predicate EqualBut(a: seq<Byte>, b: seq<Byte>, end: nat, f: nat, g: nat) {
    end <= |a| == |b| && forall k: nat :: k < end && !InField(k, f) && !InField(k, g) ==> a[k] == b[k]
  }

  lemma SpanStep(hash: Hash, a: seq<Byte>, b: seq<Byte>, at: nat, from: nat)
    requires AgreeFrom(a, b, at) && Framed(a, at) && Framed(b, at) && from <= at
    ensures EqualBut(FixSpan(hash, a, at, from), FixSpan(hash, b, at, from), End(a, at), at + 56, End(a, at) - 8)
  {
    forall k: nat | k < End(a, at) && !InField(k, at + 56) && !InField(k, End(a, at) - 8)
      ensures FixSpan(hash, a, at, from)[k] == FixSpan(hash, b, at, from)[k]
    {
      SpansDetermined(hash, a, b, at, from, k);
    }
  }

  /** Storing the checksum of equal bytes in a field makes the field equal. */
  lemma StampStep(hash: Hash, a: seq<Byte>, b: seq<Byte>, end: nat, f: nat, g: nat, from: nat, to: nat)
    requires EqualBut(a, b, end, f, g) && from <= to <= f && to <= g && f + 8 <= end
    ensures EqualBut(Put(a, f, Checksum(hash, a[from..to])), Put(b, f, Checksum(hash, b[from..to])), end, g, g)
  {
    assert a[from..to] == b[from..to];
    var c := Checksum(hash, a[from..to]);
    forall k: nat | k < end && !InField(k, g)
      ensures Put(a, f, c)[k] == Put(b, f, c)[k]
    {
      PutAt(a, f, c, k);
      PutAt(b, f, c, k);
    }
  }

  lemma LastStampStep(hash: Hash, a: seq<Byte>, b: seq<Byte>, end: nat, f: nat, from: nat)
    requires EqualBut(a, b, end, f, f) && from <= f && f + 8 == end
    ensures Put(a, f, Checksum(hash, a[from..f]))[..end] == Put(b, f, Checksum(hash, b[from..f]))[..end]
  {
    assert a[from..f] == b[from..f];
    var c := Checksum(hash, a[from..f]);
    forall k: nat | k < end
      ensures Put(a, f, c)[k] == Put(b, f, c)[k]
    {
      PutAt(a, f, c, k);
      PutAt(b, f, c, k);
    }
  }

  /** Two frames that differ in checksum fields only are repaired alike. */
  lemma FrameDetermined(hash: Hash, a: seq<Byte>, b: seq<Byte>, at: nat, begin: nat)
    requires AgreeFrom(a, b, at) && Framed(a, at) && Framed(b, at) && begin <= at
    ensures RepairFrame(hash, a, at, begin)[..End(a, at)] == RepairFrame(hash, b, at, begin)[..End(a, at)]
  {
    AgreeingFrames(a, b, at);
    var end, from := End(a, at), Begin(a, at, begin);
    SpanStep(hash, a, b, at, from);
    EndsDetermined(hash, FixSpan(hash, a, at, from), FixSpan(hash, b, at, from), at, end);
  }

  lemma EndsDetermined(hash: Hash, a: seq<Byte>, b: seq<Byte>, at: nat, end: nat)
    requires at + 72 <= end && EqualBut(a, b, end, at + 56, end - 8)
    ensures FixTrailer(hash, FixHeader(hash, a, at), at, end)[..end] == FixTrailer(hash, FixHeader(hash, b, at), at, end)[..end]
  {
    StampStep(hash, a, b, end, at + 56, end - 8, at, at + 56);
    LastStampStep(hash, FixHeader(hash, a, at), FixHeader(hash, b, at), end, end - 8, at);
  }

  lemma SameTailAt(s: seq<Byte>, t: seq<Byte>, end: nat, k: nat)
    requires end <= k < |s| == |t| && s[end..] == t[end..]
    ensures s[k] == t[k]
  {
    assert s[k] == s[end..][k - end] && t[k] == t[end..][k - end];
  }

  /** Behind the frame the two buffers are as they were. */
  lemma BeyondFrameAt(hash: Hash, a: seq<Byte>, b: seq<Byte>, at: nat, begin: nat, k: nat)
    requires begin <= at && AgreeFrom(a, b, at) && Framed(a, at) && Framed(b, at) && End(b, at) == End(a, at)
    requires End(a, at) <= k < |a| && !ChecksumByte(RepairFrame(hash, a, at, begin), End(a, at), k)
    ensures RepairFrame(hash, a, at, begin)[k] == RepairFrame(hash, b, at, begin)[k]
  {
    var end := End(a, at);
    var a', b' := RepairFrame(hash, a, at, begin), RepairFrame(hash, b, at, begin);
    RepairFrameKeeps(hash, a, at, begin);
    RepairFrameKeeps(hash, b, at, begin);
    SameTailAt(a, a', end, k);
    SameTailAt(b, b', end, k);
    FieldsLookForward(a, a', end, k);
    assert !FrameField(a, at, k) && !ChecksumByte(a, at, k);
  }

  lemma AgreeBeyondFrame(hash: Hash, a: seq<Byte>, b: seq<Byte>, at: nat, begin: nat)
    requires begin <= at && AgreeFrom(a, b, at) && Framed(a, at) && Framed(b, at)
    ensures AgreeFrom(RepairFrame(hash, a, at, begin), RepairFrame(hash, b, at, begin), End(a, at))
  {
    AgreeingFrames(a, b, at);
    var end := End(a, at);
    var a', b' := RepairFrame(hash, a, at, begin), RepairFrame(hash, b, at, begin);
    FrameDetermined(hash, a, b, at, begin);
    forall k | end <= k < |a'| && !ChecksumByte(a', end, k)
      ensures a'[k] == b'[k]
    {
      BeyondFrameAt(hash, a, b, at, begin, k);
    }
  }

  lemma {:induction false} RepairDetermined(hash: Hash, a: seq<Byte>, b: seq<Byte>, at: nat, begin: nat)
    requires begin <= at && AgreeFrom(a, b, at)
    ensures RepairFrom(hash, a, at, begin) == RepairFrom(hash, b, at, begin)
    decreases |a| - at
  {
    AgreeingFrames(a, b, at);
    if Framed(a, at) {
      AgreeBeyondFrame(hash, a, b, at, begin);
      RepairDetermined(hash, RepairFrame(hash, a, at, begin), RepairFrame(hash, b, at, begin), End(a, at), Begin(a, at, begin));
    } else {
      assert a == a[..at] + a[at..] && b == b[..at] + b[at..];
      assert forall k :: at <= k < |a| ==> a[k] == b[k];
    }
  }

  /** The repair is the only sound buffer that agrees with the input outside
      the checksum fields. */
  lemma RepairedIsUnique(hash: Hash, buf: seq<Byte>, c: seq<Byte>)
    requires |c| == |buf| && Sound(hash, c)
    requires forall k :: 0 <= k < |buf| && !InField(k, 56) && !ChecksumByte(buf, HEADER, k) ==> c[k] == buf[k]
    requires |buf| < HEADER ==> c == buf
    ensures c == Repaired(hash, buf)
  {
    if |buf| >= HEADER {
      var b := Put(buf, 56, Checksum(hash, buf[..56]));
      forall k: nat | k < 56
        ensures c[k] == buf[k]
      {
        if ChecksumByte(buf, HEADER, k) {
          FieldsLieAhead(buf, HEADER, k);
        }
      }
      assert c[..56] == buf[..56];
      forall k: nat | k < HEADER
        ensures b[k] == c[k]
      {
        PutAt(buf, 56, Checksum(hash, buf[..56]), k);
        if k >= 56 {
          assert c[k] == c[56..64][k - 56];
        }
      }
      assert b[..HEADER] == c[..HEADER];
      forall k | HEADER <= k < |b| && !ChecksumByte(b, HEADER, k)
        ensures b[k] == c[k]
      {
        FieldsLookForward(b, buf, HEADER, k);
        PutAt(buf, 56, Checksum(hash, buf[..56]), k);
      }
      RepairDetermined(hash, b, c, HEADER, HEADER);
      SoundIsKept(hash, c);
      PutSame(c, 56, Checksum(hash, c[..56]));
    }
  }

  // ----- the loop, in place

  method Write(a: array<Byte>, at: nat, part: seq<Byte>)
    requires at + |part| <= a.Length
    modifies a
    ensures a[..] == Put(old(a[..]), at, part)
  {
    ghost var before := a[..];
    for i := 0 to |part|
      invariant forall k :: 0 <= k < a.Length ==> a[k] == if at <= k < at + i then part[k - at] else before[k]
    {
      a[at + i] := part[i];
    }
    forall k: nat | k < a.Length
      ensures a[k] == Put(before, at, part)[k]
    {
      PutAt(before, at, part, k);
    }
  }

  /** Stores the checksum of bytes `[from, to)` at `at`. */
  method Stamp(hash: Hash, a: array<Byte>, at: nat, from: nat, to: nat, ghost buf: seq<Byte>)
    requires a[..] == buf && from <= to <= |buf| && at + 8 <= |buf|
    modifies a
    ensures a[..] == Put(buf, at, Checksum(hash, buf[from..to]))
  {
    assert a[from..to] == buf[from..to];
    Write(a, at, Checksum(hash, a[from..to]));
  }

  method StampSpan(hash: Hash, a: array<Byte>, at: nat, from: nat, length: nat, kind: nat, ghost buf: seq<Byte>)
    requires a[..] == buf && Framed(buf, at) && from <= at && length == Length(buf, at) && kind == Kind(buf, at)
    modifies a
    ensures a[..] == FixSpan(hash, buf, at, from)
  {
    if kind == 6 && length >= 16 && from <= at {
      Stamp(hash, a, at + 72, from, at, buf);
    }
  }

  method StampHeader(hash: Hash, a: array<Byte>, at: nat, ghost buf: seq<Byte>)
    requires a[..] == buf && Readable(buf, at)
    modifies a
    ensures a[..] == FixHeader(hash, buf, at)
  {
    Stamp(hash, a, at + 56, at, at + 56, buf);
  }

  method StampTrailer(hash: Hash, a: array<Byte>, at: nat, end: nat, ghost buf: seq<Byte>)
    requires a[..] == buf && at + 72 <= end <= |buf|
    modifies a
    ensures a[..] == FixTrailer(hash, buf, at, end)
  {
    Stamp(hash, a, end - 8, at, end - 8, buf);
  }

  method StampEnds(hash: Hash, a: array<Byte>, at: nat, end: nat, ghost buf: seq<Byte>)
    requires a[..] == buf && at + 72 <= end <= |buf|
    modifies a
    ensures a[..] == FixTrailer(hash, FixHeader(hash, buf, at), at, end)
  {
    StampHeader(hash, a, at, buf);
    StampTrailer(hash, a, at, end, FixHeader(hash, buf, at));
  }

  /** One turn of the loop; fails when the frame does not fit. */
  method RepairNext(hash: Hash, a: array<Byte>, at: nat, begin: nat, ghost buf: seq<Byte>)
    returns (ok: bool, end: nat, from: nat)
    requires a[..] == buf && begin <= at && Readable(buf, at)
    modifies a
    ensures ok <==> Framed(buf, at)
    ensures ok ==> end == End(buf, at) && from == Begin(buf, at, begin) && a[..] == RepairFrame(hash, buf, at, begin)
    ensures !ok ==> a[..] == buf
  {
    assert a[at + 8..at + 12] == buf[at + 8..at + 12];
    assert a[at + 4..at + 6] == buf[at + 4..at + 6];
    var length := FromLe(a[at + 8..at + 12]);
    end, from := at + 72 + length, begin;
    if end > a.Length {
      return false, end, from;
    }
    var kind := FromLe(a[at + 4..at + 6]);
    if kind == 1 {
      from := at;
    }
    StampSpan(hash, a, at, from, length, kind, buf);
    StampEnds(hash, a, at, end, FixSpan(hash, buf, at, from));
    ok := true;
  }

  /** Repairs the buffer in place; a buffer shorter than a file header is left
      alone. */
  method Repair(hash: Hash, a: array<Byte>)
    modifies a
    ensures a[..] == Repaired(hash, old(a[..]))
  {
    ghost var buf := a[..];
    if a.Length < 64 {
      return;
    }
    Stamp(hash, a, 56, 0, 56, buf);
    assert buf[0..56] == buf[..56];
    var at: nat, begin: nat := 64, 64;
    ghost var now := a[..];
    while a.Length - at >= 64
      invariant begin <= at <= a.Length == |now|
      invariant a[..] == now
      invariant Repaired(hash, buf) == RepairFrom(hash, now, at, begin)
    {
      var ok, end, from := RepairNext(hash, a, at, begin, now);
      if !ok {
        break;
      }
      now := RepairFrame(hash, now, at, begin);
      at, begin := end, from;
    }
  }
}
