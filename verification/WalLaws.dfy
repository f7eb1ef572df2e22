/** The result of the repair read off the bytes: which frames the walk meets and
    which bytes each stored checksum covers, without the functions the repair
    is made of. */
module WalLaws {
  import opened Bytes
  import opened WalRepair

  /** The four bytes at 8 and the two bytes at 4 of a frame. */
  function LengthBytes(buf: seq<Byte>, at: nat): nat
    requires at + 64 <= |buf|
  {
    buf[at + 8] as int + 0x100 * buf[at + 9] as int + 0x1_0000 * buf[at + 10] as int + 0x100_0000 * buf[at + 11] as int
  }

  function KindBytes(buf: seq<Byte>, at: nat): nat
    requires at + 64 <= |buf|
  {
    buf[at + 4] as int + 0x100 * buf[at + 5] as int
  }

  lemma FieldsAreBytes(buf: seq<Byte>, at: nat)
    requires at + 64 <= |buf|
    ensures Length(buf, at) == LengthBytes(buf, at) && Kind(buf, at) == KindBytes(buf, at)
  {
    ShortWords(buf[at + 8..at + 12]);
    ShortWords(buf[at + 4..at + 6]);
  }

  /** The frames lie one behind the other from `at` on, each as long as its own
      bytes say, and stop only where no further frame fits. */
  predicate Frames(buf: seq<Byte>, at: nat, frames: seq<Frame>)
    decreases |frames|
  {
    if frames == [] then at + 64 > |buf| || at + 72 + LengthBytes(buf, at) > |buf|
    else
      && at + 64 <= |buf| && frames[0] == Frame(at, at + 72 + LengthBytes(buf, at), KindBytes(buf, at))
      && frames[0].end <= |buf| && Frames(buf, frames[0].end, frames[1..])
  }

  lemma {:induction false} WalkMeetsTheFrames(buf: seq<Byte>, at: nat)
    ensures Frames(buf, at, Walk(buf, at))
    decreases |buf| - at
  {
    if at + 64 <= |buf| {
      FieldsAreBytes(buf, at);
      if Framed(buf, at) {
        WalkMeetsTheFrames(buf, End(buf, at));
        assert Walk(buf, at)[1..] == Walk(buf, End(buf, at));
      }
    }
  }

  /** The start of the last frame of kind 1 up to and including frame `i`, or
      `none` when there is no such frame. */
  predicate IsLastBegin(frames: seq<Frame>, i: nat, none: nat, b: nat)
    requires i < |frames|
  {
    || (b == none && forall j :: 0 <= j <= i ==> frames[j].kind != 1)
    || (exists j :: 0 <= j <= i && frames[j].kind == 1 && frames[j].at == b && forall k :: j < k <= i ==> frames[k].kind != 1)
  }

  /** The three checksums of a frame whose commit span starts at `b`. */
  predicate Matches(hash: Hash, buf: seq<Byte>, f: Frame, b: nat) {
    && b <= f.at && f.at + 72 <= f.end <= |buf|
    && buf[f.at + 56..f.at + 64] == Checksum(hash, buf[f.at..f.at + 56])
    && buf[f.end - 8..f.end] == Checksum(hash, buf[f.at..f.end - 8])
    && (f.kind == 6 && f.end - f.at >= 88 ==> buf[f.at + 72..f.at + 80] == Checksum(hash, buf[b..f.at]))
  }

  lemma LaterBegin(frames: seq<Frame>, i: nat, none: nat, b: nat)
    requires 0 < i < |frames| && IsLastBegin(frames, i, none, b)
    ensures IsLastBegin(frames[1..], i - 1, if frames[0].kind == 1 then frames[0].at else none, b)
  {
    var rest := frames[1..];
    assert forall j :: 1 <= j <= i ==> frames[j] == rest[j - 1];
    if exists j :: 1 <= j <= i && frames[j].kind == 1 {
      var j :| 0 <= j <= i && frames[j].kind == 1 && frames[j].at == b && forall k :: j < k <= i ==> frames[k].kind != 1;
      assert j > 0;
      assert rest[j - 1].kind == 1 && rest[j - 1].at == b;
      assert forall k :: j - 1 < k <= i - 1 ==> rest[k] == frames[k + 1];
    }
  }

  lemma {:induction false} ConsistentFramesMatch(hash: Hash, buf: seq<Byte>, at: nat, begin: nat, i: nat, b: nat)
    requires begin <= at <= |buf| && Consistent(hash, buf, at, begin)
    requires i < |Walk(buf, at)| && IsLastBegin(Walk(buf, at), i, begin, b)
    ensures Matches(hash, buf, Walk(buf, at)[i], b)
    decreases i
  {
    var frames, from := Walk(buf, at), Begin(buf, at, begin);
    assert frames == [Frame(at, End(buf, at), Kind(buf, at))] + Walk(buf, End(buf, at));
    if i == 0 {
      assert b == from;
    } else {
      assert frames[1..] == Walk(buf, End(buf, at));
      LaterBegin(frames, i, begin, b);
      ConsistentFramesMatch(hash, buf, End(buf, at), from, i - 1, b);
    }
  }

  /** After the repair, every frame met in the input carries the checksums of the
      final bytes: of its header, of everything before its trailer and, for a
      commit frame of length 16 or more, of the bytes from the last begin frame
      (the end of the file header if there is none) up to it. */
  lemma RepairedFramesMatch(hash: Hash, buf: seq<Byte>, i: nat, b: nat)
    requires |buf| >= 64 && i < |Walk(buf, 64)| && IsLastBegin(Walk(buf, 64), i, 64, b)
    ensures Matches(hash, Repaired(hash, buf), Walk(buf, 64)[i], b)
    ensures Repaired(hash, buf)[56..64] == Checksum(hash, Repaired(hash, buf)[..56])
  {
    RepairedIsSound(hash, buf);
    ConsistentFramesMatch(hash, Repaired(hash, buf), 64, 64, i, b);
  }

  /** Every frame has exactly one such start. */
  lemma {:induction false} LastBeginExists(frames: seq<Frame>, i: nat, none: nat) returns (b: nat)
    requires i < |frames|
    ensures IsLastBegin(frames, i, none, b)
    decreases i
  {
    if frames[i].kind == 1 {
      b := frames[i].at;
    } else if i == 0 {
      b := none;
    } else {
      b := LastBeginExists(frames, i - 1, none);
    }
  }

  /** A stored checksum is the hash, least significant byte first. */
  lemma ChecksumBytes(hash: Hash, s: seq<Byte>, i: nat)
    requires i < 8
    ensures Checksum(hash, s)[i] == hash(s) / Pow256(i) % 0x100
  {
    ToLeDigit(hash(s), 8, i);
  }

  /** Byte `k` is in none of the frame's checksums. */
  predicate Outside(f: Frame, k: nat) {
    && !(f.at + 56 <= k < f.at + 64) && !(f.end - 8 <= k < f.end)
    && (f.kind == 6 && f.end - f.at >= 88 ==> !(f.at + 72 <= k < f.at + 80))
  }

  lemma {:induction false} FieldsLieInFrames(buf: seq<Byte>, at: nat, k: nat)
    requires forall i :: 0 <= i < |Walk(buf, at)| ==> Outside(Walk(buf, at)[i], k)
    ensures !ChecksumByte(buf, at, k)
    decreases |buf| - at
  {
    if Framed(buf, at) {
      var frames, rest := Walk(buf, at), Walk(buf, End(buf, at));
      assert Outside(frames[0], k);
      forall i | 0 <= i < |rest|
        ensures Outside(rest[i], k)
      {
        assert frames[i + 1] == rest[i];
      }
      FieldsLieInFrames(buf, End(buf, at), k);
    }
  }

  /** The repair writes nothing but the file header's checksum and those of the
      frames it meets. */
  lemma RepairWritesOnlyChecksums(hash: Hash, buf: seq<Byte>, k: nat)
    requires k < |buf| && !(56 <= k < 64) && forall i :: 0 <= i < |Walk(buf, 64)| ==> Outside(Walk(buf, 64)[i], k)
    ensures Repaired(hash, buf)[k] == buf[k]
  {
    FieldsLieInFrames(buf, 64, k);
    OnlyChecksumsChange(hash, buf, k);
  }
}
