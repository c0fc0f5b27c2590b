// The image file as both tools see it through stdio: fopen(path, "wb+"),
// fseek(SEEK_SET) and fwrite. Contents are bytes; a write past the end
// fills the gap with zeros, as a hole in a regular file reads back.
// Whether the C library call succeeds is decided by the environment, so
// the methods below choose it nondeterministically.
module Disk {
  import opened Bytes

  /** One positioned write: `data` stored at byte `offset`. */
  datatype WriteOp = WriteOp(offset: nat, data: seq<byte>)

  function Max(a: int, b: int): int { if a < b then b else a }

  /**
   * The file after storing `d` at `off`: an empty write changes nothing;
   * otherwise the file grows to cover the write, the written range holds
   * `d`, and every other byte is the old one, or zero where there was none.
   */
  function Overwrite(c: seq<byte>, off: nat, d: seq<byte>): (r: seq<byte>)
    ensures |d| == 0 ==> r == c
    ensures |d| > 0 ==> |r| == Max(|c|, off + |d|)
  {
    if |d| == 0 then c
    else
      var base := if off <= |c| then c else c + Zeros(off - |c|);
      base[..off] + d + (if off + |d| <= |base| then base[off + |d|..] else [])
  }

  /** Byte by byte: the written range holds `d`, every other byte is the old one or zero. */
  lemma OverwriteBytes(c: seq<byte>, off: nat, d: seq<byte>)
    ensures var r := Overwrite(c, off, d);
      && (forall i :: 0 <= i < |d| ==> off + i < |r| && r[off + i] == d[i])
      && (forall i :: 0 <= i < |r| && !(off <= i < off + |d|) ==> r[i] == (if i < |c| then c[i] else 0))
  {
  }

  /** The file after the writes of `ops`, in order. */
  function Apply(c: seq<byte>, ops: seq<WriteOp>): seq<byte>
  {
    if ops == [] then c
    else
      var last := ops[|ops| - 1];
      Overwrite(Apply(c, ops[..|ops| - 1]), last.offset, last.data)
  }

  /** One more write of the sequence applies on top of the ones before it. */
  lemma ApplyStep(c: seq<byte>, ops: seq<WriteOp>, k: nat)
    requires k < |ops|
    ensures Apply(c, ops[..k + 1]) == Overwrite(Apply(c, ops[..k]), ops[k].offset, ops[k].data)
  {
    assert ops[..k + 1][..k] == ops[..k];
  }

  /**
   * The file after the first `k` writes of `ops`, a prefix of the k-th write
   * stored (`m` bytes of it; none when the seek before it failed), and
   * nothing after: what is left when a sequence of writes is abandoned.
   */
  ghost predicate Abandoned(c0: seq<byte>, ops: seq<WriteOp>, c: seq<byte>)
  {
    exists k: nat {:trigger PartialWrite(Apply(c0, ops[..k]), ops[k].offset, ops[k].data, c)} ::
      k < |ops| && PartialWrite(Apply(c0, ops[..k]), ops[k].offset, ops[k].data, c)
  }

  /** Failing inside write k, after the first k succeeded, abandons the sequence. */
  lemma AbandonAt(c0: seq<byte>, ops: seq<WriteOp>, k: nat, c: seq<byte>)
    requires k < |ops| && PartialWrite(Apply(c0, ops[..k]), ops[k].offset, ops[k].data, c)
    ensures Abandoned(c0, ops, c)
  {
  }

  /** Two writes, one after the other. */
  lemma ApplyTwo(c: seq<byte>, a: WriteOp, b: WriteOp)
    ensures Apply(c, [a, b]) == Overwrite(Overwrite(c, a.offset, a.data), b.offset, b.data)
  {
    assert [a, b][..1] == [a] && [a][..0] == [];
    assert Apply(c, [a]) == Overwrite(Apply(c, []), a.offset, a.data);
    assert Apply(c, [a, b]) == Overwrite(Apply(c, [a]), b.offset, b.data);
  }

  /** Five writes, one after the other. */
  lemma ApplyFive(c: seq<byte>, ops: seq<WriteOp>)
    requires |ops| == 5
    ensures Apply(c, ops) == Overwrite(Overwrite(Overwrite(Overwrite(Overwrite(c,
      ops[0].offset, ops[0].data), ops[1].offset, ops[1].data), ops[2].offset, ops[2].data),
      ops[3].offset, ops[3].data), ops[4].offset, ops[4].data)
  {
    assert ops[..0] == [] && ops[..5] == ops;
    ApplyStep(c, ops, 0);
    ApplyStep(c, ops, 1);
    ApplyStep(c, ops, 2);
    ApplyStep(c, ops, 3);
    ApplyStep(c, ops, 4);
  }

  /** Writes in sequence: the writes of A + B are those of A, then those of B. */
  lemma {:induction false} ApplyConcat(c: seq<byte>, a: seq<WriteOp>, b: seq<WriteOp>)
    ensures Apply(c, a + b) == Apply(Apply(c, a), b)
  {
    if b == [] {
      assert a + b == a;
    } else {
      var n := |b| - 1;
      assert (a + b)[..|a + b| - 1] == a + b[..n];
      ApplyConcat(c, a, b[..n]);
    }
  }

  /** Abandoning the first writes of a sequence abandons the longer sequence. */
  lemma AbandonedPrefix(c0: seq<byte>, a: seq<WriteOp>, b: seq<WriteOp>, c: seq<byte>)
    requires Abandoned(c0, a, c)
    ensures Abandoned(c0, a + b, c)
  {
    var k: nat :| k < |a| && PartialWrite(Apply(c0, a[..k]), a[k].offset, a[k].data, c);
    assert (a + b)[..k] == a[..k] && (a + b)[k] == a[k];
  }

  /** Abandoning the later writes, after the first ones all succeeded, abandons the whole sequence. */
  lemma AbandonedAfter(c0: seq<byte>, a: seq<WriteOp>, b: seq<WriteOp>, c: seq<byte>)
    requires Abandoned(Apply(c0, a), b, c)
    ensures Abandoned(c0, a + b, c)
  {
    var k: nat :| k < |b| && PartialWrite(Apply(Apply(c0, a), b[..k]), b[k].offset, b[k].data, c);
    assert Apply(c0, (a + b)[..|a| + k]) == Apply(Apply(c0, a), b[..k]) by {
      assert (a + b)[..|a| + k] == a + b[..k];
      ApplyConcat(c0, a, b[..k]);
    }
    assert (a + b)[|a| + k] == b[k];
    AbandonAt(c0, a + b, |a| + k, c);
  }

  /**
   * Running `b` on the result of `a`: if all of `b` is done, so is all of
   * a + b; if `b` is abandoned, so is a + b.
   */
  lemma ThenWrites(c0: seq<byte>, a: seq<WriteOp>, b: seq<WriteOp>, c: seq<byte>, done: bool)
    requires done ==> c == Apply(Apply(c0, a), b)
    requires !done ==> Abandoned(Apply(c0, a), b, c)
    ensures done ==> c == Apply(c0, a + b)
    ensures !done ==> Abandoned(c0, a + b, c)
  {
    if done {
      ApplyConcat(c0, a, b);
    } else {
      AbandonedAfter(c0, a, b, c);
    }
  }

  /**
   * `after` is `before` with a proper prefix of `data` stored at `offset`:
   * the write did not complete (none of it when the seek before it failed).
   */
  ghost predicate PartialWrite(before: seq<byte>, offset: nat, data: seq<byte>, after: seq<byte>)
  {
    exists m :: 0 <= m < |data| && after == Overwrite(before, offset, data[..m])
  }

  /** Writes that all end by byte `bound`, on a file no longer than that, leave it no longer. */
  lemma {:induction false} ApplyWithin(c: seq<byte>, ops: seq<WriteOp>, bound: nat)
    requires |c| <= bound
    requires forall i :: 0 <= i < |ops| ==> ops[i].offset + |ops[i].data| <= bound
    ensures |Apply(c, ops)| <= bound
  {
    if ops != [] {
      ApplyWithin(c, ops[..|ops| - 1], bound);
    }
  }

  /**
   * When only the last of a sequence of writes reaches byte `end`, stopping
   * anywhere in the sequence leaves the file shorter than `end`.
   */
  lemma AbandonedShort(c0: seq<byte>, ops: seq<WriteOp>, c: seq<byte>, end: nat)
    requires |c0| < end && |ops| > 0
    requires forall i :: 0 <= i < |ops| - 1 ==> ops[i].offset + |ops[i].data| < end
    requires ops[|ops| - 1].offset + |ops[|ops| - 1].data| <= end
    requires Abandoned(c0, ops, c)
    ensures |c| < end
  {
    var k: nat :| k < |ops| && PartialWrite(Apply(c0, ops[..k]), ops[k].offset, ops[k].data, c);
    var m :| 0 <= m < |ops[k].data| && c == Overwrite(Apply(c0, ops[..k]), ops[k].offset, ops[k].data[..m]);
    ApplyWithin(c0, ops[..k], end - 1);
  }

  /** A write at the end of the file appends to it. */
  lemma OverwriteAppends(c: seq<byte>, d: seq<byte>)
    ensures Overwrite(c, |c|, d) == c + d
  {
    if |d| > 0 {
      assert c[..|c|] == c;
    }
  }

  /** Two writes back to back are one write of both. */
  lemma {:induction false} OverwriteConcat(c: seq<byte>, off: nat, d1: seq<byte>, d2: seq<byte>)
    ensures Overwrite(Overwrite(c, off, d1), off + |d1|, d2) == Overwrite(c, off, d1 + d2)
  {
    var a := Overwrite(Overwrite(c, off, d1), off + |d1|, d2);
    var b := Overwrite(c, off, d1 + d2);
    OverwriteBytes(c, off, d1);
    OverwriteBytes(Overwrite(c, off, d1), off + |d1|, d2);
    OverwriteBytes(c, off, d1 + d2);
    if |d1| == 0 {
      assert d1 + d2 == d2;
    } else if |d2| == 0 {
      assert d1 + d2 == d1;
    } else {
      assert |a| == |b|;
      forall i | 0 <= i < |a|
        ensures a[i] == b[i]
      {
        if off <= i < off + |d1| {
          assert a[i] == d1[i - off] == (d1 + d2)[i - off];
        } else if off + |d1| <= i < off + |d1| + |d2| {
          assert a[i] == d2[i - off - |d1|] == (d1 + d2)[i - off];
        }
      }
    }
  }

  /**
   * A write that covers an earlier one, and starts inside the file as it
   * was before the earlier one, leaves no trace of it.
   */
  lemma {:induction false} OverwriteCovers(c: seq<byte>, off: nat, d: seq<byte>, off': nat, d': seq<byte>)
    requires off' <= off && off + |d| <= off' + |d'| && off' <= |c| && |d'| > 0
    ensures Overwrite(Overwrite(c, off, d), off', d') == Overwrite(c, off', d')
  {
    var a := Overwrite(Overwrite(c, off, d), off', d');
    var b := Overwrite(c, off', d');
    OverwriteBytes(c, off, d);
    OverwriteBytes(Overwrite(c, off, d), off', d');
    OverwriteBytes(c, off', d');
    assert |a| == |b|;
    forall i | 0 <= i < |a|
      ensures a[i] == b[i]
    {
      if off' <= i < off' + |d'| {
        assert a[i] == d'[i - off'] == b[i];
      }
    }
  }

  /** A write leaves every byte range of the file that it does not touch as it was. */
  lemma OverwriteKeeps(c: seq<byte>, off: nat, d: seq<byte>, lo: nat, hi: nat)
    requires lo <= hi <= |c| && (hi <= off || off + |d| <= lo)
    ensures Overwrite(c, off, d)[lo..hi] == c[lo..hi]
  {
    OverwriteBytes(c, off, d);
  }

  /** What a write stores is what the file holds afterwards at its offset. */
  lemma OverwriteHolds(c: seq<byte>, off: nat, d: seq<byte>, lo: nat, hi: nat)
    requires off <= lo <= hi <= off + |d| && |d| > 0
    ensures Overwrite(c, off, d)[lo..hi] == d[lo - off..hi - off]
  {
    var r := Overwrite(c, off, d);
    OverwriteBytes(c, off, d);
    assert forall i :: lo <= i < hi ==> r[i] == d[i - off];
  }

  /** fopen(path, "wb+"): a new, empty file positioned at its start, or NULL. */
  method Open() returns (f: File?)
    ensures f != null ==> fresh(f) && f.contents == [] && f.pos == 0
  {
    var available: bool := *;
    if available {
      f := new File();
    } else {
      f := null;
    }
  }

  class File {
    var contents: seq<byte>
    var pos: nat

    constructor ()
      ensures contents == [] && pos == 0
    {
      contents := [];
      pos := 0;
    }

    /**
     * fseek(f, offset, SEEK_SET). The offset is a uint64_t passed as a long,
     * so one of 2^63 or more arrives negative and is refused; otherwise the
     * call may still fail, leaving the position where it was.
     */
    method Seek(offset: u64) returns (ok: bool)
      modifies this
      ensures contents == old(contents)
      ensures ok ==> offset < 0x8000_0000_0000_0000 && pos == offset
      ensures !ok ==> pos == old(pos)
    {
      var succeeded: bool := *;
      ok := succeeded && offset < 0x8000_0000_0000_0000;
      if ok {
        pos := offset;
      }
    }

    /**
     * fwrite(data, 1, |data|, f): stores some prefix of `data` at the
     * position, advances past it and returns its length; a return value
     * below |data| reports the failure.
     */
    method Write(data: seq<byte>) returns (n: nat)
      modifies this
      ensures n <= |data|
      ensures contents == Overwrite(old(contents), old(pos), data[..n])
      ensures pos == old(pos) + n
    {
      var k: int := *;
      n := if 0 <= k <= |data| then k else |data|;
      contents := Overwrite(contents, pos, data[..n]);
      pos := pos + n;
    }
  }
}
