/** The log while appends, rotations, quota deletions and reads interleave
    (internal/reporter/wal.go). An append is a run of writes; a reader holds no lock and may run
    between any two of them. */
module WalHistory {
  import opened Bytes
  import opened Options
  import opened WalFormat
  import opened WalRead
  import opened WalLog
  import opened WalWrite

  /** The directory, together with the history it came from: the entries of each surviving
      segment, the append in progress, every entry completely written so far, and how many of
      those the quota has deleted. */
  datatype Log = Log(
    dir: seq<File>,
    segs: seq<seq<Entry>>,
    torn: seq<byte>,
    writing: Option<Entry>,
    accepted: seq<Entry>,
    removed: nat)

  predicate Writing(crc: Checksum, torn: seq<byte>, writing: Option<Entry>) {
    match writing
    case None => true
    case Some(e) => |e| <= ENTRY_MAX && |torn| <= |Record(crc, e)| && torn == Record(crc, e)[..|torn|]
  }

  predicate LogInv(crc: Checksum, l: Log) {
    && Intact(crc, l.dir, l.segs, l.torn)
    && Listing(l.dir)
    && l.removed <= |l.accepted|
    && l.accepted[l.removed..] == Flatten(l.segs)
    && Writing(crc, l.torn, l.writing)
  }

  const EMPTY := Log([Present(0, [])], [[]], [], None, [], 0)

  /** The cursor has passed the first `pos` accepted entries; deleted ones count as passed. */
  ghost predicate Position(crc: Checksum, l: Log, cur: Cursor, pos: nat) {
    pos >= l.removed && Marks(crc, l.dir, l.segs, cur, pos - l.removed)
  }

  // ---------- The writes of one Append ----------

  /** Take the lock and rotate. A half-written record left by a crash must not be appended to. */
  function BeginAppend(l: Log, e: Entry): Log
    requires Listing(l.dir)
  {
    l.(dir := Rotate(l.dir),
       segs := if |Rotate(l.dir)| > |l.dir| then l.segs + [[]] else l.segs,
       writing := Some(e))
  }

  predicate CanBegin(l: Log, e: Entry) {
    l.writing.None? && l.torn == [] && |e| <= ENTRY_MAX
  }

  /** The header and the first bytes of the payload have reached the file. */
  function WriteUpTo(crc: Checksum, l: Log, n: nat): Log
    requires Listing(l.dir) && l.writing.Some? && |l.torn| <= n <= |Record(crc, l.writing.value)|
  {
    l.(dir := Write(l.dir, Record(crc, l.writing.value)[|l.torn|..n]),
       torn := Record(crc, l.writing.value)[..n])
  }

  predicate CanWriteUpTo(crc: Checksum, l: Log, n: nat) {
    l.writing.Some? && |l.torn| <= n < |Record(crc, l.writing.value)| && HEADER_SIZE <= n
  }

  /** The last write, before the quota is enforced. */
  function Complete(crc: Checksum, l: Log): Log
    requires Listing(l.dir) && l.writing.Some? && |l.torn| <= |Record(crc, l.writing.value)| && |l.segs| > 0
  {
    l.(dir := Write(l.dir, Record(crc, l.writing.value)[|l.torn|..]),
       segs := l.segs[|l.segs| - 1 := l.segs[|l.segs| - 1] + [l.writing.value]],
       torn := [],
       writing := None,
       accepted := l.accepted + [l.writing.value])
  }

  /** Delete the `d` oldest segments. */
  function DropFirst(l: Log, d: nat): Log
    requires d <= |l.dir| && d <= |l.segs|
  {
    l.(dir := l.dir[d..], segs := l.segs[d..], removed := l.removed + |Flatten(l.segs[..d])|)
  }

  /** Delete the oldest segments that are over the quota. */
  function Reclaim(l: Log, maxBytes: int): Log
    requires Listing(l.dir) && |l.segs| == |l.dir|
  {
    var d := |l.dir| - |Enforce(l.dir, maxBytes)|;
    if d <= 0 then l else DropFirst(l, d)
  }

  // ---------- The writes keep the log intact ----------

  lemma BeginAppendKeeps(crc: Checksum, l: Log, e: Entry)
    requires LogInv(crc, l) && CanBegin(l, e)
    ensures LogInv(crc, BeginAppend(l, e))
  {
    hide Encode, Flatten, Record, Torn;
    var l' := BeginAppend(l, e);
    if |l'.dir| > |l.dir| {
      assert |Rotate(l.dir)| == |l.dir| + 1;
      var last := |l.dir| - 1;
      assert l.dir[last].id == l.dir[0].id + last;
      assert Encode(crc, []) == [] by { EncodeNothing(crc); }
      forall i | 0 <= i < |l'.dir|
        ensures l'.dir[i] == Present(l'.dir[0].id + i, SegmentBytes(crc, l'.segs, [], i)) && Fits(l'.segs[i])
      {
        if i <= last { assert l'.dir[i] == l.dir[i] && l'.segs[i] == l.segs[i]; }
      }
      FlattenAppend(l.segs, [[]]);
      FlattenOne([]);
    } else {
      assert l'.dir == l.dir;
    }
  }

  lemma EncodeNothing(crc: Checksum)
    ensures Encode(crc, []) == []
  {
  }

  lemma WriteTail(crc: Checksum, dir: seq<File>, segs: seq<seq<Entry>>, torn: seq<byte>, bytes: seq<byte>,
                  segs': seq<seq<Entry>>, torn': seq<byte>)
    requires Intact(crc, dir, segs, torn) && Listing(dir) && Torn(torn') && |segs'| == |segs|
    requires forall i :: 0 <= i < |segs| - 1 ==> segs'[i] == segs[i]
    requires Fits(segs'[|segs| - 1])
    requires Encode(crc, segs'[|segs| - 1]) + torn' == Encode(crc, segs[|segs| - 1]) + torn + bytes
    ensures Intact(crc, Write(dir, bytes), segs', torn')
  {
    hide Encode, Torn, Fits, Sorted;
    var dir', last := Write(dir, bytes), |dir| - 1;
    forall i | 0 <= i < |dir'|
      ensures dir'[i] == Present(dir'[0].id + i, SegmentBytes(crc, segs', torn', i)) && Fits(segs'[i])
    {
      if i < last {
        assert dir'[i] == dir[i];
      } else {
        assert dir[last] == Present(dir[0].id + last, SegmentBytes(crc, segs, torn, last));
      }
    }
  }

  lemma TornPrefix(crc: Checksum, e: Entry, n: nat)
    requires |e| <= ENTRY_MAX && HEADER_SIZE <= n < |Record(crc, e)|
    ensures Torn(Record(crc, e)[..n])
  {
    hide Record;
    RecordHeader(crc, e, []);
    assert Record(crc, e)[..n][..4] == (Record(crc, e) + [])[..4];
  }

  lemma WriteUpToKeeps(crc: Checksum, l: Log, n: nat)
    requires LogInv(crc, l) && CanWriteUpTo(crc, l, n)
    ensures LogInv(crc, WriteUpTo(crc, l, n))
  {
    hide Encode, Flatten, Record, Torn, Intact, Listing;
    var r := Record(crc, l.writing.value);
    TornPrefix(crc, l.writing.value, n);
    assert l.torn + r[|l.torn|..n] == r[..n];
    assert |l.segs| > 0 && Fits(l.segs[|l.segs| - 1]) by { IntactShape(crc, l.dir, l.segs, l.torn); }
    var e := Encode(crc, l.segs[|l.segs| - 1]);
    assert e + r[..n] == e + l.torn + r[|l.torn|..n];
    WriteTail(crc, l.dir, l.segs, l.torn, r[|l.torn|..n], l.segs, r[..n]);
  }

  lemma IntactShape(crc: Checksum, dir: seq<File>, segs: seq<seq<Entry>>, torn: seq<byte>)
    requires Intact(crc, dir, segs, torn)
    ensures |dir| == |segs| > 0
    ensures forall i :: 0 <= i < |segs| ==> Fits(segs[i])
    ensures forall i :: 0 <= i < |segs| ==> dir[i].id == dir[0].id + i
  {
  }

  lemma CompleteKeeps(crc: Checksum, l: Log)
    requires LogInv(crc, l) && l.writing.Some?
    ensures LogInv(crc, Complete(crc, l))
  {
    hide Encode, Flatten, Record, Torn, Intact, Listing, Fits;
    IntactShape(crc, l.dir, l.segs, l.torn);
    var l' := Complete(crc, l);
    var e, last := l.writing.value, |l.segs| - 1;
    var r := Record(crc, e);
    assert l.torn + r[|l.torn|..] == r;
    EncodeSnoc(crc, l.segs[last], e);
    assert Encode(crc, l.segs[last]) + l.torn + r[|l.torn|..] == Encode(crc, l.segs[last]) + r;
    assert Encode(crc, l'.segs[last]) + [] == Encode(crc, l'.segs[last]);
    assert Fits(l'.segs[last]) by { FitsSnoc(l.segs[last], e); }
    TornNothing();
    WriteTail(crc, l.dir, l.segs, l.torn, r[|l.torn|..], l'.segs, []);
    FlattenLast(l.segs, e);
    assert l'.accepted[l.removed..] == l.accepted[l.removed..] + [e];
  }

  lemma FitsSnoc(es: seq<Entry>, e: Entry)
    requires Fits(es) && |e| <= ENTRY_MAX
    ensures Fits(es + [e])
  {
  }

  lemma FlattenLast(segs: seq<seq<Entry>>, e: Entry)
    requires |segs| > 0
    ensures Flatten(segs[|segs| - 1 := segs[|segs| - 1] + [e]]) == Flatten(segs) + [e]
  {
    var last := |segs| - 1;
    var segs' := segs[last := segs[last] + [e]];
    FlattenSplit(segs, last);
    FlattenSplit(segs', last);
    assert segs'[..last] == segs[..last];
    assert segs[last + 1..] == [] && segs'[last + 1..] == [];
    assert Flatten([]) == [];
  }

  lemma DropKeeps(crc: Checksum, l: Log, d: nat)
    requires LogInv(crc, l) && d < |l.dir|
    ensures |l.segs| == |l.dir| && LogInv(crc, DropFirst(l, d))
  {
    hide Encode, Flatten, Record, Torn, Fits;
    var l' := DropFirst(l, d);
    forall i | 0 <= i < |l'.dir|
      ensures l'.dir[i] == Present(l'.dir[0].id + i, SegmentBytes(crc, l'.segs, l.torn, i)) && Fits(l'.segs[i])
    {
      assert l'.dir[i] == l.dir[d + i] && l'.dir[0] == l.dir[d] && l'.segs[i] == l.segs[d + i];
    }
    assert l.segs == l.segs[..d] + l.segs[d..];
    FlattenAppend(l.segs[..d], l.segs[d..]);
    assert l'.accepted[l'.removed..] == l.accepted[l.removed..][|Flatten(l.segs[..d])|..];
  }

  lemma ReclaimKeeps(crc: Checksum, l: Log, maxBytes: int)
    requires LogInv(crc, l)
    ensures |l.segs| == |l.dir| && LogInv(crc, Reclaim(l, maxBytes))
    ensures Reclaim(l, maxBytes).dir == Enforce(l.dir, maxBytes)
  {
    hide LogInv, Enforce;
    assert |l.segs| == |l.dir| && Listing(l.dir) by { LogShape(crc, l); }
    EnforceSuffix(l.dir, maxBytes);
    DropKeeps(crc, l, |l.dir| - |Enforce(l.dir, maxBytes)|);
  }

  lemma LogShape(crc: Checksum, l: Log)
    requires LogInv(crc, l)
    ensures |l.segs| == |l.dir| > 0 && Listing(l.dir)
    ensures forall i :: 0 <= i < |l.dir| ==> l.dir[i].id == l.dir[0].id + i
  {
    IntactShape(crc, l.dir, l.segs, l.torn);
  }

  lemma WriteTwice(dir: seq<File>, r: seq<byte>, n: nat)
    requires Listing(dir) && n <= |r|
    ensures Write(Write(dir, r[0..n]), r[n..]) == Write(dir, r)
  {
    assert r[0..n] + r[n..] == r;
    assert Active(dir).data + r[0..n] + r[n..] == Active(dir).data + r;
  }

  /** The writes of one append, however they are split, amount to `Append`. */
  lemma AppendIsMicroSteps(crc: Checksum, l: Log, e: Entry, n: nat, maxBytes: int)
    requires LogInv(crc, l) && CanBegin(l, e)
    requires n == 0 || CanWriteUpTo(crc, BeginAppend(l, e), n)
    ensures LogInv(crc, WriteUpTo(crc, BeginAppend(l, e), n))
    ensures var b, w := BeginAppend(l, e), WriteUpTo(crc, BeginAppend(l, e), n);
            Listing(w.dir) && Active(w.dir).data == Active(b.dir).data + Record(crc, e)[..n]
    ensures LogInv(crc, Complete(crc, WriteUpTo(crc, BeginAppend(l, e), n)))
    ensures Reclaim(Complete(crc, WriteUpTo(crc, BeginAppend(l, e), n)), maxBytes).dir
         == AppendTo(crc, l.dir, e, maxBytes)
  {
    hide Encode, Flatten, Record, Torn, Intact, Enforce;
    var b := BeginAppend(l, e);
    BeginAppendKeeps(crc, l, e);
    var w := WriteUpTo(crc, b, n);
    var r := Record(crc, e);
    if n == 0 {
      assert Active(b.dir).data + r[0..0] == Active(b.dir).data;
      assert w == b;
    } else {
      WriteUpToKeeps(crc, b, n);
    }
    IntactShape(crc, w.dir, w.segs, w.torn);
    var c := Complete(crc, w);
    CompleteKeeps(crc, w);
    ReclaimKeeps(crc, c, maxBytes);
    assert c.dir == Write(b.dir, r) by { WriteTwice(b.dir, r, n); }
  }

  // ---------- Cursors survive what happens to the log ----------

  lemma MarksGrow(crc: Checksum, dir: seq<File>, segs: seq<seq<Entry>>,
                  dir': seq<File>, segs': seq<seq<Entry>>, cur: Cursor, p: nat)
    requires |dir| == |segs| > 0 && |dir'| == |segs'| >= |segs| && dir'[0].id == dir[0].id
    requires forall i :: 0 <= i < |segs| - 1 ==> segs'[i] == segs[i]
    requires segs[|segs| - 1] <= segs'[|segs| - 1]
    requires Marks(crc, dir, segs, cur, p)
    ensures Marks(crc, dir', segs', cur, p)
  {
    hide Encode, Flatten;
    if !(cur.segment < dir[0].id) {
      var i: nat, n: nat :| At(crc, dir, segs, cur, i, n) && p == |Flatten(segs[..i])| + n;
      assert segs'[i][..n] == segs[i][..n];
      assert At(crc, dir', segs', cur, i, n);
      assert segs'[..i] == segs[..i];
    }
  }

  lemma MarksEvict(crc: Checksum, dir: seq<File>, segs: seq<seq<Entry>>, d: nat, cur: Cursor, p: nat)
    requires |dir| == |segs| && d < |dir| && dir[d].id == dir[0].id + d
    requires Marks(crc, dir, segs, cur, p)
    requires cur.segment >= dir[d].id || cur.offset == 0
    ensures var r := |Flatten(segs[..d])|;
            Marks(crc, dir[d..], segs[d..], cur, if p > r then p - r else 0)
  {
    hide Encode;
    if cur.segment >= dir[d].id {
      var i: nat, n: nat :| At(crc, dir, segs, cur, i, n) && p == |Flatten(segs[..i])| + n;
      assert At(crc, dir[d..], segs[d..], cur, i - d, n);
      assert segs[..i] == segs[..d] + segs[d..][..i - d];
      FlattenAppend(segs[..d], segs[d..][..i - d]);
    } else if !(cur.segment < dir[0].id) {
      var i: nat, n: nat :| At(crc, dir, segs, cur, i, n) && p == |Flatten(segs[..i])| + n;
      assert n == 0 by { if n > 0 { BoundaryPositive(crc, segs[i], n); } }
      assert segs[..d] == segs[..i] + segs[i..d];
      FlattenAppend(segs[..i], segs[i..d]);
    }
  }

  lemma BoundaryPositive(crc: Checksum, es: seq<Entry>, n: nat)
    requires 0 < n <= |es|
    ensures Boundary(crc, es, n) >= HEADER_SIZE
  {
  }

  lemma BeginAppendPosition(crc: Checksum, l: Log, e: Entry, cur: Cursor, pos: nat)
    requires LogInv(crc, l) && CanBegin(l, e) && Position(crc, l, cur, pos)
    ensures Position(crc, BeginAppend(l, e), cur, pos)
  {
    hide Intact, Marks;
    IntactShape(crc, l.dir, l.segs, l.torn);
    var l' := BeginAppend(l, e);
    MarksGrow(crc, l.dir, l.segs, l'.dir, l'.segs, cur, pos - l.removed);
  }

  lemma WriteUpToPosition(crc: Checksum, l: Log, n: nat, cur: Cursor, pos: nat)
    requires LogInv(crc, l) && CanWriteUpTo(crc, l, n) && Position(crc, l, cur, pos)
    ensures Position(crc, WriteUpTo(crc, l, n), cur, pos)
  {
    hide Intact, Marks, Record;
    IntactShape(crc, l.dir, l.segs, l.torn);
    MarksGrow(crc, l.dir, l.segs, WriteUpTo(crc, l, n).dir, l.segs, cur, pos - l.removed);
  }

  lemma CompletePosition(crc: Checksum, l: Log, cur: Cursor, pos: nat)
    requires LogInv(crc, l) && l.writing.Some? && Position(crc, l, cur, pos)
    ensures Position(crc, Complete(crc, l), cur, pos)
  {
    hide Intact, Marks, Record;
    IntactShape(crc, l.dir, l.segs, l.torn);
    var l' := Complete(crc, l);
    MarksGrow(crc, l.dir, l.segs, l'.dir, l'.segs, cur, pos - l.removed);
  }

  /** A cursor whose segment the quota deletes is usable only at offset 0. */
  predicate Survives(dir: seq<File>, cur: Cursor) {
    |dir| > 0 && (cur.segment >= dir[0].id || cur.offset == 0)
  }

  lemma DropPosition(crc: Checksum, l: Log, d: nat, cur: Cursor, pos: nat)
    requires LogInv(crc, l) && Position(crc, l, cur, pos) && d < |l.dir| == |l.segs|
    requires Survives(l.dir[d..], cur)
    ensures var l' := DropFirst(l, d);
            Position(crc, l', cur, if pos > l'.removed then pos else l'.removed)
  {
    hide Intact, Marks;
    IntactShape(crc, l.dir, l.segs, l.torn);
    assert l.dir[d..][0] == l.dir[d];
    MarksEvict(crc, l.dir, l.segs, d, cur, pos - l.removed);
  }

  lemma MarksFirst(crc: Checksum, dir: seq<File>, segs: seq<seq<Entry>>)
    requires |dir| == |segs| > 0
    ensures Marks(crc, dir, segs, Cursor(dir[0].id, 0), 0)
  {
    assert At(crc, dir, segs, Cursor(dir[0].id, 0), 0, 0);
    assert Flatten(segs[..0]) == [];
  }

  /** A cursor has exactly the accepted entries from its position on ahead of it. */
  lemma PositionAhead(crc: Checksum, l: Log, cur: Cursor, pos: nat)
    requires LogInv(crc, l) && Position(crc, l, cur, pos)
    ensures l.removed <= pos <= |l.accepted| && Ahead(crc, l.dir, cur) == l.accepted[pos..]
  {
    hide Intact, Marks, Ahead, Flatten;
    AheadOfMark(crc, l.dir, l.segs, l.torn, cur, pos - l.removed);
    assert l.accepted[l.removed..][pos - l.removed..] == l.accepted[pos..];
  }

  lemma PositionBound(crc: Checksum, l: Log, cur: Cursor, pos: nat)
    requires LogInv(crc, l) && Position(crc, l, cur, pos)
    ensures pos <= |l.accepted|
  {
    hide LogInv, Position, Ahead;
    PositionAhead(crc, l, cur, pos);
  }
}
