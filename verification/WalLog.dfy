/** Segments written by `Append` as a flat log, and what a cursor denotes in it. */
module WalLog {
  import opened Bytes
  import opened WalFormat
  import opened WalRead

  function Flatten(log: seq<seq<Entry>>): seq<Entry> {
    if log == [] then [] else log[0] + Flatten(log[1..])
  }

  function SegmentBytes(crc: Checksum, log: seq<seq<Entry>>, torn: seq<byte>, i: nat): seq<byte>
    requires i < |log|
  {
    Encode(crc, log[i]) + if i == |log| - 1 then torn else []
  }

  /** The directory holds exactly the entries of `log`, segment by segment, in consecutively
      numbered files; only the newest may end in a half-written record. */
  predicate Intact(crc: Checksum, dir: seq<File>, log: seq<seq<Entry>>, torn: seq<byte>) {
    && |dir| == |log| > 0
    && Torn(torn)
    && forall i :: 0 <= i < |dir| ==>
         && dir[i] == Present(dir[0].id + i, SegmentBytes(crc, log, torn, i))
         && Fits(log[i])
  }

  /** The cursor stands on the boundary of entry `n` of segment `dir[0].id + i`. */
  predicate At(crc: Checksum, dir: seq<File>, log: seq<seq<Entry>>, cur: Cursor, i: nat, n: nat) {
    && |dir| == |log| && i < |log| && n <= |log[i]|
    && cur == Cursor(dir[0].id + i, Boundary(crc, log[i], n))
  }

  /** The cursor has consumed the first `p` entries of the flat log. A cursor whose segment was
      deleted is meaningful only at offset 0. */
  ghost predicate Marks(crc: Checksum, dir: seq<File>, log: seq<seq<Entry>>, cur: Cursor, p: nat) {
    || (|dir| > 0 && cur.segment < dir[0].id && cur.offset == 0 && p == 0)
    || (exists i: nat, n: nat ::
          At(crc, dir, log, cur, i, n) && p == |Flatten(log[..i])| + n)
  }

  // ---------- Flattening ----------

  lemma {:induction false} FlattenAppend(a: seq<seq<Entry>>, b: seq<seq<Entry>>)
    ensures Flatten(a + b) == Flatten(a) + Flatten(b)
  {
    if a == [] {
      assert a + b == b;
    } else {
      assert (a + b)[1..] == a[1..] + b;
      FlattenAppend(a[1..], b);
    }
  }

  lemma FlattenSplit(log: seq<seq<Entry>>, i: nat)
    requires i < |log|
    ensures Flatten(log) == Flatten(log[..i]) + log[i] + Flatten(log[i + 1..])
  {
    assert log == log[..i] + log[i..];
    FlattenAppend(log[..i], log[i..]);
    assert log[i..][1..] == log[i + 1..];
  }

  lemma FlattenOne(es: seq<Entry>)
    ensures Flatten([es]) == es
  {
    assert Flatten([es]) == es + Flatten([es][1..]);
  }

  // ---------- Reading an intact log ----------

  lemma IntactSorted(crc: Checksum, dir: seq<File>, log: seq<seq<Entry>>, torn: seq<byte>)
    requires Intact(crc, dir, log, torn)
    ensures Sorted(dir)
  {
    hide SegmentBytes, Torn, Fits;
    forall i, j | 0 <= i < j < |dir| ensures dir[i].id < dir[j].id {
      assert dir[i].id == dir[0].id + i && dir[j].id == dir[0].id + j;
    }
  }

  lemma {:induction false} AheadDrop(crc: Checksum, view: seq<File>, cur: Cursor, i: nat)
    requires i <= |view| && forall j :: 0 <= j < i ==> view[j].id < cur.segment
    ensures Ahead(crc, view, cur) == Ahead(crc, view[i..], cur)
  {
    if i == 0 {
      assert view[0..] == view;
    } else {
      AheadDrop(crc, view[1..], cur, i - 1);
      assert view[1..][i - 1..] == view[i..];
    }
  }

  lemma SegmentReadable(crc: Checksum, dir: seq<File>, log: seq<seq<Entry>>, torn: seq<byte>, i: nat, n: nat)
    requires Intact(crc, dir, log, torn) && i < |log| && n <= |log[i]|
    ensures ReadableFile(crc, dir[i], Boundary(crc, log[i], n)) == log[i][n..]
  {
    hide Readable, Torn, Encode;
    var t := if i == |log| - 1 then torn else [];
    assert Torn([]) by { TornNothing(); }
    assert dir[i].data == Encode(crc, log[i]) + t;
    ReadFromBoundary(crc, log[i], t, n);
  }

  lemma TornNothing()
    ensures Torn([])
  {
  }

  lemma {:induction false} AheadWhole(crc: Checksum, dir: seq<File>, log: seq<seq<Entry>>, torn: seq<byte>, i: nat, c: Cursor)
    requires Intact(crc, dir, log, torn) && i <= |log|
    requires c.segment <= dir[0].id + i && c.offset == 0
    ensures Ahead(crc, dir[i..], c) == Flatten(log[i..])
    decreases |log| - i
  {
    hide SegmentBytes, Torn, Fits, ReadableFile;
    if i == |log| {
    } else {
      assert dir[i].id == dir[0].id + i;
      assert dir[i..][1..] == dir[i + 1..] && log[i..][1..] == log[i + 1..];
      AheadWhole(crc, dir, log, torn, i + 1, Cursor(dir[i].id + 1, 0));
      SegmentReadable(crc, dir, log, torn, i, 0);
      assert Boundary(crc, log[i], 0) == 0;
    }
  }

  /** A cursor that has consumed `p` entries has exactly the others in front of it. */
  lemma AheadOfMark(crc: Checksum, dir: seq<File>, log: seq<seq<Entry>>, torn: seq<byte>, cur: Cursor, p: nat)
    requires Intact(crc, dir, log, torn) && Marks(crc, dir, log, cur, p)
    ensures p <= |Flatten(log)| && Ahead(crc, dir, cur) == Flatten(log)[p..]
  {
    hide SegmentBytes, Torn, Fits, ReadableFile, Flatten, Boundary;
    if cur.segment < dir[0].id {
      AheadWhole(crc, dir, log, torn, 0, cur);
      assert dir[0..] == dir && log[0..] == log;
    } else {
      var i: nat, n: nat :| At(crc, dir, log, cur, i, n) && p == |Flatten(log[..i])| + n;
      forall j | 0 <= j < i ensures dir[j].id < cur.segment {
        assert dir[j].id == dir[0].id + j;
      }
      AheadDrop(crc, dir, cur, i);
      assert dir[i].id == cur.segment;
      assert dir[i..][1..] == dir[i + 1..];
      AheadWhole(crc, dir, log, torn, i + 1, Cursor(cur.segment + 1, 0));
      SegmentReadable(crc, dir, log, torn, i, n);
      FlattenSplit(log, i);
      assert Flatten(log)[p..] == log[i][n..] + Flatten(log[i + 1..]);
    }
  }

  ghost predicate Good(crc: Checksum, dir: seq<File>, log: seq<seq<Entry>>, cur: Cursor) {
    exists p: nat :: Marks(crc, dir, log, cur, p)
  }

  lemma GoodAt(crc: Checksum, dir: seq<File>, log: seq<seq<Entry>>, cur: Cursor, i: nat, n: nat)
    requires At(crc, dir, log, cur, i, n)
    ensures Good(crc, dir, log, cur)
  {
    assert Marks(crc, dir, log, cur, |Flatten(log[..i])| + n);
  }

  /** Reading keeps the cursor on record boundaries. */
  lemma {:induction false} VisitGood(crc: Checksum, dir: seq<File>, log: seq<seq<Entry>>, torn: seq<byte>,
                                     i: nat, cur: Cursor, out: seq<Entry>, max: int)
    requires Intact(crc, dir, log, torn) && i <= |dir| && Good(crc, dir, log, cur)
    requires cur.segment < dir[0].id + i ==> cur.offset == 0 || i == |dir|
    ensures Good(crc, dir, log, Visit(crc, dir[i..], dir[0].id + |dir| - 1, cur, out, max).1)
    decreases |dir| - i
  {
    hide SegmentBytes, Fits, Torn, Good, ScanFile;
    if i < |dir| {
      var f, last := dir[i], dir[0].id + |dir| - 1;
      assert f.id == dir[0].id + i;
      assert dir[i..][0] == f && dir[i..][1..] == dir[i + 1..];
      if f.id < cur.segment || |out| >= max {
        if |out| >= max {
          VisitIdle(crc, dir[i + 1..], last, cur, out, max);
        } else {
          VisitGood(crc, dir, log, torn, i + 1, cur, out, max);
        }
      } else {
        var s := ScanFile(crc, f, cur.offset, max - |out|);
        var cur' := if s.offset > 0 then Cursor(f.id, s.offset) else cur;
        ScanGood(crc, dir, log, torn, i, cur, max - |out|);
        if |out + s.entries| < max {
          if f.id < last {
            var next := Cursor(f.id + 1, 0);
            assert At(crc, dir, log, next, i + 1, 0);
            GoodAt(crc, dir, log, next, i + 1, 0);
            VisitGood(crc, dir, log, torn, i + 1, next, out + s.entries, max);
          } else {
            VisitGood(crc, dir, log, torn, i + 1, cur', out + s.entries, max);
          }
        }
      }
    }
  }

  lemma ScanGood(crc: Checksum, dir: seq<File>, log: seq<seq<Entry>>, torn: seq<byte>, i: nat, cur: Cursor, max: int)
    requires Intact(crc, dir, log, torn) && i < |dir| && Good(crc, dir, log, cur)
    requires cur.segment <= dir[0].id + i && (cur.segment < dir[0].id + i ==> cur.offset == 0)
    ensures var s := ScanFile(crc, dir[i], cur.offset, max);
            Good(crc, dir, log, if s.offset > 0 then Cursor(dir[i].id, s.offset) else cur)
  {
    hide Torn, Fits, Scan, Flatten, Encode;
    var n: nat := 0;
    if cur.segment == dir[0].id + i {
      var p: nat :| Marks(crc, dir, log, cur, p);
      var j: nat, m: nat :| At(crc, dir, log, cur, j, m) && p == |Flatten(log[..j])| + m;
      n := m;
    }
    assert cur.offset == Boundary(crc, log[i], n) by { BoundaryZero(crc, log[i]); }
    var t := if i == |log| - 1 then torn else [];
    TornNothing();
    ScanToBoundary(crc, log[i], t, n, max);
    var s := ScanFile(crc, dir[i], cur.offset, max);
    assert At(crc, dir, log, Cursor(dir[i].id, s.offset), i, n + |s.entries|);
    GoodAt(crc, dir, log, Cursor(dir[i].id, s.offset), i, n + |s.entries|);
  }

  lemma BoundaryZero(crc: Checksum, es: seq<Entry>)
    ensures Boundary(crc, es, 0) == 0
  {
  }

  /** `ReadFrom` refines the flat log: from a cursor that has consumed `p` entries it returns the
      entries `p, p+1, ...` in order, at most `max` of them, and a cursor that has consumed those too. */
  lemma ReadIntact(crc: Checksum, dir: seq<File>, log: seq<seq<Entry>>, torn: seq<byte>, cur: Cursor, p: nat, max: int)
    requires Intact(crc, dir, log, torn) && Marks(crc, dir, log, cur, p)
    ensures var (out, next) := ReadFrom(crc, dir, cur, max);
            && p <= |Flatten(log)|
            && out == Take(Flatten(log)[p..], max)
            && Marks(crc, dir, log, next, p + |out|)
  {
    hide Visit, Ahead, Flatten, Marks, Everything;
    MarkInRange(crc, dir, log, torn, cur, p);
    IntactSorted(crc, dir, log, torn);
    ReadFromTakes(crc, dir, cur, max);
    AheadOfMark(crc, dir, log, torn, cur, p);
    var (out, next) := ReadFrom(crc, dir, cur, max);
    assert Good(crc, dir, log, next) by {
      assert dir[0..] == dir;
      VisitGood(crc, dir, log, torn, 0, cur, [], max);
    }
    var q: nat :| Marks(crc, dir, log, next, q);
    AheadOfMark(crc, dir, log, torn, next, q);
    assert |Flatten(log)| - q == |Drop(Flatten(log)[p..], max)|;
  }

  lemma MarkInRange(crc: Checksum, dir: seq<File>, log: seq<seq<Entry>>, torn: seq<byte>, cur: Cursor, p: nat)
    requires Intact(crc, dir, log, torn) && Marks(crc, dir, log, cur, p)
    ensures Normalize(dir, cur) == cur && dir[|dir| - 1].id == dir[0].id + |dir| - 1
    ensures cur.segment < dir[0].id ==> cur.offset == 0
  {
    hide SegmentBytes, Torn, Fits, Boundary, Flatten;
  }
}
