/** `ReadFrom`: a cursor over the segments of a log (internal/reporter/wal.go). */
module WalRead {
  import opened Bytes
  import opened WalFormat

  /** A segment file as one call of `ReadFrom` sees it. A file listed at the start of the
      call may have been deleted by the quota before it is opened. */
  datatype File = Present(id: nat, data: seq<byte>) | Gone(id: nat)

  datatype Cursor = Cursor(segment: nat, offset: nat)

  const START := Cursor(0, 0)

  predicate Sorted(view: seq<File>) {
    forall i, j :: 0 <= i < j < |view| ==> view[i].id < view[j].id
  }

  function ScanFile(crc: Checksum, f: File, off: nat, max: int): Scanned {
    match f
    case Present(_, data) => Scan(crc, data, off, max)
    case Gone(_) => Scanned([], off, false)
  }

  function ReadableFile(crc: Checksum, f: File, off: nat): seq<Entry> {
    match f
    case Present(_, data) => Readable(crc, data, off)
    case Gone(_) => []
  }

  /** The loop of `ReadFrom` over the files left in `view`; `last` is the newest segment. */
  function Visit(crc: Checksum, view: seq<File>, last: nat, cur: Cursor, out: seq<Entry>, max: int)
    : (seq<Entry>, Cursor)
  {
    if view == [] then (out, cur)
    else
      var f := view[0];
      if f.id < cur.segment || |out| >= max then Visit(crc, view[1..], last, cur, out, max)
      else
        var s := ScanFile(crc, f, cur.offset, max - |out|);
        var out' := out + s.entries;
        var cur' := if s.offset > 0 then Cursor(f.id, s.offset) else cur;
        if |out'| >= max then (out', cur')
        else Visit(crc, view[1..], last, if f.id < last then Cursor(f.id + 1, 0) else cur', out', max)
  }

  /** A cursor beyond the newest segment restarts from the beginning. */
  function Normalize(view: seq<File>, cur: Cursor): Cursor {
    if view != [] && cur.segment > view[|view| - 1].id then START else cur
  }

  function ReadFrom(crc: Checksum, view: seq<File>, cur: Cursor, max: int): (seq<Entry>, Cursor) {
    if view == [] then ([], cur)
    else Visit(crc, view, view[|view| - 1].id, Normalize(view, cur), [], max)
  }

  /** The flat log a cursor still has in front of it, for arbitrary file contents: the offset
      applies to the first file at or after the cursor's segment, later files are read whole. */
  function Ahead(crc: Checksum, view: seq<File>, cur: Cursor): seq<Entry> {
    if view == [] then []
    else if view[0].id < cur.segment then Ahead(crc, view[1..], cur)
    else ReadableFile(crc, view[0], cur.offset) + Ahead(crc, view[1..], Cursor(view[0].id + 1, 0))
  }

  /** `readSegment`, including the file that can no longer be opened. */
  method ReadFile(crc: Checksum, f: File, off: nat, max: int)
    returns (entries: seq<Entry>, next: nat, corrupt: bool)
    ensures Scanned(entries, next, corrupt) == ScanFile(crc, f, off, max)
  {
    entries, next, corrupt := [], off, false;
    if f.Present? {
      entries, next, corrupt := ReadSegment(crc, f.data, off, max);
    }
  }

  /** The loop of `ReadFrom`, over a listing sorted by segment number. */
  method ReadFromLoop(crc: Checksum, view: seq<File>, start: Cursor, max: int)
    returns (out: seq<Entry>, cur: Cursor)
    ensures (out, cur) == ReadFrom(crc, view, start, max)
  {
    hide ScanFile;
    out, cur := [], start;
    if |view| == 0 {
      return;
    }
    var last := view[|view| - 1].id;
    if cur.segment > last {
      cur := START;
    }
    ghost var whole := Visit(crc, view, last, cur, [], max);
    assert view[0..] == view;
    for i := 0 to |view|
      invariant Visit(crc, view[i..], last, cur, out, max) == whole
    {
      var f := view[i];
      assert view[i..][0] == f && view[i..][1..] == view[i + 1..];
      if f.id < cur.segment || |out| >= max {
        continue;
      }
      var entries, next, corrupt := ReadFile(crc, f, cur.offset, max - |out|);
      out := out + entries;
      if next > 0 {
        cur := Cursor(f.id, next);
      }
      if |out| >= max {
        return;
      }
      if f.id < last {
        cur := Cursor(f.id + 1, 0);
      }
    }
    assert view[|view|..] == [];
  }

  // ---------- ReadFrom takes the next entries, whatever the files hold ----------

  lemma ScanFileTakes(crc: Checksum, f: File, off: nat, max: int)
    ensures var s := ScanFile(crc, f, off, max);
            && s.offset >= off
            && s.entries == Take(ReadableFile(crc, f, off), max)
            && ReadableFile(crc, f, s.offset) == Drop(ReadableFile(crc, f, off), max)
  {
    if f.Present? { ScanTakes(crc, f.data, off, max); }
  }

  lemma {:induction false} VisitForward(crc: Checksum, view: seq<File>, last: nat, cur: Cursor, out: seq<Entry>, max: int)
    ensures Visit(crc, view, last, cur, out, max).1.segment >= cur.segment
  {
    hide ScanFile;
    if view == [] {
    } else {
      var f := view[0];
      if f.id < cur.segment || |out| >= max {
        VisitForward(crc, view[1..], last, cur, out, max);
      } else {
        var s := ScanFile(crc, f, cur.offset, max - |out|);
        var cur' := if s.offset > 0 then Cursor(f.id, s.offset) else cur;
        if |out + s.entries| < max {
          VisitForward(crc, view[1..], last, if f.id < last then Cursor(f.id + 1, 0) else cur', out + s.entries, max);
        }
      }
    }
  }

  lemma {:induction false} VisitTakes(crc: Checksum, view: seq<File>, last: nat, cur: Cursor, out: seq<Entry>, max: int)
    requires Sorted(view) && (view != [] ==> view[|view| - 1].id == last)
    ensures var (o, c) := Visit(crc, view, last, cur, out, max);
            && o == out + Take(Ahead(crc, view, cur), max - |out|)
            && Ahead(crc, view, c) == Drop(Ahead(crc, view, cur), max - |out|)
    decreases |view|, 1
  {
    hide ScanFile, ReadableFile;
    if view == [] {
      assert out + [] == out;
    } else {
      var f, rest := view[0], view[1..];
      var (o, c) := Visit(crc, view, last, cur, out, max);
      if f.id < cur.segment {
        VisitTakes(crc, rest, last, cur, out, max);
        VisitForward(crc, rest, last, cur, out, max);
      } else if |out| >= max {
        VisitIdle(crc, view, last, cur, out, max);
        assert out + [] == out;
      } else {
        VisitFile(crc, view, last, cur, out, max);
      }
    }
  }

  lemma {:induction false} VisitIdle(crc: Checksum, view: seq<File>, last: nat, cur: Cursor, out: seq<Entry>, max: int)
    requires |out| >= max
    ensures Visit(crc, view, last, cur, out, max) == (out, cur)
  {
    if view == [] {
    } else {
      VisitIdle(crc, view[1..], last, cur, out, max);
    }
  }

  lemma {:induction false} VisitFile(crc: Checksum, view: seq<File>, last: nat, cur: Cursor, out: seq<Entry>, max: int)
    requires Sorted(view) && view != [] && view[|view| - 1].id == last
    requires view[0].id >= cur.segment && |out| < max
    ensures var (o, c) := Visit(crc, view, last, cur, out, max);
            && o == out + Take(Ahead(crc, view, cur), max - |out|)
            && Ahead(crc, view, c) == Drop(Ahead(crc, view, cur), max - |out|)
    decreases |view|, 0
  {
    hide ScanFile, ReadableFile, Take, Drop;
    var f, rest, want := view[0], view[1..], max - |out|;
    var s := ScanFile(crc, f, cur.offset, want);
    ScanFileTakes(crc, f, cur.offset, want);
    var here, later := ReadableFile(crc, f, cur.offset), Ahead(crc, rest, Cursor(f.id + 1, 0));
    var cur' := if s.offset > 0 then Cursor(f.id, s.offset) else cur;
    assert Ahead(crc, view, cur) == here + later;
    assert Ahead(crc, view, cur') == ReadableFile(crc, f, s.offset) + later;
    TakeDropConcat(here, later, want);
    var out' := out + s.entries;
    if |out'| < max {
      assert s.entries == here;
      if f.id < last {
        var next := Cursor(f.id + 1, 0);
        VisitTakes(crc, rest, last, next, out', max);
        VisitForward(crc, rest, last, next, out', max);
        assert out' + Take(later, want - |here|) == out + (here + Take(later, want - |here|));
      } else {
        assert rest == [] && later == [];
        TakeDropConcat<Entry>([], [], want - |here|);
        assert out + (here + []) == out';
      }
    }
  }

  /** All that can be read from the files, each from its beginning. */
  function Everything(crc: Checksum, view: seq<File>): seq<Entry> {
    if view == [] then [] else ReadableFile(crc, view[0], 0) + Everything(crc, view[1..])
  }

  /** A cursor at the beginning of a segment at or before all files has everything in front. */
  lemma {:induction false} AheadOfStart(crc: Checksum, view: seq<File>, c: Cursor)
    requires Sorted(view) && c.offset == 0 && (view != [] ==> c.segment <= view[0].id)
    ensures Ahead(crc, view, c) == Everything(crc, view)
  {
    if view == [] {
    } else {
      hide ReadableFile;
      AheadOfStart(crc, view[1..], Cursor(view[0].id + 1, 0));
    }
  }

  /** The main fact about `ReadFrom`. For any sorted listing and any bytes in the files, it
      returns exactly the next `max` entries in front of the cursor, and the cursor it returns
      has exactly the rest in front of it. A cursor beyond the newest segment has everything in
      front of it. */
  lemma ReadFromTakes(crc: Checksum, view: seq<File>, cur: Cursor, max: int)
    requires Sorted(view)
    ensures var ahead := if view != [] && cur.segment > view[|view| - 1].id then Everything(crc, view)
                         else Ahead(crc, view, cur);
            var (out, next) := ReadFrom(crc, view, cur, max);
            && out == Take(ahead, max)
            && Ahead(crc, view, next) == Drop(ahead, max)
  {
    if view != [] {
      hide Visit, Ahead;
      var c := Normalize(view, cur);
      if cur.segment > view[|view| - 1].id { AheadOfStart(crc, view, c); }
      VisitTakes(crc, view, view[|view| - 1].id, c, [], max);
      assert [] + Take(Ahead(crc, view, c), max) == Take(Ahead(crc, view, c), max);
    }
  }
}
