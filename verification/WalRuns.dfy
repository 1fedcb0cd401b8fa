/** What holds of the log over whole runs (internal/reporter/wal.go). */
module WalRuns {
  import opened Bytes
  import opened Options
  import opened WalFormat
  import opened WalRead
  import opened WalLog
  import opened WalWrite
  import opened WalHistory
  import opened WalPass

  // ---------- Any run of appends under a quota ----------

  predicate Quiet(l: Log) {
    l.writing.None? && l.torn == []
  }

  function AppendAll(crc: Checksum, dir: seq<File>, ps: seq<Entry>, maxBytes: int): seq<File>
    requires Listing(dir)
    decreases |ps|
  {
    if ps == [] then dir else AppendAll(crc, AppendTo(crc, dir, ps[0], maxBytes), ps[1..], maxBytes)
  }

  /** The payloads `Append` does not refuse. */
  function Fitting(ps: seq<Entry>): seq<Entry> {
    if ps == [] then []
    else (if |ps[0]| <= ENTRY_MAX then [ps[0]] else []) + Fitting(ps[1..])
  }

  lemma AppendOne(crc: Checksum, l: Log, e: Entry, maxBytes: int) returns (l': Log)
    requires LogInv(crc, l) && Quiet(l) && |e| <= ENTRY_MAX
    ensures LogInv(crc, l') && Quiet(l')
    ensures l'.dir == AppendTo(crc, l.dir, e, maxBytes)
    ensures l'.accepted == l.accepted + [e] && l'.removed < |l'.accepted|
  {
    hide Intact, Marks, Flatten, Record, Enforce, AppendTo;
    var b := BeginAppend(l, e);
    AppendIsMicroSteps(crc, l, e, 0, maxBytes);
    var w := WriteUpTo(crc, b, 0);
    IntactShape(crc, w.dir, w.segs, w.torn);
    var c := Complete(crc, w);
    CompleteKeeps(crc, w);
    ReclaimKeeps(crc, c, maxBytes);
    l' := Reclaim(c, maxBytes);
    NewestKept(crc, c, maxBytes);
  }

  lemma NewestKept(crc: Checksum, l: Log, maxBytes: int)
    requires LogInv(crc, l) && Quiet(l) && |l.segs[|l.segs| - 1]| > 0
    ensures Reclaim(l, maxBytes).removed < |l.accepted|
  {
    EnforceSuffix(l.dir, maxBytes);
    var d := |l.dir| - |Enforce(l.dir, maxBytes)|;
    var last := |l.segs| - 1;
    FlattenSplit(l.segs, last);
    if d > 0 {
      assert l.segs[..last] == l.segs[..d] + l.segs[d..last];
      FlattenAppend(l.segs[..d], l.segs[d..last]);
    }
  }

  /** After any run of appends, refused ones included, the directory holds a suffix of all the
      entries ever accepted, in consecutively numbered segments; the newest entry is always in
      it, and with a positive quota its size is within `max(maxBytes, ACTIVE_MAX)`. */
  lemma {:induction false} QuotaKeepsSuffix(crc: Checksum, l: Log, ps: seq<Entry>, maxBytes: int) returns (l': Log)
    requires LogInv(crc, l) && Quiet(l)
    ensures LogInv(crc, l') && Quiet(l')
    ensures l'.dir == AppendAll(crc, l.dir, ps, maxBytes)
    ensures l'.accepted == l.accepted + Fitting(ps)
    ensures Intact(crc, l'.dir, l'.segs, []) && Flatten(l'.segs) == (l.accepted + Fitting(ps))[l'.removed..]
    ensures Fitting(ps) != [] ==> l'.removed < |l'.accepted|
    ensures Fitting(ps) != [] && maxBytes > 0 ==>
              |Content(l'.dir)| <= if maxBytes > 37_748_743 then maxBytes else 37_748_743
    ensures ClosedFull(l.dir) ==> ClosedFull(l'.dir)
    decreases |ps|
  {
    hide Intact, Flatten, AppendTo, Total, Content, ClosedFull;
    if ps == [] {
      l' := l;
      assert l.accepted + [] == l.accepted;
    } else if |ps[0]| > ENTRY_MAX {
      RefusedUnchanged(crc, l.dir, ps[0], maxBytes);
      l' := QuotaKeepsSuffix(crc, l, ps[1..], maxBytes);
      assert [] + Fitting(ps[1..]) == Fitting(ps[1..]);
    } else {
      var m := AppendOne(crc, l, ps[0], maxBytes);
      if maxBytes > 0 {
        AppendSize(crc, l.dir, ps[0], maxBytes);
        TotalIs(m.dir);
      }
      if ClosedFull(l.dir) { AppendClosesFull(crc, l.dir, ps[0], maxBytes); }
      l' := QuotaKeepsSuffix(crc, m, ps[1..], maxBytes);
      assert l.accepted + ([ps[0]] + Fitting(ps[1..])) == l.accepted + [ps[0]] + Fitting(ps[1..]);
      if Fitting(ps[1..]) == [] {
        AllRefused(crc, m.dir, ps[1..], maxBytes);
        RemovedUnchanged(crc, m, l');
      }
    }
  }

  lemma RefusedUnchanged(crc: Checksum, dir: seq<File>, p: Entry, maxBytes: int)
    requires Listing(dir) && |p| > ENTRY_MAX
    ensures AppendTo(crc, dir, p, maxBytes) == dir
  {
  }

  lemma {:induction false} AllRefused(crc: Checksum, dir: seq<File>, ps: seq<Entry>, maxBytes: int)
    requires Listing(dir) && Fitting(ps) == []
    ensures AppendAll(crc, dir, ps, maxBytes) == dir
  {
    if ps == [] {
    } else {
      RefusedUnchanged(crc, dir, ps[0], maxBytes);
      AllRefused(crc, dir, ps[1..], maxBytes);
    }
  }

  /** The same directory cannot hold two different numbers of entries. */
  lemma RemovedUnchanged(crc: Checksum, l: Log, m: Log)
    requires LogInv(crc, l) && LogInv(crc, m) && Quiet(l) && Quiet(m)
    requires l.dir == m.dir && |l.accepted| == |m.accepted|
    ensures l.removed == m.removed
  {
    hide SegmentBytes, Fits;
    var c := Cursor(l.dir[0].id, 0);
    assert l.dir[0..] == l.dir && l.segs[0..] == l.segs && m.segs[0..] == m.segs;
    AheadWhole(crc, l.dir, l.segs, [], 0, c);
    AheadWhole(crc, m.dir, m.segs, [], 0, c);
  }

  // ---------- One reader, any interleaving ----------

  /** What happens to a log that one reader follows with `ReadFrom`. */
  datatype Event = Write(op: LogEvent) | OpenRead(max: int) | OpenNext | CloseRead

  /** The reader keeps what it got and at which position of the history it stands; `pass` is its
      call in progress. */
  datatype Reader = Reader(log: Log, cur: Cursor, pos: nat, out: seq<Entry>, got: seq<nat>, pass: Option<Pass>)

  const FRESH := Reader(EMPTY, START, 0, [], [], None)

  predicate Enabled(crc: Checksum, maxBytes: int, r: Reader, ev: Event) {
    match ev
    case Write(op) =>
      && CanOp(crc, maxBytes, r.log, op) && Spares(r.log, op, r.cur)
      && (r.pass.Some? ==> Spares(r.log, op, r.pass.value.cur))
    case OpenRead(_) => Listing(r.log.dir) && r.pass.None?
    case OpenNext => Listing(r.log.dir) && r.pass.Some? && !Finished(r.pass.value)
    case CloseRead => r.pass.Some? && Finished(r.pass.value)
  }

  /** A crash ends a call in progress. */
  function Step(crc: Checksum, maxBytes: int, r: Reader, ev: Event): Reader
    requires Enabled(crc, maxBytes, r, ev)
  {
    match ev
    case Write(op) =>
      var log := AfterOp(crc, maxBytes, r.log, op);
      r.(log := log, pos := Max(r.pos, log.removed),
         pass := if op.Crash? || r.pass.None? then None else Some(Clamp(r.pass.value, log)))
    case OpenRead(max) => r.(pass := Some(Open(r.log, r.cur, r.pos, max)))
    case OpenNext => r.(pass := Some(Advance(crc, r.log, r.pass.value)))
    case CloseRead =>
      var p := r.pass.value;
      r.(cur := p.cur, pos := p.pos, out := r.out + p.out, got := r.got + p.got, pass := None)
  }

  ghost predicate Run(crc: Checksum, maxBytes: int, r: Reader, evs: seq<Event>, r': Reader)
    decreases |evs|
  {
    if evs == [] then r' == r
    else Enabled(crc, maxBytes, r, evs[0]) && Run(crc, maxBytes, Step(crc, maxBytes, r, evs[0]), evs[1..], r')
  }

  /** Every accepted entry before the reader's position was returned or deleted by the quota;
      what was returned is the accepted entries at strictly increasing positions, so each once
      and in order; everything else is still ahead of the cursor. */
  ghost predicate Delivered(crc: Checksum, r: Reader) {
    && |r.got| == |r.out|
    && Increasing(r.got, 0, r.pos)
    && r.log.removed <= r.pos <= |r.log.accepted|
    && (forall i :: 0 <= i < |r.got| ==> r.out[i] == r.log.accepted[r.got[i]])
    && (forall j: nat :: j < r.pos ==> j in r.got || j < r.log.removed)
    && Ahead(crc, r.log.dir, r.cur) == r.log.accepted[r.pos..]
  }

  ghost predicate ReaderInv(crc: Checksum, r: Reader) {
    && LogInv(crc, r.log)
    && Position(crc, r.log, r.cur, r.pos)
    && Returned(r)
    && (r.pass.Some? ==> PassInv(crc, r.log, r.pass.value) && Continues(r, r.pass.value))
  }

  ghost predicate Returned(r: Reader) {
    && |r.got| == |r.out|
    && Increasing(r.got, 0, r.pos)
    && r.pos <= |r.log.accepted|
    && (forall i :: 0 <= i < |r.got| ==> r.out[i] == r.log.accepted[r.got[i]])
    && (forall j: nat :: j < r.pos ==> j in r.got || j < r.log.removed)
  }

  /** The call in progress started where the earlier ones ended. */
  predicate Continues(r: Reader, p: Pass) {
    p.from <= r.pos <= p.pos && forall i :: 0 <= i < |r.got| ==> r.got[i] < p.from
  }

  lemma WriteKeeps(crc: Checksum, maxBytes: int, r: Reader, ev: Event)
    requires ReaderInv(crc, r) && Enabled(crc, maxBytes, r, ev) && ev.Write?
    ensures ReaderInv(crc, Step(crc, maxBytes, r, ev))
  {
    hide LogInv, Position, PassInv, CanOp, AfterOp, Spares;
    OpKeeps(crc, maxBytes, r.log, ev.op);
    OpPosition(crc, maxBytes, r.log, ev.op, r.cur, r.pos);
    if r.pass.Some? && !ev.op.Crash? { WriterKeeps(crc, maxBytes, r.log, ev.op, r.pass.value); }
    var r' := Step(crc, maxBytes, r, ev);
    forall i | 0 <= i < |r.got| ensures r'.out[i] == r'.log.accepted[r.got[i]] {
      assert r'.log.accepted[r.got[i]] == r.log.accepted[r.got[i]];
    }
  }

  lemma CloseKeeps(crc: Checksum, maxBytes: int, r: Reader, ev: Event)
    requires ReaderInv(crc, r) && Enabled(crc, maxBytes, r, ev) && ev.CloseRead?
    ensures ReaderInv(crc, Step(crc, maxBytes, r, ev))
  {
    hide LogInv, Position, PassReads, Frontier;
    var r', p := Step(crc, maxBytes, r, ev), r.pass.value;
    forall j: nat | j < r'.pos ensures j in r'.got || j < r.log.removed {
      if j < p.from {
        assert j in r.got ==> j in r'.got;
      } else {
        assert j in p.got ==> j in r'.got;
      }
    }
  }

  lemma StepKeeps(crc: Checksum, maxBytes: int, r: Reader, ev: Event)
    requires ReaderInv(crc, r) && Enabled(crc, maxBytes, r, ev)
    ensures ReaderInv(crc, Step(crc, maxBytes, r, ev))
  {
    match ev {
      case Write(_) => WriteKeeps(crc, maxBytes, r, ev);
      case OpenRead(max) =>
        hide LogInv, Position, PassInv;
        OpenKeeps(crc, r.log, r.cur, r.pos, max);
      case OpenNext =>
        hide LogInv, Position, PassInv, Round;
        AdvanceKeeps(crc, r.log, r.pass.value);
      case CloseRead => CloseKeeps(crc, maxBytes, r, ev);
    }
  }

  /** Repeated reads with any batch sizes, each of which opens its files one by one, interleaved
      with appends and their partial writes, rotations, single deletions and crashes, return every
      accepted entry once, in order, except those the quota deleted first. */
  lemma {:induction false} ReaderGetsEachEntryOnce(crc: Checksum, maxBytes: int, r: Reader, evs: seq<Event>, r': Reader)
    requires ReaderInv(crc, r) && Run(crc, maxBytes, r, evs, r')
    ensures ReaderInv(crc, r') && Delivered(crc, r')
    decreases |evs|
  {
    hide Step, ReaderInv, Enabled, Delivered;
    if evs == [] {
      ReaderDelivered(crc, r);
    } else {
      StepKeeps(crc, maxBytes, r, evs[0]);
      ReaderGetsEachEntryOnce(crc, maxBytes, Step(crc, maxBytes, r, evs[0]), evs[1..], r');
    }
  }

  lemma ReaderDelivered(crc: Checksum, r: Reader)
    requires ReaderInv(crc, r)
    ensures Delivered(crc, r)
  {
    hide LogInv, Position, Ahead, PassInv;
    PositionAhead(crc, r.log, r.cur, r.pos);
  }

  /** The reader's invariant identifies each finished call with `ReadFrom` on the files as they
      were when it opened them. */
  lemma CallIsReadFrom(crc: Checksum, r: Reader, rest: seq<File>)
    requires ReaderInv(crc, r) && r.pass.Some? && Finished(r.pass.value)
    requires var p := r.pass.value;
             && (|p.out| >= p.max || rest == [])
             && p.seen + rest != [] && (p.seen + rest)[|p.seen + rest| - 1].id == p.last
    ensures var p := r.pass.value; ReadFrom(crc, p.seen + rest, p.start, p.max) == (p.out, p.cur)
  {
    hide LogInv, Position, ReadFrom, Visit;
    FinishedIsReadFrom(crc, r.pass.value, rest);
  }

  lemma FreshReader(crc: Checksum)
    ensures ReaderInv(crc, FRESH)
  {
    assert Intact(crc, EMPTY.dir, EMPTY.segs, EMPTY.torn) by { EncodeNothing(crc); }
    FlattenOne([]);
    MarksFirst(crc, EMPTY.dir, EMPTY.segs);
  }

  // ---------- Damaged segments ----------

  /** Repeated `ReadFrom` calls with the given batch sizes. */
  function Drain(crc: Checksum, view: seq<File>, cur: Cursor, sizes: seq<nat>): (seq<Entry>, Cursor)
    decreases |sizes|
  {
    if sizes == [] then ([], cur)
    else
      var (out, next) := ReadFrom(crc, view, cur, sizes[0]);
      var (rest, end) := Drain(crc, view, next, sizes[1..]);
      (out + rest, end)
  }

  function Sum(sizes: seq<nat>): nat {
    if sizes == [] then 0 else sizes[0] + Sum(sizes[1..])
  }

  lemma {:induction false} ReadStaysInView(crc: Checksum, view: seq<File>, last: nat, cur: Cursor, out: seq<Entry>, max: int)
    requires (forall i :: 0 <= i < |view| ==> view[i].id <= last) && cur.segment <= last
    ensures Visit(crc, view, last, cur, out, max).1.segment <= last
  {
    hide ScanFile;
    if view == [] {
    } else {
      var f := view[0];
      if f.id < cur.segment || |out| >= max {
        ReadStaysInView(crc, view[1..], last, cur, out, max);
      } else {
        var s := ScanFile(crc, f, cur.offset, max - |out|);
        var cur' := if s.offset > 0 then Cursor(f.id, s.offset) else cur;
        if |out + s.entries| < max {
          ReadStaysInView(crc, view[1..], last, if f.id < last then Cursor(f.id + 1, 0) else cur', out + s.entries, max);
        }
      }
    }
  }

  lemma {:induction false} DrainTakes(crc: Checksum, view: seq<File>, cur: Cursor, sizes: seq<nat>)
    requires Sorted(view) && |view| > 0 && cur.segment <= view[|view| - 1].id
    ensures var (out, end) := Drain(crc, view, cur, sizes);
            && out == Take(Ahead(crc, view, cur), Sum(sizes))
            && Ahead(crc, view, end) == Drop(Ahead(crc, view, cur), Sum(sizes))
    decreases |sizes|
  {
    hide Ahead, Visit, Everything;
    if sizes == [] {
    } else {
      var last := view[|view| - 1].id;
      ReadFromTakes(crc, view, cur, sizes[0]);
      ReadStaysInView(crc, view, last, cur, [], sizes[0]);
      var (out, next) := ReadFrom(crc, view, cur, sizes[0]);
      DrainTakes(crc, view, next, sizes[1..]);
      TakeDropTwice(Ahead(crc, view, cur), sizes[0], Sum(sizes[1..]));
    }
  }

  lemma TakeDropTwice<T>(s: seq<T>, a: nat, b: nat)
    ensures Take(s, a) + Take(Drop(s, a), b) == Take(s, a + b)
    ensures Drop(Drop(s, a), b) == Drop(s, a + b)
  {
  }

  lemma SortedTail(view: seq<File>, d: nat)
    requires Sorted(view) && 0 < d < |view|
    ensures Sorted(view[1..]) && view[1..][d - 1] == view[d] && view[0].id < view[d].id
  {
  }

  lemma {:induction false} AheadSplit(crc: Checksum, view: seq<File>, d: nat, cur: Cursor)
    requires Sorted(view) && d < |view| && cur.segment <= view[d].id
    ensures Ahead(crc, view, cur)
         == Ahead(crc, view[..d + 1], cur) + Ahead(crc, view[d + 1..], Cursor(view[d].id + 1, 0))
    decreases d
  {
    hide ReadableFile, Sorted;
    var first, rest := view[0], view[1..];
    assert view[..d + 1][0] == first && view[..d + 1][1..] == rest[..d];
    assert rest[d..] == view[d + 1..];
    if d == 0 {
      assert view[..1][1..] == [];
      var none: seq<Entry> := [];
      assert ReadableFile(crc, first, cur.offset) + none == ReadableFile(crc, first, cur.offset);
    } else {
      assert Sorted(rest) && rest[d - 1] == view[d] && first.id < view[d].id by { SortedTail(view, d); }
      var c := if first.id < cur.segment then cur else Cursor(first.id + 1, 0);
      AheadSplit(crc, rest, d - 1, c);
      assert rest[..d - 1 + 1] == rest[..d];
    }
  }

  function SizeOf(view: seq<File>): nat {
    if view == [] then 0
    else (if view[0].Present? then |view[0].data| else 0) + SizeOf(view[1..])
  }

  lemma {:induction false} AheadBounded(crc: Checksum, view: seq<File>, cur: Cursor)
    ensures |Ahead(crc, view, cur)| <= SizeOf(view)
  {
    hide Readable;
    if view == [] {
    } else {
      if view[0].id < cur.segment {
        AheadBounded(crc, view[1..], cur);
      } else {
        AheadBounded(crc, view[1..], Cursor(view[0].id + 1, 0));
        if view[0].Present? { ReadableBounded(crc, view[0].data, cur.offset); }
      }
    }
  }

  /** Whatever bytes the segments up to index `d` hold, reads pass beyond them: once the batch
      sizes add up to the number of those bytes, what has been returned is some entries of the
      damaged part followed by the first entries of the later, intact segments, in order, and
      all the others are still ahead. */
  lemma DamageIsolated(crc: Checksum, view: seq<File>, d: nat, log: seq<seq<Entry>>, torn: seq<byte>,
                       cur: Cursor, sizes: seq<nat>)
    requires Sorted(view) && d + 1 < |view| && cur.segment <= view[d].id
    requires Intact(crc, view[d + 1..], log, torn)
    requires Sum(sizes) >= SizeOf(view[..d + 1])
    ensures var (out, end) := Drain(crc, view, cur, sizes);
            var junk := |Ahead(crc, view[..d + 1], cur)|;
            && junk <= SizeOf(view[..d + 1]) && junk <= |out|
            && out[junk..] == Take(Flatten(log), Sum(sizes) - junk)
            && Ahead(crc, view, end) == Drop(Flatten(log), Sum(sizes) - junk)
  {
    hide Ahead, Intact, Flatten, Drain, Sum, SizeOf, Take, Drop;
    var c := Cursor(view[d].id + 1, 0);
    assert cur.segment <= view[|view| - 1].id;
    DrainTakes(crc, view, cur, sizes);
    AheadSplit(crc, view, d, cur);
    hide Sorted;
    AheadBounded(crc, view[..d + 1], cur);
    assert view[d + 1..][0..] == view[d + 1..] && log[0..] == log by { IntactShape(crc, view[d + 1..], log, torn); }
    AheadWhole(crc, view[d + 1..], log, torn, 0, c);
    var junk := Ahead(crc, view[..d + 1], cur);
    TakePast(junk, Flatten(log), Sum(sizes));
  }

  lemma TakePast<T>(a: seq<T>, b: seq<T>, n: nat)
    requires n >= |a|
    ensures |Take(a + b, n)| >= |a| && Take(a + b, n)[|a|..] == Take(b, n - |a|)
    ensures Drop(a + b, n) == Drop(b, n - |a|)
  {
  }

  // ---------- Two places where the log does lose entries ----------

  lemma {:induction false} ReadableWeight(crc: Checksum, data: seq<byte>, off: nat)
    ensures off >= |data| ==> Readable(crc, data, off) == []
    ensures off < |data| ==> |Encode(crc, Readable(crc, data, off))| <= |data| - off + HEADER_SIZE - 1
    decreases |data| - off
  {
    hide RecordAt;
    if !RecordAt(crc, data, off).Next? {
    } else {
      RecordAtSize(crc, data, off);
      var p := RecordAt(crc, data, off).entry;
      ReadableWeight(crc, data, off + HEADER_SIZE + |p|);
      var rest := Readable(crc, data, off + HEADER_SIZE + |p|);
      assert ([p] + rest)[1..] == rest;
    }
  }

  lemma RecordAtSize(crc: Checksum, data: seq<byte>, off: nat)
    requires RecordAt(crc, data, off).Next?
    ensures off < |data|
    ensures off + HEADER_SIZE + |RecordAt(crc, data, off).entry| <= |data| + HEADER_SIZE - 1
  {
  }

  /** When the quota has deleted the cursor's segment, the old offset is applied to the oldest
      surviving one. The reader still gets every surviving entry exactly if that offset was 0
      or the oldest surviving segment holds nothing. (A cursor offset is 0 or at least a header.) */
  lemma LostSegment(crc: Checksum, dir: seq<File>, segs: seq<seq<Entry>>, cur: Cursor)
    requires Intact(crc, dir, segs, []) && cur.segment < dir[0].id
    requires cur.offset == 0 || cur.offset >= HEADER_SIZE
    ensures Ahead(crc, dir, cur) == Flatten(segs) <==> cur.offset == 0 || segs[0] == []
  {
    hide Encode, Readable, Torn, Fits;
    assert dir[1..] == dir[1..][..];
    AheadWhole(crc, dir, segs, [], 1, Cursor(dir[0].id + 1, 0));
    var here := Readable(crc, dir[0].data, cur.offset);
    assert Ahead(crc, dir, cur) == here + Flatten(segs[1..]);
    assert dir[0].data == Encode(crc, segs[0]);
    ReadableWeight(crc, dir[0].data, cur.offset);
    if cur.offset == 0 {
      ReadFromBoundary(crc, segs[0], [], 0);
      BoundaryZero(crc, segs[0]);
      assert Encode(crc, segs[0]) + [] == dir[0].data;
    } else if segs[0] == [] {
      EncodeNothing(crc);
    }
    SameTail(here, segs[0], Flatten(segs[1..]));
  }

  lemma SameTail<T>(a: seq<T>, b: seq<T>, c: seq<T>)
    ensures a + c == b + c <==> a == b
  {
    if a + c == b + c {
      assert |a| == |b|;
      assert a == (a + c)[..|a|] && b == (b + c)[..|b|];
    }
  }

  /** An instance: the log's first surviving entry is never returned. */
  lemma LostSegmentExample(crc: Checksum)
    ensures var dir := [Present(1, Encode(crc, [[1], [2]]))];
            ReadFrom(crc, dir, Cursor(0, 9), 10).0 == [[2]]
  {
    hide Visit;
    var es: seq<Entry> := [[1], [2]];
    var dir := [Present(1, Encode(crc, es))];
    assert es[..1] == [[1]] && es[1..] == [[2]];
    EncodeSnoc(crc, [], [1]);
    EncodeNothing(crc);
    var none: seq<Entry> := [];
    assert none + [[1]] == es[..1];
    assert Boundary(crc, es, 1) == 9;
    ReadFromBoundary(crc, es, [], 1);
    assert Encode(crc, es) + [] == Encode(crc, es);
    ReadFromTakes(crc, dir, Cursor(0, 9), 10);
    assert dir[1..] == [];
    assert Ahead(crc, dir, Cursor(0, 9)) == es[1..] + [];
  }

  /** The payload a reader takes a torn record to have once `after` follows it. */
  function Mixed(e: Entry, kept: nat, after: seq<byte>): Entry
    requires kept <= |e| && |e| - kept <= |after|
  {
    e[..kept] + after[..|e| - kept]
  }

  /** A segment with entries `es`, a record of `e` torn after `kept` payload bytes, and then the
      records of `qs`. */
  function TornSegment(crc: Checksum, es: seq<Entry>, e: Entry, kept: nat, qs: seq<Entry>): seq<byte>
    requires kept <= |e|
  {
    Encode(crc, es) + (Record(crc, e)[..HEADER_SIZE + kept] + Encode(crc, qs))
  }

  /** A crash that leaves a half-written record, followed by more appends to the same segment:
      nothing after the torn record is readable exactly if its missing bytes are not all there
      yet, or the checksum of the mixed payload differs from the one in the torn header. If it
      does not, the first entry read is that mixed payload; so the appended entries come out only
      if the first of them is itself one with the torn entry's length, checksum and first bytes. */
  lemma TornThenAppended(crc: Checksum, es: seq<Entry>, e: Entry, kept: nat, qs: seq<Entry>)
    requires Fits(es) && kept < |e| <= ENTRY_MAX
    ensures var after, read := Encode(crc, qs), Readable(crc, TornSegment(crc, es, e, kept, qs), 0);
            && (read == es <==> |after| < |e| - kept || crc(Mixed(e, kept, after)) != crc(e))
            && (read != es ==> |after| >= |e| - kept && es + [Mixed(e, kept, after)] <= read)
            && (read == es + qs && qs != [] ==> |qs[0]| == |e| && crc(qs[0]) == crc(e) && qs[0][..kept] == e[..kept])
  {
    hide Encode, Record, RecordAt, Mixed;
    var after, torn := Encode(crc, qs), Record(crc, e)[..HEADER_SIZE + kept];
    var data, at := Encode(crc, es) + (torn + after), |Encode(crc, es)|;
    var rest := Readable(crc, data, at);
    assert Readable(crc, data, 0) == es + rest by {
      ReadableAfter(crc, [], es, torn + after);
      var none: seq<byte> := [];
      assert none + Encode(crc, es) + (torn + after) == data;
    }
    TornRecordAt(crc, Encode(crc, es), e, kept, after);
    NothingReadable(crc, data, at);
    hide Readable;
    SamePart(es, rest, []);
    SamePart(es, rest, qs);
    assert es + [] == es;
    if rest != [] {
      assert rest[0] == Mixed(e, kept, after);
      assert es + [rest[0]] <= es + rest;
      MixedShape(e, kept, after);
    }
  }

  lemma SamePart<T>(a: seq<T>, b: seq<T>, c: seq<T>)
    ensures a + b == a + c <==> b == c
  {
    if a + b == a + c { assert b == (a + b)[|a|..] && c == (a + c)[|a|..]; }
  }

  lemma MixedShape(e: Entry, kept: nat, after: seq<byte>)
    requires kept <= |e| && |e| - kept <= |after|
    ensures |Mixed(e, kept, after)| == |e| && Mixed(e, kept, after)[..kept] == e[..kept]
  {
  }

  /** An instance, for every checksum: an entry appended after a torn one is never returned. */
  lemma TornThenAppendedExample(crc: Checksum)
    ensures Readable(crc, TornSegment(crc, [], seq(100, _ => 0), 50, [[1]]), 0) == []
  {
    hide Readable, RecordAt;
    var qs: seq<Entry> := [[1]];
    EncodeSnoc(crc, [], [1]);
    EncodeNothing(crc);
    assert [] + [[1]] == qs;
    TornThenAppended(crc, [], seq(100, _ => 0), 50, qs);
  }

  lemma NothingReadable(crc: Checksum, data: seq<byte>, off: nat)
    ensures Readable(crc, data, off) == [] <==> !RecordAt(crc, data, off).Next?
    ensures RecordAt(crc, data, off).Next? ==> Readable(crc, data, off)[0] == RecordAt(crc, data, off).entry
  {
    hide RecordAt;
  }

  lemma {:induction false} ReadableAfter(crc: Checksum, before: seq<byte>, es: seq<Entry>, after: seq<byte>)
    requires Fits(es)
    ensures var data := before + Encode(crc, es) + after;
            Readable(crc, data, |before|) == es + Readable(crc, data, |before + Encode(crc, es)|)
    decreases |es|
  {
    hide RecordAt;
    var data := before + Encode(crc, es) + after;
    if es == [] {
      assert before + Encode(crc, es) == before;
    } else {
      var before' := before + Record(crc, es[0]);
      assert data == before + Record(crc, es[0]) + (Encode(crc, es[1..]) + after);
      RecordFound(crc, before, es[0], Encode(crc, es[1..]) + after);
      ReadableAfter(crc, before', es[1..], after);
      assert data == before' + Encode(crc, es[1..]) + after;
      assert before' + Encode(crc, es[1..]) == before + Encode(crc, es);
      assert es == [es[0]] + es[1..];
    }
  }

  lemma HeaderOfPrefix(before: seq<byte>, r: seq<byte>, after: seq<byte>)
    requires |r| >= HEADER_SIZE
    ensures var h := HeaderAt(before + (r + after), |before|); h[..4] == r[..4] && h[4..] == r[4..8]
  {
  }

  lemma TornRecordAt(crc: Checksum, before: seq<byte>, e: Entry, kept: nat, after: seq<byte>)
    requires kept < |e| <= ENTRY_MAX
    ensures var data := before + (Record(crc, e)[..HEADER_SIZE + kept] + after);
            && (RecordAt(crc, data, |before|).Next? <==> |after| >= |e| - kept && crc(Mixed(e, kept, after)) == crc(e))
            && (RecordAt(crc, data, |before|).Next? ==> RecordAt(crc, data, |before|).entry == Mixed(e, kept, after))
  {
    hide Record;
    var r := Record(crc, e);
    var tail := r[..HEADER_SIZE + kept] + after;
    var data := before + tail;
    RecordHeader(crc, e, []);
    assert r + [] == r;
    HeaderOfPrefix(before, r[..HEADER_SIZE + kept], after);
    assert r[..HEADER_SIZE + kept][..4] == r[..4] && r[..HEADER_SIZE + kept][4..8] == r[4..8];
    if |after| >= |e| - kept {
      assert r[8..8 + |e|] == e;
      assert data[|before| + 8..|before| + 8 + |e|] == Mixed(e, kept, after);
    }
  }

  // ---------- A header that is itself cut ----------

  /** The lengths below this one have only zeros in the first `kept` bytes of their header. */
  function ZerosBelow(kept: nat): nat {
    if kept == 1 then 0x100_0000 else if kept == 2 then 0x1_0000 else if kept == 3 then 0x100 else 1
  }

  lemma CutLength(n: nat, h: seq<byte>, kept: nat)
    requires 0 < kept <= 4 && 0 < n < U32_LIMIT && |h| == 4
    requires h[..kept] == PutU32(n)[..kept] && forall i :: kept <= i < 4 ==> h[i] == 0
    ensures GetU32(h) <= n && (GetU32(h) == 0 <==> n < ZerosBelow(kept))
  {
    GetPutU32(n);
    forall i | 0 <= i < kept ensures h[i] == PutU32(n)[i] {
      assert h[..kept][i] == PutU32(n)[..kept][i];
    }
  }

  lemma CutHeaderAt(crc: Checksum, before: seq<byte>, e: Entry, kept: nat)
    requires 0 < kept < HEADER_SIZE && 0 < |e| <= ENTRY_MAX
    ensures RecordAt(crc, before + Record(crc, e)[..kept], |before|)
         == if |e| >= ZerosBelow(kept) then End else if crc([]) == 0 then Next([]) else Damage
  {
    hide GetU32, PutU32;
    var t := Record(crc, e)[..kept];
    var h := HeaderAt(before + t, |before|);
    var low := if kept < 4 then kept else 4;
    assert h == t + seq(HEADER_SIZE - kept, _ => 0);
    forall i | 0 <= i < low ensures h[..4][i] == PutU32(|e|)[i] {
      assert h[i] == t[i] == Record(crc, e)[i];
    }
    assert h[..4][..low] == PutU32(|e|)[..low];
    CutLength(|e|, h[..4], low);
    if kept < 4 {
      assert h[4..] == [0, 0, 0, 0];
      ZeroU32();
    }
  }

  lemma ZeroU32()
    ensures GetU32([0, 0, 0, 0]) == 0
  {
  }

  /** A crash in the middle of a header. The short read is no error, so the missing bytes count as
      zeros: what was written before is read alone if and only if the length already shows in the
      bytes that are there, or the empty payload's checksum is not zero. Otherwise an empty entry
      nobody wrote comes out, and the offset is beyond the end of the segment. */
  lemma TornHeader(crc: Checksum, es: seq<Entry>, e: Entry, kept: nat)
    requires Fits(es) && 0 < kept < HEADER_SIZE && 0 < |e| <= ENTRY_MAX
    ensures var data := Encode(crc, es) + Record(crc, e)[..kept];
            var read := Readable(crc, data, 0);
            && (read == es <==> |e| >= ZerosBelow(kept) || crc([]) != 0)
            && (read != es ==> read == es + [[]] && Scan(crc, data, 0, |es| + 1).offset > |data|)
  {
    hide Encode, Record, RecordAt, ZerosBelow;
    var t, at := Record(crc, e)[..kept], |Encode(crc, es)|;
    var data := Encode(crc, es) + t;
    var rest := Readable(crc, data, at);
    assert Readable(crc, data, 0) == es + rest by {
      ReadableAfter(crc, [], es, t);
      var none: seq<byte> := [];
      assert none + Encode(crc, es) + t == data;
    }
    CutHeaderAt(crc, Encode(crc, es), e, kept);
    NothingReadable(crc, data, at);
    if rest == [] {
      assert es + rest == es;
    } else {
      NothingBeyond(crc, data, at + HEADER_SIZE);
      assert rest == [[]] + [];
      assert |es + rest| > |es|;
      ScanTakes(crc, data, 0, |es| + 1);
      ScanOffset(crc, data, 0, |es| + 1);
      EncodeSnoc(crc, es, []);
    }
  }

  lemma {:induction false} ScanOffset(crc: Checksum, data: seq<byte>, off: nat, max: int)
    ensures var s := Scan(crc, data, off, max); s.offset == off + |Encode(crc, s.entries)|
    decreases |data| - off
  {
    hide RecordAt;
    if max <= 0 || !RecordAt(crc, data, off).Next? {
    } else {
      var p := RecordAt(crc, data, off).entry;
      ScanOffset(crc, data, off + HEADER_SIZE + |p|, max - 1);
      var rest := Scan(crc, data, off + HEADER_SIZE + |p|, max - 1).entries;
      assert ([p] + rest)[1..] == rest;
    }
  }

  lemma NothingBeyond(crc: Checksum, data: seq<byte>, off: nat)
    requires off >= |data|
    ensures Readable(crc, data, off) == []
  {
  }
}
