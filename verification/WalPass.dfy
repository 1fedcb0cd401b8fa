/** Writer and reader of a log side by side (internal/reporter/wal.go): the writer acts one file
    operation at a time, and a call of `ReadFrom` opens the files it has listed one after the
    other, while the writer goes on. */
module WalPass {
  import opened Bytes
  import opened Options
  import opened WalFormat
  import opened WalRead
  import opened WalLog
  import opened WalWrite
  import opened WalHistory

  function Max(a: nat, b: nat): nat { if a > b then a else b }

  // ---------- The writer ----------

  /** One operation of the writer: rotate, write some of the record, write the rest, delete the
      oldest file; or the process dies. */
  datatype LogEvent = Begin(entry: Entry) | Progress(n: nat) | Finish | Delete | Crash

  predicate OverQuota(dir: seq<File>, maxBytes: int)
    requires Listing(dir)
  {
    maxBytes > 0 && |dir| > 1 && Total(dir) > maxBytes
  }

  predicate CanOp(crc: Checksum, maxBytes: int, l: Log, ev: LogEvent) {
    && Listing(l.dir) && |l.segs| == |l.dir|
    && match ev
       case Begin(e) => CanBegin(l, e)
       case Progress(n) => CanWriteUpTo(crc, l, n)
       case Finish => l.writing.Some? && |l.torn| <= |Record(crc, l.writing.value)|
       case Delete => l.writing.None? && l.torn == [] && OverQuota(l.dir, maxBytes)
       case Crash => true
  }

  function AfterOp(crc: Checksum, maxBytes: int, l: Log, ev: LogEvent): Log
    requires CanOp(crc, maxBytes, l, ev)
  {
    match ev
    case Begin(e) => BeginAppend(l, e)
    case Progress(n) => WriteUpTo(crc, l, n)
    case Finish => Complete(crc, l)
    case Delete => DropFirst(l, 1)
    case Crash => l.(writing := None)
  }

  /** A deletion leaves no non-zero cursor offset without its segment. */
  predicate Spares(l: Log, ev: LogEvent, cur: Cursor) {
    ev.Delete? && |l.dir| > 0 ==> Survives(l.dir[1..], cur)
  }

  /** Deleting one file at a time ends where the quota enforcement ends. */
  lemma DeletesEnforce(dir: seq<File>, maxBytes: int)
    requires Listing(dir)
    ensures OverQuota(dir, maxBytes) ==> Listing(dir[1..]) && Enforce(dir[1..], maxBytes) == Enforce(dir, maxBytes)
    ensures !OverQuota(dir, maxBytes) ==> Enforce(dir, maxBytes) == dir
  {
    hide Sorted;
    ListingTail(dir);
    if OverQuota(dir, maxBytes) {
      assert Total(dir[1..]) == Total(dir) - |dir[0].data|;
      assert Evict(dir, Total(dir), maxBytes) == Evict(dir[1..], Total(dir[1..]), maxBytes);
    }
  }

  /** Every operation of the writer keeps the log intact and every spared cursor in position. */
  lemma OpKeeps(crc: Checksum, maxBytes: int, l: Log, ev: LogEvent)
    requires LogInv(crc, l) && CanOp(crc, maxBytes, l, ev)
    ensures var l' := AfterOp(crc, maxBytes, l, ev);
            && LogInv(crc, l') && l.accepted <= l'.accepted && l.removed <= l'.removed
            && |l'.dir| > 0 && l.dir[0].id <= l'.dir[0].id && Active(l.dir).id <= Active(l'.dir).id
  {
    hide Intact, Record, Flatten;
    LogShape(crc, l);
    match ev {
      case Begin(e) => BeginAppendKeeps(crc, l, e);
      case Progress(n) => WriteUpToKeeps(crc, l, n);
      case Finish => CompleteKeeps(crc, l);
      case Delete => DropKeeps(crc, l, 1);
      case Crash =>
    }
  }

  lemma OpPosition(crc: Checksum, maxBytes: int, l: Log, ev: LogEvent, cur: Cursor, pos: nat)
    requires LogInv(crc, l) && CanOp(crc, maxBytes, l, ev) && Spares(l, ev, cur) && Position(crc, l, cur, pos)
    ensures var l' := AfterOp(crc, maxBytes, l, ev);
            Position(crc, l', cur, Max(pos, l'.removed)) && Max(pos, l'.removed) <= |l'.accepted|
  {
    hide Intact, Marks, Record, Flatten;
    match ev {
      case Begin(e) => BeginAppendPosition(crc, l, e, cur, pos);
      case Progress(n) => WriteUpToPosition(crc, l, n, cur, pos);
      case Finish => CompletePosition(crc, l, cur, pos);
      case Delete => DropPosition(crc, l, 1, cur, pos);
      case Crash =>
    }
    OpKeeps(crc, maxBytes, l, ev);
    var l' := AfterOp(crc, maxBytes, l, ev);
    PositionBound(crc, l', cur, Max(pos, l'.removed));
  }

  // ---------- One call of ReadFrom ----------

  /** A call in progress. It has listed the segments up to `last` and will open `next`; `cur` and
      `out` are its local variables. `pos` is where `cur` stands in the history, `got` are the
      positions of `out`, `seen` the files as they were when opened. */
  datatype Pass = Pass(
    start: Cursor, from: nat, max: int, last: nat,
    next: nat, cur: Cursor, pos: nat, out: seq<Entry>, got: seq<nat>, seen: seq<File>)

  function Open(l: Log, cur: Cursor, pos: nat, max: int): Pass
    requires Listing(l.dir)
  {
    var c := Normalize(l.dir, cur);
    Pass(c, pos, max, Active(l.dir).id, l.dir[0].id, c, pos, [], [], [])
  }

  /** A listed segment when it is opened: deleted ones are the oldest. */
  function Opened(l: Log, id: nat): File
    requires Listing(l.dir)
  {
    if l.dir[0].id <= id < l.dir[0].id + |l.dir| then l.dir[id - l.dir[0].id] else Gone(id)
  }

  /** One round of the loop over the segments. */
  function Round(crc: Checksum, f: File, last: nat, cur: Cursor, out: seq<Entry>, max: int): (seq<Entry>, Cursor) {
    if f.id < cur.segment || |out| >= max then (out, cur)
    else
      var s := ScanFile(crc, f, cur.offset, max - |out|);
      var out' := out + s.entries;
      (out',
       if |out'| < max && f.id < last then Cursor(f.id + 1, 0)
       else if s.offset > 0 then Cursor(f.id, s.offset)
       else cur)
  }

  function Range(from: nat, n: nat): (s: seq<nat>)
    ensures |s| == n && forall i :: 0 <= i < n ==> s[i] == from + i
  {
    seq(n, i requires i >= 0 => from + i)
  }

  function Advance(crc: Checksum, l: Log, p: Pass): Pass
    requires Listing(l.dir)
  {
    var f := Opened(l, p.next);
    var (out, cur) := Round(crc, f, p.last, p.cur, p.out, p.max);
    var n: nat := if |out| >= |p.out| then |out| - |p.out| else 0;
    p.(next := p.next + 1, cur := cur, pos := p.pos + n, out := out, got := p.got + Range(p.pos, n), seen := p.seen + [f])
  }

  /** The loop is over, or would not open another file. */
  predicate Finished(p: Pass) {
    p.next > p.last || |p.out| >= p.max
  }

  // ---------- The call is ReadFrom ----------

  lemma {:induction false} VisitSnoc(crc: Checksum, view: seq<File>, f: File, last: nat, cur: Cursor, out: seq<Entry>, max: int)
    ensures Visit(crc, view + [f], last, cur, out, max)
         == var (o, c) := Visit(crc, view, last, cur, out, max); Round(crc, f, last, c, o, max)
  {
    hide ScanFile;
    if view == [] {
      assert (view + [f])[0] == f && (view + [f])[1..] == [];
    } else {
      var g := view[0];
      assert (view + [f])[0] == g && (view + [f])[1..] == view[1..] + [f];
      if g.id < cur.segment || |out| >= max {
        VisitSnoc(crc, view[1..], f, last, cur, out, max);
      } else {
        var s := ScanFile(crc, g, cur.offset, max - |out|);
        var cur' := if s.offset > 0 then Cursor(g.id, s.offset) else cur;
        if |out + s.entries| < max {
          VisitSnoc(crc, view[1..], f, last, if g.id < last then Cursor(g.id + 1, 0) else cur', out + s.entries, max);
        }
      }
    }
  }

  /** What the call has computed is the loop of `ReadFrom` over the files it has opened. */
  predicate PassReads(crc: Checksum, p: Pass) {
    && p.start.segment <= p.last
    && (p.out, p.cur) == Visit(crc, p.seen, p.last, p.start, [], p.max)
    && |p.seen| <= p.next
    && forall i :: 0 <= i < |p.seen| ==> p.seen[i].id == p.next - |p.seen| + i
  }

  lemma OpenReads(crc: Checksum, l: Log, cur: Cursor, pos: nat, max: int)
    requires Listing(l.dir)
    ensures PassReads(crc, Open(l, cur, pos, max))
  {
  }

  lemma AdvanceReads(crc: Checksum, l: Log, p: Pass)
    requires Listing(l.dir) && PassReads(crc, p) && (forall i :: 0 <= i < |l.dir| ==> l.dir[i].id == l.dir[0].id + i)
    ensures PassReads(crc, Advance(crc, l, p))
  {
    hide Visit, ScanFile, Round;
    VisitSnoc(crc, p.seen, Opened(l, p.next), p.last, p.start, [], p.max);
  }

  /** A finished call returns what `ReadFrom` returns on the files as they were when opened;
      `rest` stands for the listed files that a full batch left unopened. */
  lemma FinishedIsReadFrom(crc: Checksum, p: Pass, rest: seq<File>)
    requires PassReads(crc, p) && (|p.out| >= p.max || rest == [])
    requires p.seen + rest != [] && (p.seen + rest)[|p.seen + rest| - 1].id == p.last
    ensures ReadFrom(crc, p.seen + rest, p.start, p.max) == (p.out, p.cur)
  {
    hide Visit;
    if rest == [] {
      assert p.seen + rest == p.seen;
    } else {
      VisitRest(crc, p.seen, rest, p.last, p.start, [], p.max);
    }
  }

  lemma {:induction false} VisitRest(crc: Checksum, view: seq<File>, rest: seq<File>, last: nat, cur: Cursor, out: seq<Entry>, max: int)
    requires |Visit(crc, view, last, cur, out, max).0| >= max
    ensures Visit(crc, view + rest, last, cur, out, max) == Visit(crc, view, last, cur, out, max)
    decreases |rest|
  {
    hide Visit;
    if rest == [] {
      assert view + rest == view;
    } else {
      var init := rest[..|rest| - 1];
      assert view + rest == (view + init) + [rest[|rest| - 1]];
      VisitRest(crc, view, init, last, cur, out, max);
      VisitSnoc(crc, view + init, rest[|rest| - 1], last, cur, out, max);
    }
  }

  // ---------- What the call collects ----------

  predicate Increasing(s: seq<nat>, low: nat, high: nat) {
    && (forall i, j :: 0 <= i < j < |s| ==> s[i] < s[j])
    && (forall i :: 0 <= i < |s| ==> low <= s[i] < high)
  }

  /** The entries collected are accepted ones, each once and in order, from the position of the
      start on; those passed over were deleted by the quota. */
  ghost predicate Collected(l: Log, p: Pass) {
    && |p.got| == |p.out|
    && Increasing(p.got, p.from, p.pos)
    && p.from <= p.pos <= |l.accepted|
    && (forall i :: 0 <= i < |p.got| ==> p.out[i] == l.accepted[p.got[i]])
    && (forall j: nat :: p.from <= j < p.pos ==> j in p.got || j < l.removed)
  }

  /** Where the cursor of the call stands while the loop goes on: at a segment still to be opened,
      or before all that is left. */
  predicate Frontier(l: Log, p: Pass) {
    || Finished(p)
    || p.cur.segment >= p.next
    || (|l.dir| > 0 && p.cur.segment < l.dir[0].id && p.next <= l.dir[0].id)
  }

  ghost predicate PassInv(crc: Checksum, l: Log, p: Pass) {
    && PassReads(crc, p)
    && Position(crc, l, p.cur, p.pos)
    && Collected(l, p)
    && Frontier(l, p)
    && Listing(l.dir) && p.last <= Active(l.dir).id
  }

  lemma OpenKeeps(crc: Checksum, l: Log, cur: Cursor, pos: nat, max: int)
    requires LogInv(crc, l) && Position(crc, l, cur, pos)
    ensures PassInv(crc, l, Open(l, cur, pos, max))
    ensures Normalize(l.dir, cur) == cur
  {
    hide Intact, Marks, Flatten;
    OpenReads(crc, l, cur, pos, max);
    PositionBound(crc, l, cur, pos);
    MarkInRange(crc, l.dir, l.segs, l.torn, cur, pos - l.removed);
    IntactShape(crc, l.dir, l.segs, l.torn);
  }

  /** The writer goes on during the call. */
  function Clamp(p: Pass, l: Log): Pass {
    p.(pos := Max(p.pos, l.removed))
  }

  lemma WriterKeeps(crc: Checksum, maxBytes: int, l: Log, ev: LogEvent, p: Pass)
    requires LogInv(crc, l) && PassInv(crc, l, p) && CanOp(crc, maxBytes, l, ev) && Spares(l, ev, p.cur)
    ensures PassInv(crc, AfterOp(crc, maxBytes, l, ev), Clamp(p, AfterOp(crc, maxBytes, l, ev)))
  {
    hide LogInv, Position, Visit, CanOp, AfterOp;
    OpKeeps(crc, maxBytes, l, ev);
    OpPosition(crc, maxBytes, l, ev, p.cur, p.pos);
    var l' := AfterOp(crc, maxBytes, l, ev);
    assert Listing(l'.dir) by { LogShape(crc, l'); }
    forall i | 0 <= i < |p.got| ensures p.out[i] == l'.accepted[p.got[i]] {
      assert l'.accepted[p.got[i]] == l.accepted[p.got[i]];
    }
  }

  // ---------- Opening the next file ----------

  /** The cursor is on the boundary of entry `n` of the segment with index `i`. */
  predicate StandsAt(crc: Checksum, l: Log, cur: Cursor, pos: nat, i: nat, n: nat) {
    && i < |l.segs| && n <= |l.segs[i]| && cur.offset == Boundary(crc, l.segs[i], n)
    && pos == l.removed + |Flatten(l.segs[..i])| + n
  }

  lemma StandsSomewhere(crc: Checksum, l: Log, p: Pass) returns (n: nat)
    requires LogInv(crc, l) && Position(crc, l, p.cur, p.pos) && Frontier(l, p) && !Finished(p)
    requires p.cur.segment <= p.next && l.dir[0].id <= p.next < l.dir[0].id + |l.dir|
    ensures StandsAt(crc, l, p.cur, p.pos, p.next - l.dir[0].id, n)
  {
    hide Intact, Encode;
    LogShape(crc, l);
    if p.cur.segment < l.dir[0].id {
      n := 0;
      assert l.segs[..0] == [] && Flatten([]) == [];
      BoundaryZero(crc, l.segs[0]);
    } else {
      var i: nat, m: nat :| At(crc, l.dir, l.segs, p.cur, i, m) && p.pos - l.removed == |Flatten(l.segs[..i])| + m;
      n := m;
    }
  }

  /** Scanning a segment of an intact log from a boundary. */
  lemma ScanSegment(crc: Checksum, l: Log, i: nat, n: nat, want: int)
    requires LogInv(crc, l) && i < |l.segs| && n <= |l.segs[i]|
    ensures i < |l.dir|
    ensures var s := ScanFile(crc, l.dir[i], Boundary(crc, l.segs[i], n), want);
            && n + |s.entries| <= |l.segs[i]|
            && s.entries == Take(l.segs[i][n..], want)
            && s.offset == Boundary(crc, l.segs[i], n + |s.entries|)
  {
    hide Encode, Torn, Fits, Scan, Readable, Flatten;
    var t := if i == |l.segs| - 1 then l.torn else [];
    TornNothing();
    assert l.dir[i].data == Encode(crc, l.segs[i]) + t;
    assert Fits(l.segs[i]) by { IntactShape(crc, l.dir, l.segs, l.torn); }
    ScanToBoundary(crc, l.segs[i], t, n, want);
    ScanTakes(crc, l.dir[i].data, Boundary(crc, l.segs[i], n), want);
    SegmentReadable(crc, l.dir, l.segs, l.torn, i, n);
  }

  /** The entries of a segment are consecutive accepted ones. */
  lemma SegmentAccepted(crc: Checksum, l: Log, i: nat)
    requires LogInv(crc, l) && i < |l.segs|
    ensures var b := l.removed + |Flatten(l.segs[..i])|;
            b + |l.segs[i]| <= |l.accepted| && l.accepted[b..b + |l.segs[i]|] == l.segs[i]
    ensures |Flatten(l.segs[..i + 1])| == |Flatten(l.segs[..i])| + |l.segs[i]|
  {
    hide Intact, Flatten;
    FlattenSplit(l.segs, i);
    assert l.segs[..i + 1] == l.segs[..i] + [l.segs[i]];
    FlattenAppend(l.segs[..i], [l.segs[i]]);
    FlattenOne(l.segs[i]);
    var b := |Flatten(l.segs[..i])|;
    assert l.accepted[l.removed..][b..b + |l.segs[i]|] == l.segs[i];
  }

  /** A round at a file from which a scan takes entries `n..m` of a segment. */
  lemma RoundTakes(crc: Checksum, f: File, last: nat, cur: Cursor, out: seq<Entry>, max: int, es: seq<Entry>, n: nat, m: nat)
    requires cur.segment <= f.id && |out| < max && n <= m <= |es|
    requires var s := ScanFile(crc, f, cur.offset, max - |out|);
             s.entries == es[n..m] == Take(es[n..], max - |out|) && s.offset == Boundary(crc, es, m)
    ensures var (o, c) := Round(crc, f, last, cur, out, max);
            && o == out + es[n..m]
            && (if |o| < max && f.id < last then m == |es| && c == Cursor(f.id + 1, 0)
                else if Boundary(crc, es, m) > 0 then c == Cursor(f.id, Boundary(crc, es, m))
                else c == cur)
  {
    hide ScanFile, Boundary;
  }

  /** What a scan of a segment takes, as a slice of it. */
  lemma ScanSlice(crc: Checksum, l: Log, i: nat, n: nat, want: int) returns (m: nat)
    requires LogInv(crc, l) && i < |l.segs| && n <= |l.segs[i]| && want > 0
    ensures i < |l.dir| && n <= m <= |l.segs[i]|
    ensures var s := ScanFile(crc, l.dir[i], Boundary(crc, l.segs[i], n), want);
            s.entries == l.segs[i][n..m] == Take(l.segs[i][n..], want) && s.offset == Boundary(crc, l.segs[i], m)
  {
    ScanSegment(crc, l, i, n, want);
    hide ScanFile, Boundary, LogInv, Take;
    m := n + |ScanFile(crc, l.dir[i], Boundary(crc, l.segs[i], n), want).entries|;
    TakeOf(l.segs[i][n..], want);
    assert l.segs[i][n..][..m - n] == l.segs[i][n..m];
  }

  /** The round at a file that is still there takes entries `n..m` of its segment. */
  lemma PresentRound(crc: Checksum, l: Log, p: Pass, n: nat) returns (m: nat)
    requires LogInv(crc, l) && !Finished(p) && p.cur.segment <= p.next
    requires l.dir[0].id <= p.next < l.dir[0].id + |l.dir|
    requires StandsAt(crc, l, p.cur, p.pos, p.next - l.dir[0].id, n)
    ensures var (o, c) := Round(crc, Opened(l, p.next), p.last, p.cur, p.out, p.max);
            var es := l.segs[p.next - l.dir[0].id];
            && n <= m <= |es| && o == p.out + es[n..m]
            && (if |o| < p.max && p.next < p.last then m == |es| && c == Cursor(p.next + 1, 0)
                else if Boundary(crc, es, m) > 0 then c == Cursor(p.next, Boundary(crc, es, m))
                else c == p.cur)
  {
    LogShape(crc, l);
    hide ScanFile, Boundary, LogInv, Flatten, Take, Round;
    var i := p.next - l.dir[0].id;
    m := ScanSlice(crc, l, i, n, p.max - |p.out|);
    RoundTakes(crc, l.dir[i], p.last, p.cur, p.out, p.max, l.segs[i], n, m);
  }

  lemma SliceOfSlice<T>(s: seq<T>, b: nat, c: nat, n: nat, m: nat)
    requires n <= m && b + m <= c <= |s|
    ensures s[b..c][n..m] == s[b + n..b + m]
  {
    var x, y := s[b..c][n..m], s[b + n..b + m];
    forall i | 0 <= i < m - n ensures x[i] == y[i] {
      assert x[i] == s[b..c][n + i] == s[b + (n + i)];
    }
    assert x == y;
  }

  /** Where the cursor of a call ends up after a file that is still there. */
  lemma PresentPosition(crc: Checksum, l: Log, p: Pass, n: nat)
    requires LogInv(crc, l) && !Finished(p) && p.cur.segment <= p.next && p.last <= Active(l.dir).id
    requires l.dir[0].id <= p.next < l.dir[0].id + |l.dir| && Position(crc, l, p.cur, p.pos)
    requires StandsAt(crc, l, p.cur, p.pos, p.next - l.dir[0].id, n)
    ensures var q := Advance(crc, l, p);
            && p.out <= q.out && q.pos == p.pos + |q.out| - |p.out| && Position(crc, l, q.cur, q.pos)
            && q.pos <= |l.accepted| && q.out[|p.out|..] == l.accepted[p.pos..q.pos]
            && (Finished(q) || q.cur.segment == q.next)
  {
    hide Intact, Encode, Flatten, Boundary, Round;
    LogShape(crc, l);
    var i := p.next - l.dir[0].id;
    var m := PresentRound(crc, l, p, n);
    SegmentAccepted(crc, l, i);
    var q, b := Advance(crc, l, p), p.pos - n;
    SliceOfSlice(l.accepted, b, b + |l.segs[i]|, n, m);
    if |q.out| < p.max && p.next < p.last {
      BoundaryZero(crc, l.segs[i + 1]);
      assert At(crc, l.dir, l.segs, q.cur, i + 1, 0);
    } else if Boundary(crc, l.segs[i], m) > 0 {
      assert At(crc, l.dir, l.segs, q.cur, i, m);
    } else if m > 0 {
      BoundaryPositive(crc, l.segs[i], m);
    }
  }

  lemma TakeOf<T>(s: seq<T>, want: int)
    requires want > 0
    ensures Take(s, want) == s[..|Take(s, want)|] && (|Take(s, want)| < want ==> |Take(s, want)| == |s|)
  {
  }

  /** A deleted file adds nothing, and the cursor stays before all that is left. */
  lemma GonePosition(crc: Checksum, l: Log, p: Pass)
    requires LogInv(crc, l) && PassInv(crc, l, p) && !Finished(p) && p.cur.segment <= p.next < l.dir[0].id
    ensures var q := Advance(crc, l, p);
            && q.out == p.out && q.pos == p.pos && Position(crc, l, q.cur, q.pos)
            && (Finished(q) || q.cur.segment == q.next)
  {
    hide Intact, Encode, Flatten, Visit, Collected;
    LogShape(crc, l);
    var q := Advance(crc, l, p);
    assert p.out + [] == p.out;
    MarksFirst(crc, l.dir, l.segs);
  }

  /** A segment the cursor has left behind is skipped. */
  lemma SkipKeeps(crc: Checksum, l: Log, p: Pass)
    requires PassInv(crc, l, p) && !Finished(p) && p.cur.segment > p.next && PassReads(crc, Advance(crc, l, p))
    requires Opened(l, p.next).id == p.next
    ensures PassInv(crc, l, Advance(crc, l, p))
  {
    hide Position, PassReads, ScanFile, Opened;
    assert Advance(crc, l, p).got == p.got;
  }

  lemma OpenedId(crc: Checksum, l: Log, id: nat)
    requires LogInv(crc, l)
    ensures Listing(l.dir) && Opened(l, id).id == id
  {
    LogShape(crc, l);
  }

  /** Opening the next file, whatever has happened to it, keeps the call right. */
  lemma AdvanceKeeps(crc: Checksum, l: Log, p: Pass)
    requires LogInv(crc, l) && PassInv(crc, l, p) && !Finished(p)
    ensures PassInv(crc, l, Advance(crc, l, p))
  {
    LogShape(crc, l);
    OpenedId(crc, l, p.next);
    AdvanceReads(crc, l, p);
    hide LogInv, Position, PassReads, Round, Opened;
    var q := Advance(crc, l, p);
    if p.cur.segment > p.next {
      SkipKeeps(crc, l, p);
    } else if p.next < l.dir[0].id {
      GonePosition(crc, l, p);
      assert q.got == p.got;
    } else {
      var n := StandsSomewhere(crc, l, p);
      PresentPosition(crc, l, p, n);
      CollectedGrows(l, p, q);
    }
  }

  lemma CollectedGrows(l: Log, p: Pass, q: Pass)
    requires Collected(l, p) && p.out <= q.out && q.pos == p.pos + |q.out| - |p.out| && q.pos <= |l.accepted|
    requires q.out[|p.out|..] == l.accepted[p.pos..q.pos] && q.from == p.from
    requires q.got == p.got + Range(p.pos, |q.out| - |p.out|)
    ensures Collected(l, q)
  {
    var n := |p.got|;
    forall i | 0 <= i < |q.got| ensures q.out[i] == l.accepted[q.got[i]] {
      if i >= n { assert q.out[i] == q.out[n..][i - n] && q.got[i] == p.pos + (i - n); }
    }
    forall j: nat | p.from <= j < q.pos ensures j in q.got || j < l.removed {
      if j >= p.pos { assert q.got[n + (j - p.pos)] == j; }
    }
  }
}
