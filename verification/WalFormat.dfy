/** The on-disk record format of the write-ahead log and the scan of one segment
    (internal/reporter/wal.go). The checksum is a parameter: nothing below depends on
    what it computes. */
module WalFormat {
  import opened Bytes

  const HEADER_SIZE := 8
  const ENTRY_MAX := 4 * 1024 * 1024

  type Entry = seq<byte>
  type Checksum = Entry -> u32

  /** One record: length, checksum, payload. */
  function Record(crc: Checksum, p: Entry): (r: seq<byte>)
    ensures |r| == HEADER_SIZE + |p|
  {
    PutU32(|p|) + PutU32(crc(p)) + p
  }

  /** Records one after the other: what a segment holds once every append has finished. */
  function Encode(crc: Checksum, es: seq<Entry>): seq<byte> {
    if es == [] then [] else Record(crc, es[0]) + Encode(crc, es[1..])
  }

  /** The result of reading one segment. */
  datatype Scanned = Scanned(entries: seq<Entry>, offset: nat, corrupt: bool)

  /** The header buffer after one `Read`: at the end of the file the read is short and
      leaves the rest of the buffer zero, and that is not reported as an error. */
  function HeaderAt(data: seq<byte>, off: nat): (h: seq<byte>)
    requires off < |data|
    ensures |h| == HEADER_SIZE
  {
    if off + HEADER_SIZE <= |data| then data[off..off + HEADER_SIZE]
    else data[off..] + seq(HEADER_SIZE - (|data| - off), _ => 0)
  }

  /** What one round of the read loop finds at `off`. */
  datatype Found = Next(entry: Entry) | End | Damage

  function RecordAt(crc: Checksum, data: seq<byte>, off: nat): (f: Found)
    ensures f.Next? ==> off < |data|
  {
    if off >= |data| then End
    else
      var h := HeaderAt(data, off);
      var n := GetU32(h[..4]);
      if n > ENTRY_MAX then Damage
      else if n > 0 && off + HEADER_SIZE + n > |data| then End
      else
        var p := if n == 0 then [] else data[off + HEADER_SIZE..off + HEADER_SIZE + n];
        if crc(p) != GetU32(h[4..]) then Damage else Next(p)
  }

  /** The scan as the read loop makes it: at most `max` records from `off`. */
  function Scan(crc: Checksum, data: seq<byte>, off: nat, max: int): (s: Scanned)
    ensures s.offset >= off
    decreases |data| - off
  {
    if max <= 0 then Scanned([], off, false)
    else
      match RecordAt(crc, data, off)
      case End => Scanned([], off, false)
      case Damage => Scanned([], off, true)
      case Next(p) =>
        var rest := Scan(crc, data, off + HEADER_SIZE + |p|, max - 1);
        Scanned([p] + rest.entries, rest.offset, rest.corrupt)
  }

  /** Everything a reader can still get out of a segment from `off` on, whatever bytes it holds. */
  function Readable(crc: Checksum, data: seq<byte>, off: nat): seq<Entry>
    decreases |data| - off
  {
    match RecordAt(crc, data, off)
    case Next(p) => [p] + Readable(crc, data, off + HEADER_SIZE + |p|)
    case _ => []
  }

  /** One round of the read loop: header, bounds, payload, checksum. */
  method ReadRecord(crc: Checksum, data: seq<byte>, off: nat) returns (f: Found)
    ensures f == RecordAt(crc, data, off)
  {
    if off >= |data| {
      return End;
    }
    var h := HeaderAt(data, off);
    var n, sum := GetU32(h[..4]), GetU32(h[4..]);
    if n > ENTRY_MAX {
      return Damage;
    }
    if n > 0 && off + HEADER_SIZE + n > |data| {
      return End;
    }
    var payload: Entry := if n == 0 then [] else data[off + HEADER_SIZE..off + HEADER_SIZE + n];
    if crc(payload) != sum {
      return Damage;
    }
    return Next(payload);
  }

  /** The read loop of `readSegment`. */
  method ReadSegment(crc: Checksum, data: seq<byte>, start: nat, max: int)
    returns (out: seq<Entry>, offset: nat, corrupt: bool)
    ensures Scanned(out, offset, corrupt) == Scan(crc, data, start, max)
  {
    hide RecordAt;
    out, offset, corrupt := [], start, false;
    while |out| < max
      invariant Scan(crc, data, start, max)
             == var s := Scan(crc, data, offset, max - |out|);
                Scanned(out + s.entries, s.offset, s.corrupt)
      decreases max - |out|
    {
      var found := ReadRecord(crc, data, offset);
      match found {
        case End =>
          return;
        case Damage =>
          return out, offset, true;
        case Next(payload) =>
          ghost var s := Scan(crc, data, offset + HEADER_SIZE + |payload|, max - |out| - 1);
          assert out + ([payload] + s.entries) == out + [payload] + s.entries;
          out := out + [payload];
          offset := offset + HEADER_SIZE + |payload|;
      }
    }
  }

  /** A bounded scan returns the first `max` readable entries, and its offset is where the
      remaining ones begin. */
  lemma {:induction false} ScanTakes(crc: Checksum, data: seq<byte>, off: nat, max: int)
    ensures Scan(crc, data, off, max).entries == Take(Readable(crc, data, off), max)
    ensures Readable(crc, data, Scan(crc, data, off, max).offset) == Drop(Readable(crc, data, off), max)
    decreases |data| - off
  {
    hide RecordAt;
    var all := Readable(crc, data, off);
    if max <= 0 || !RecordAt(crc, data, off).Next? {
    } else {
      var p := RecordAt(crc, data, off).entry;
      var rest := Readable(crc, data, off + HEADER_SIZE + |p|);
      ScanTakes(crc, data, off + HEADER_SIZE + |p|, max - 1);
      assert all == [p] + rest;
      assert Take(all, max) == [p] + Take(rest, max - 1);
      assert Drop(all, max) == Drop(rest, max - 1);
    }
  }

  /** Each readable entry costs at least a header, so arbitrary bytes hold finitely many. */
  lemma {:induction false} ReadableBounded(crc: Checksum, data: seq<byte>, off: nat)
    ensures off >= |data| ==> Readable(crc, data, off) == []
    ensures off < |data| ==> HEADER_SIZE * |Readable(crc, data, off)| <= |data| - off + HEADER_SIZE - 1
    decreases |data| - off
  {
    hide RecordAt;
    if !RecordAt(crc, data, off).Next? {
    } else {
      ReadableBounded(crc, data, off + HEADER_SIZE + |RecordAt(crc, data, off).entry|);
    }
  }

  // ---------- Segments written by Append ----------

  /** An append that has written its header but not all of its payload; nothing, otherwise. */
  predicate Torn(t: seq<byte>) {
    t == [] || (|t| >= HEADER_SIZE && |t| - HEADER_SIZE < GetU32(t[..4]) <= ENTRY_MAX)
  }

  predicate Fits(es: seq<Entry>) {
    forall i :: 0 <= i < |es| ==> |es[i]| <= ENTRY_MAX
  }

  lemma RecordHeader(crc: Checksum, p: Entry, rest: seq<byte>)
    requires |p| <= ENTRY_MAX
    ensures GetU32((Record(crc, p) + rest)[..4]) == |p|
    ensures GetU32((Record(crc, p) + rest)[4..8]) == crc(p)
    ensures (Record(crc, p) + rest)[8..8 + |p|] == p
  {
    var r := Record(crc, p) + rest;
    assert r[..4] == PutU32(|p|) && r[4..8] == PutU32(crc(p));
    assert GetU32(PutU32(|p|)) == |p| by { GetPutU32(|p|); }
    assert GetU32(PutU32(crc(p))) == crc(p) by { GetPutU32(crc(p)); }
  }

  lemma RecordFound(crc: Checksum, before: seq<byte>, p: Entry, after: seq<byte>)
    requires |p| <= ENTRY_MAX
    ensures RecordAt(crc, before + Record(crc, p) + after, |before|) == Next(p)
  {
    var data, tail := before + Record(crc, p) + after, Record(crc, p) + after;
    assert data == before + tail;
    var h := HeaderAt(data, |before|);
    assert h == tail[..8];
    assert h[..4] == tail[..4] && h[4..] == tail[4..8];
    RecordHeader(crc, p, after);
    assert data[|before| + 8..|before| + 8 + |p|] == tail[8..8 + |p|];
  }

  lemma TornEnds(crc: Checksum, before: seq<byte>, t: seq<byte>)
    requires Torn(t)
    ensures RecordAt(crc, before + t, |before|) == End
  {
    if t != [] {
      var h := HeaderAt(before + t, |before|);
      assert h[..4] == t[..4];
    }
  }

  lemma {:induction false} EncodeAppend(crc: Checksum, a: seq<Entry>, b: seq<Entry>)
    ensures Encode(crc, a + b) == Encode(crc, a) + Encode(crc, b)
  {
    if a == [] {
      assert a + b == b;
    } else {
      assert (a + b)[1..] == a[1..] + b;
      EncodeAppend(crc, a[1..], b);
    }
  }

  lemma EncodeSnoc(crc: Checksum, es: seq<Entry>, p: Entry)
    ensures Encode(crc, es + [p]) == Encode(crc, es) + Record(crc, p)
  {
    EncodeAppend(crc, es, [p]);
    assert Encode(crc, [p]) == Record(crc, p) + Encode(crc, [p][1..]);
  }

  /** From a record boundary on, a segment reads back exactly the entries written after it;
      a half-written record at the end is invisible. */
  lemma {:induction false} ReadBack(crc: Checksum, before: seq<byte>, es: seq<Entry>, t: seq<byte>)
    requires Fits(es) && Torn(t)
    ensures Readable(crc, before + Encode(crc, es) + t, |before|) == es
    decreases |es|
  {
    hide RecordAt;
    hide Torn;
    var data := before + Encode(crc, es) + t;
    if es == [] {
      assert data == before + t;
      TornEnds(crc, before, t);
    } else {
      var after := Encode(crc, es[1..]) + t;
      var before' := before + Record(crc, es[0]);
      assert data == before + Record(crc, es[0]) + after;
      RecordFound(crc, before, es[0], after);
      ReadBack(crc, before', es[1..], t);
      assert data == before' + Encode(crc, es[1..]) + t;
      assert es == [es[0]] + es[1..];
    }
  }

  /** The byte offset of the `n`-th record of a segment. */
  function Boundary(crc: Checksum, es: seq<Entry>, n: nat): nat
    requires n <= |es|
  {
    |Encode(crc, es[..n])|
  }

  lemma ReadFromBoundary(crc: Checksum, es: seq<Entry>, t: seq<byte>, n: nat)
    requires Fits(es) && Torn(t) && n <= |es|
    ensures Readable(crc, Encode(crc, es) + t, Boundary(crc, es, n)) == es[n..]
  {
    assert es == es[..n] + es[n..];
    EncodeAppend(crc, es[..n], es[n..]);
    ReadBack(crc, Encode(crc, es[..n]), es[n..], t);
  }

  /** A scan that starts on a record boundary stops on one. */
  lemma {:induction false} ScanToBoundary(crc: Checksum, es: seq<Entry>, t: seq<byte>, n: nat, max: int)
    requires Fits(es) && Torn(t) && n <= |es|
    ensures var s := Scan(crc, Encode(crc, es) + t, Boundary(crc, es, n), max);
            n + |s.entries| <= |es| && s.offset == Boundary(crc, es, n + |s.entries|) && !s.corrupt
    decreases |es| - n
  {
    hide RecordAt;
    hide Torn;
    var data := Encode(crc, es) + t;
    assert es == es[..n] + es[n..];
    EncodeAppend(crc, es[..n], es[n..]);
    if n == |es| {
      assert es[..n] == es;
      TornEnds(crc, Encode(crc, es), t);
    } else if max > 0 {
      var before, after := Encode(crc, es[..n]), Encode(crc, es[n + 1..]) + t;
      assert es[n..][1..] == es[n + 1..];
      assert data == before + Record(crc, es[n]) + after;
      RecordFound(crc, before, es[n], after);
      assert es[..n + 1] == es[..n] + [es[n]];
      EncodeSnoc(crc, es[..n], es[n]);
      ScanToBoundary(crc, es, t, n + 1, max - 1);
    }
  }
}
