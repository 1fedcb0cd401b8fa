/** `OpenWAL`, `Append` and the disk quota (internal/reporter/wal.go). */
module WalWrite {
  import opened Bytes
  import opened WalFormat
  import opened WalRead
  import opened WalLog

  const SEGMENT_MAX := 32 * 1024 * 1024

  /** A directory whose files are all there, listed by segment number; the last one is active. */
  predicate Listing(dir: seq<File>) {
    && |dir| > 0
    && Sorted(dir)
    && forall i :: 0 <= i < |dir| ==> dir[i].Present?
  }

  function Active(dir: seq<File>): File
    requires Listing(dir)
  {
    dir[|dir| - 1]
  }

  function Total(dir: seq<File>): nat
    requires forall i :: 0 <= i < |dir| ==> dir[i].Present?
  {
    if dir == [] then 0 else |dir[0].data| + Total(dir[1..])
  }

  /** A full active segment is closed and the next one opened. */
  function Rotate(dir: seq<File>): (r: seq<File>)
    requires Listing(dir)
    ensures Listing(r)
  {
    if |Active(dir).data| >= SEGMENT_MAX then dir + [Present(Active(dir).id + 1, [])] else dir
  }

  function Write(dir: seq<File>, bytes: seq<byte>): (r: seq<File>)
    requires Listing(dir)
    ensures Listing(r)
  {
    dir[|dir| - 1 := Present(Active(dir).id, Active(dir).data + bytes)]
  }

  /** Oldest segments go while the total is over the quota; the active one never does. */
  function Evict(dir: seq<File>, total: int, maxBytes: int): (r: seq<File>)
    requires Listing(dir)
    ensures Listing(r) && Active(r) == Active(dir)
  {
    if |dir| <= 1 || total <= maxBytes then dir
    else Evict(dir[1..], total - |dir[0].data|, maxBytes)
  }

  function Enforce(dir: seq<File>, maxBytes: int): (r: seq<File>)
    requires Listing(dir)
    ensures Listing(r) && Active(r) == Active(dir)
  {
    if maxBytes <= 0 || |dir| <= 1 then dir else Evict(dir, Total(dir), maxBytes)
  }

  function AppendTo(crc: Checksum, dir: seq<File>, p: Entry, maxBytes: int): (r: seq<File>)
    requires Listing(dir)
    ensures Listing(r)
  {
    if |p| > ENTRY_MAX then dir
    else Enforce(Write(Rotate(dir), Record(crc, p)), maxBytes)
  }

  lemma ListingTail(dir: seq<File>)
    requires Listing(dir)
    ensures dir[0].id == Active(dir).id <==> |dir| == 1
    ensures |dir| > 1 ==> Listing(dir[1..]) && Active(dir[1..]) == Active(dir)
  {
  }

  method TotalSize(segs: seq<File>) returns (total: nat)
    requires forall i :: 0 <= i < |segs| ==> segs[i].Present?
    ensures total == Total(segs)
  {
    total := 0;
    assert segs[0..] == segs;
    for i := 0 to |segs|
      invariant total + Total(segs[i..]) == Total(segs)
    {
      assert segs[i..][1..] == segs[i + 1..];
      total := total + |segs[i].data|;
    }
  }

  /** The deletion loop of `enforceQuotaLocked`. */
  method DropOldest(segs: seq<File>, activeSeg: nat, maxBytes: int) returns (rest: seq<File>)
    requires Listing(segs) && activeSeg == Active(segs).id
    ensures rest == Evict(segs, Total(segs), maxBytes)
  {
    hide Total, Sorted;
    var total: int := TotalSize(segs);
    rest := segs;
    for i := 0 to |segs|
      invariant |rest| == |segs| - i > 0 && rest == segs[i..]
      invariant Listing(rest) && Active(rest).id == activeSeg
      invariant Evict(rest, total, maxBytes) == Evict(segs, Total(segs), maxBytes)
    {
      ListingTail(rest);
      if total <= maxBytes || segs[i].id == activeSeg {
        return;
      }
      assert rest[1..] == segs[i + 1..];
      rest := rest[1..];
      total := total - |segs[i].data|;
    }
  }

  /** One log directory, with the position of the writer in it. */
  class Wal {
    const crc: Checksum
    const maxBytes: int
    var dir: seq<File>
    var activeSeg: nat
    var activeLen: nat

    ghost predicate Valid()
      reads this
    {
      && Listing(dir)
      && activeSeg == Active(dir).id
      && activeLen == |Active(dir).data|
    }

    /** `OpenWAL`: writing resumes at the end of the newest segment; an empty directory gets
        segment 0. */
    constructor (crc: Checksum, maxBytes: int, files: seq<File>)
      requires files == [] || Listing(files)
      ensures Valid() && this.crc == crc && this.maxBytes == maxBytes
      ensures dir == if files == [] then [Present(0, [])] else files
    {
      this.crc, this.maxBytes := crc, maxBytes;
      if |files| > 0 {
        dir, activeSeg, activeLen := files, files[|files| - 1].id, |files[|files| - 1].data|;
      } else {
        dir, activeSeg, activeLen := [Present(0, [])], 0, 0;
      }
    }

    method Append(payload: Entry) returns (ok: bool)
      requires Valid()
      modifies this
      ensures Valid()
      ensures ok <==> |payload| <= ENTRY_MAX
      ensures dir == AppendTo(crc, old(dir), payload, maxBytes)
    {
      if |payload| > ENTRY_MAX {
        return false;
      }
      if activeLen >= SEGMENT_MAX {
        activeSeg := activeSeg + 1;
        dir := dir + [Present(activeSeg, [])];
        activeLen := 0;
      }
      assert dir == Rotate(old(dir));
      var before := dir[|dir| - 1].data;
      dir := dir[|dir| - 1 := Present(activeSeg, before + PutU32(|payload|) + PutU32(crc(payload)))];
      dir := dir[|dir| - 1 := Present(activeSeg, dir[|dir| - 1].data + payload)];
      assert dir[|dir| - 1].data == before + Record(crc, payload);
      assert dir == Write(Rotate(old(dir)), Record(crc, payload));
      activeLen := activeLen + HEADER_SIZE + |payload|;
      EnforceQuota();
      return true;
    }

    method EnforceQuota()
      requires Valid()
      modifies this`dir
      ensures Valid()
      ensures dir == Enforce(old(dir), maxBytes)
    {
      if maxBytes <= 0 || |dir| <= 1 {
        return;
      }
      dir := DropOldest(dir, activeSeg, maxBytes);
    }

    method ReadFrom(cur: Cursor, max: int) returns (out: seq<Entry>, next: Cursor)
      requires Valid()
      ensures (out, next) == WalRead.ReadFrom(crc, dir, cur, max)
    {
      out, next := ReadFromLoop(crc, dir, cur, max);
    }
  }

  // ---------- What the quota keeps ----------

  /** All bytes in the directory. */
  function Content(dir: seq<File>): seq<byte>
    requires forall i :: 0 <= i < |dir| ==> dir[i].Present?
  {
    if dir == [] then [] else dir[0].data + Content(dir[1..])
  }

  lemma {:induction false} TotalIs(dir: seq<File>)
    requires forall i :: 0 <= i < |dir| ==> dir[i].Present?
    ensures Total(dir) == |Content(dir)|
  {
    if dir == [] {
    } else {
      TotalIs(dir[1..]);
    }
  }

  /** Every segment but the active one is full: a new one is begun only then. */
  predicate ClosedFull(dir: seq<File>) {
    forall i :: 0 <= i < |dir| - 1 ==> dir[i].Present? && |dir[i].data| >= SEGMENT_MAX
  }

  lemma AppendClosesFull(crc: Checksum, dir: seq<File>, p: Entry, maxBytes: int)
    requires Listing(dir) && ClosedFull(dir)
    ensures ClosedFull(AppendTo(crc, dir, p, maxBytes))
  {
    hide Record, Enforce, Sorted;
    if |p| <= ENTRY_MAX {
      var d := Write(Rotate(dir), Record(crc, p));
      assert ClosedFull(d);
      EnforceSuffix(d, maxBytes);
      var r := Enforce(d, maxBytes);
      assert forall i :: 0 <= i < |r| ==> r[i] == d[|d| - |r| + i];
    }
  }

  /** Deletion only ever removes a prefix of the listing. */
  lemma {:induction false} EvictSuffix(dir: seq<File>, total: int, maxBytes: int)
    requires Listing(dir)
    ensures var r := Evict(dir, total, maxBytes);
            0 < |r| <= |dir| && r == dir[|dir| - |r|..]
  {
    if |dir| <= 1 || total <= maxBytes {
    } else {
      EvictSuffix(dir[1..], total - |dir[0].data|, maxBytes);
      var r := Evict(dir, total, maxBytes);
      assert dir[1..][|dir| - 1 - |r|..] == dir[|dir| - |r|..];
    }
  }

  lemma EnforceSuffix(dir: seq<File>, maxBytes: int)
    requires Listing(dir)
    ensures var r := Enforce(dir, maxBytes);
            0 < |r| <= |dir| && r == dir[|dir| - |r|..]
  {
    if maxBytes > 0 && |dir| > 1 { EvictSuffix(dir, Total(dir), maxBytes); }
  }

  lemma {:induction false} EvictSize(dir: seq<File>, maxBytes: int)
    requires Listing(dir)
    ensures Total(Evict(dir, Total(dir), maxBytes)) <= maxBytes
         || Evict(dir, Total(dir), maxBytes) == [Active(dir)]
  {
    if |dir| <= 1 || Total(dir) <= maxBytes {
    } else {
      EvictSize(dir[1..], maxBytes);
    }
  }

  /** The largest active segment an append can leave behind. */
  const ACTIVE_MAX := SEGMENT_MAX - 1 + HEADER_SIZE + ENTRY_MAX

  /** After any successful append under a positive quota the directory is within the quota, or
      within the size of one segment when the quota is smaller than that. */
  lemma AppendSize(crc: Checksum, dir: seq<File>, p: Entry, maxBytes: int)
    requires Listing(dir) && |p| <= ENTRY_MAX && maxBytes > 0
    ensures Total(AppendTo(crc, dir, p, maxBytes)) <= maxBytes
         || Total(AppendTo(crc, dir, p, maxBytes)) <= ACTIVE_MAX
  {
    hide Record, Evict, Sorted;
    var d := Write(Rotate(dir), Record(crc, p));
    assert |Active(d).data| <= ACTIVE_MAX;
    assert Total([Active(d)]) == |Active(d).data| + Total([Active(d)][1..]);
    if |d| == 1 {
      assert d == [Active(d)];
    } else {
      EvictSize(d, maxBytes);
    }
  }
}
