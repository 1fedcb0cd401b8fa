/** The head/tail buffer for command output (internal/executor/engine.go). */
module CappedBuffer {
  import opened Bytes

  datatype Buffer = Buffer(head: seq<byte>, tail: seq<byte>, truncated: bool)

  const EMPTY := Buffer([], [], false)

  /** The marker between head and tail of truncated output: "\n...[TRUNCATED]...\n" */
  const MARKER: seq<byte> :=
    [10, 46, 46, 46, 91, 84, 82, 85, 78, 67, 65, 84, 69, 68, 93, 46, 46, 46, 10]

  /** The limit in bytes for a configured limit in KiB. */
  function LimitOf(limitKB: int): (n: nat)
    ensures n > 0 && n % 2 == 0
    ensures if limitKB > 0 then n == 1024 * limitKB else n == 1_048_576
  {
    var kb := if limitKB <= 0 then 1024 else limitKB;
    assert kb * 1024 == 2 * (kb * 512);
    kb * 1024
  }

  function Last(s: seq<byte>, n: nat): seq<byte> {
    if n >= |s| then s else s[|s| - n..]
  }

  function Write(limit: nat, b: Buffer, p: seq<byte>): Buffer {
    var half := limit / 2;
    if |b.head| + |b.tail| + |p| <= limit then
      if |b.tail| > 0 then b.(tail := b.tail + p) else b.(head := b.head + p)
    else if |b.head| < half then
      var need := half - |b.head|;
      Buffer(b.head + Take(p, need), Last(b.tail + Drop(p, need), half), true)
    else
      Buffer(b.head, Last(b.tail + p, half), true)
  }

  function Text(b: Buffer): seq<byte> {
    if b.truncated then b.head + MARKER + b.tail else b.head + b.tail
  }

  lemma SplitAt(p: seq<byte>, need: nat)
    requires need > 0
    ensures Take(p, need) == p[..if need < |p| then need else |p|]
    ensures Drop(p, need) == if |p| > need then p[need..] else []
  {
  }

  class Capped {
    const limit: nat
    var head: seq<byte>
    var tail: seq<byte>
    var truncated: bool

    ghost function State(): Buffer
      reads this
    {
      Buffer(head, tail, truncated)
    }

    constructor (limitKB: int)
      ensures limit == LimitOf(limitKB) && State() == EMPTY
    {
      limit := LimitOf(limitKB);
      head, tail, truncated := [], [], false;
    }

    method WriteChunk(p: seq<byte>) returns (n: nat)
      modifies this
      ensures n == |p| && State() == Write(limit, old(State()), p)
    {
      hide LimitOf, Take, Drop;
      n := |p|;
      var half := limit / 2;
      if |head| + |tail| + |p| <= limit {
        if |tail| > 0 {
          tail := tail + p;
        } else {
          head := head + p;
        }
        return;
      }
      truncated := true;
      if |head| < half {
        var need := half - |head|;
        SplitAt(p, need);
        head := head + p[..if need < |p| then need else |p|];
        if |p| > need {
          tail := tail + p[need..];
        } else {
          assert tail == tail + [];
        }
      } else {
        tail := tail + p;
      }
      if |tail| > half {
        tail := tail[|tail| - half..];
      }
    }

    method Output() returns (text: seq<byte>)
      ensures text == Text(State())
    {
      if !truncated {
        return head + tail;
      }
      return head + MARKER + tail;
    }
  }

  // ---------- What any sequence of writes leaves in the buffer ----------

  function WriteAll(limit: nat, chunks: seq<seq<byte>>): Buffer {
    if chunks == [] then EMPTY else Write(limit, WriteAll(limit, chunks[..|chunks| - 1]), chunks[|chunks| - 1])
  }

  function Concat(chunks: seq<seq<byte>>): seq<byte> {
    if chunks == [] then [] else Concat(chunks[..|chunks| - 1]) + chunks[|chunks| - 1]
  }

  function Min(a: int, b: int): int { if a < b then a else b }

  /** How the buffer relates to everything written, `w`: it is truncated exactly if `w` exceeds the
      limit. If not, it holds all of `w`; if so, its head is a prefix of `w` of between half and
      all of the limit, and its tail is exactly what `w` ends with, up to half the limit. */
  predicate Holds(limit: nat, w: seq<byte>, b: Buffer) {
    && (b.truncated <==> |w| > limit)
    && (!b.truncated ==> b.head == w && b.tail == [])
    && (b.truncated ==>
          && b.head <= w
          && limit / 2 <= |b.head| <= limit
          && b.tail == Last(w, Min(limit / 2, |w| - |b.head|)))
  }

  lemma LastSuffix(u: seq<byte>, v: seq<byte>, n: nat)
    requires n <= |v|
    ensures Last(u + v, n) == Last(v, n)
  {
  }

  lemma LastAppend(w: seq<byte>, p: seq<byte>, k: nat, half: nat)
    requires k <= half && k <= |w|
    ensures |Last(w, k)| == k
    ensures Last(Last(w, k) + p, half) == Last(w + p, Min(half, k + |p|))
  {
    var u, v, m := w[..|w| - k], Last(w, k), Min(half, k + |p|);
    assert u + v == w;
    assert w + p == u + (v + p);
    LastSuffix(u, v + p, m);
  }

  lemma WriteHolds(limit: nat, w: seq<byte>, b: Buffer, p: seq<byte>)
    requires limit > 0 && limit % 2 == 0 && Holds(limit, w, b)
    ensures Holds(limit, w + p, Write(limit, b, p))
  {
    hide Last;
    if b.truncated {
      LaterWrite(limit, limit / 2, w, b, p);
    } else if |w + p| > limit {
      if |w| < limit / 2 {
        OverflowEarly(limit, limit / 2, w, p);
      } else {
        OverflowLate(limit, limit / 2, w, p);
      }
    }
  }

  /** Once truncated, the head is complete and only the tail moves. */
  lemma LaterWrite(limit: nat, half: nat, w: seq<byte>, b: Buffer, p: seq<byte>)
    requires half > 0 && limit == 2 * half && b.truncated && Holds(limit, w, b)
    ensures Holds(limit, w + p, Write(limit, b, p))
  {
    hide Last;
    var k := Min(half, |w| - |b.head|);
    LastAppend(w, p, k, half);
    assert |b.head| + k >= limit;
    if |p| == 0 {
      assert w + p == w && b.tail + p == b.tail && b.head + p == b.head;
    } else {
      assert Min(half, k + |p|) == Min(half, |w + p| - |b.head|);
    }
  }

  /** The first overflow while the head is short: the chunk is split. */
  lemma OverflowEarly(limit: nat, half: nat, w: seq<byte>, p: seq<byte>)
    requires limit == 2 * half && |w| < half && |w + p| > limit
    ensures Holds(limit, w + p, Write(limit, Buffer(w, [], false), p))
  {
    hide Last;
    var need := half - |w|;
    var rest := p[need..];
    assert w + p == (w + p[..need]) + rest;
    LastSuffix(w + p[..need], rest, half);
    assert [] + rest == rest;
  }

  /** The first overflow once the head is long enough: all of the chunk goes to the tail. */
  lemma OverflowLate(limit: nat, half: nat, w: seq<byte>, p: seq<byte>)
    requires limit == 2 * half && half <= |w| <= limit && |w + p| > limit
    ensures Holds(limit, w + p, Write(limit, Buffer(w, [], false), p))
  {
    LastSuffix(w, p, Min(half, |p|));
    assert Last(p, half) == Last(p, Min(half, |p|));
    assert [] + p == p;
    hide Last;
  }

  /** For every way of cutting the output into writes: what is kept, and what is returned. */
  lemma {:induction false} OutputCharacterised(limitKB: int, chunks: seq<seq<byte>>)
    ensures var limit, w := LimitOf(limitKB), Concat(chunks);
            var b := WriteAll(limit, chunks);
            && Holds(limit, w, b) && 2 * (|b.head| + |b.tail|) <= 3 * limit
            && (|w| <= limit ==> Text(b) == w)
            && (|w| > limit ==>
                  Text(b) == w[..|b.head|] + MARKER + Last(w, Min(limit / 2, |w| - |b.head|)))
  {
    hide Write, Concat, WriteAll;
    var limit, w := LimitOf(limitKB), Concat(chunks);
    var b := WriteAll(limit, chunks);
    AllWritesHold(limit, chunks);
    if |w| <= limit {
      assert w + [] == w;
    } else {
      assert b.head == w[..|b.head|];
    }
  }

  lemma {:induction false} AllWritesHold(limit: nat, chunks: seq<seq<byte>>)
    requires limit > 0 && limit % 2 == 0
    ensures Holds(limit, Concat(chunks), WriteAll(limit, chunks))
    decreases |chunks|
  {
    hide Write, Holds;
    if chunks == [] {
      NothingHeld(limit);
    } else {
      var init, last := chunks[..|chunks| - 1], chunks[|chunks| - 1];
      AllWritesHold(limit, init);
      WriteHolds(limit, Concat(init), WriteAll(limit, init), last);
    }
  }

  lemma NothingHeld(limit: nat)
    ensures Holds(limit, [], EMPTY)
  {
  }
}
