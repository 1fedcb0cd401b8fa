/** The canonical bytes of a command envelope (internal/authenv/authenv.go). Strings are
    sequences of bytes, as in Go. */
module Envelope {
  import opened Bytes
  import opened Options

  type Text = seq<byte>

  type i64 = x: int | -0x8000_0000_0000_0000 <= x < 0x8000_0000_0000_0000

  /** The signed part of an envelope. */
  datatype Envelope = Envelope(
    cmdId: Text, action: Text, params: map<Text, Text>,
    timeoutSec: u32, issuedAt: i64, expiresAt: i64, nonce: Text)

  /** "TAI-CMD-v1" */
  const MAGIC: Text := [84, 65, 73, 45, 67, 77, 68, 45, 118, 49]

  // ---------- The order of keys ----------

  /** Byte-wise lexicographic order, as `sort.Strings` uses it. */
  predicate Less(a: Text, b: Text) {
    b != [] && (a == [] || a[0] < b[0] || (a[0] == b[0] && Less(a[1..], b[1..])))
  }

  lemma {:induction false} LessTotal(a: Text, b: Text)
    ensures Less(a, b) || Less(b, a) || a == b
  {
    if a == [] || b == [] || a[0] != b[0] {
    } else {
      LessTotal(a[1..], b[1..]);
      assert a == [a[0]] + a[1..] && b == [b[0]] + b[1..];
    }
  }

  lemma {:induction false} LessTransitive(a: Text, b: Text, c: Text)
    requires Less(a, b) && Less(b, c)
    ensures Less(a, c)
  {
    if a == [] || !(a[0] == b[0] == c[0]) {
    } else {
      LessTransitive(a[1..], b[1..], c[1..]);
    }
  }

  lemma {:induction false} LessIrreflexive(a: Text)
    ensures !Less(a, a)
  {
    if a == [] {
    } else {
      LessIrreflexive(a[1..]);
    }
  }

  /** The first `i` bytes agree, and then `a` ends or has the smaller byte. */
  predicate Differs(a: Text, b: Text, i: nat) {
    && i <= |a| && i < |b| && a[..i] == b[..i]
    && (i == |a| || a[i] < b[i])
  }

  lemma SameStart(a: Text, b: Text, i: nat)
    ensures Differs(a, b, i) && i > 0 ==> a != [] && b != [] && a[0] == b[0]
  {
    if Differs(a, b, i) && i > 0 { assert a[0] == a[..i][0] && b[0] == b[..i][0]; }
  }

  /** The order is decided at the first difference. */
  lemma {:induction false} LessIs(a: Text, b: Text)
    ensures Less(a, b) <==> exists i: nat :: Differs(a, b, i)
  {
    if a == [] || b == [] || a[0] != b[0] {
      assert Less(a, b) ==> Differs(a, b, 0);
      forall i: nat ensures Differs(a, b, i) ==> i == 0 { SameStart(a, b, i); }
    } else {
      var a', b' := a[1..], b[1..];
      LessIs(a', b');
      if Less(a', b') {
        var i: nat :| Differs(a', b', i);
        assert a[..i + 1] == [a[0]] + a'[..i] && b[..i + 1] == [b[0]] + b'[..i];
        assert Differs(a, b, i + 1);
      }
      forall i: nat ensures Differs(a, b, i) ==> Less(a', b') {
        if Differs(a, b, i) {
          assert a'[..i - 1] == a[..i][1..] && b'[..i - 1] == b[..i][1..];
          assert Differs(a', b', i - 1);
        }
      }
    }
  }

  predicate Ascending(ks: seq<Text>) {
    forall i, j :: 0 <= i < j < |ks| ==> Less(ks[i], ks[j])
  }

  function Elements(ks: seq<Text>): set<Text> {
    set i | 0 <= i < |ks| :: ks[i]
  }

  lemma ElementsIs(ks: seq<Text>)
    ensures forall x :: x in Elements(ks) <==> x in ks
  {
  }

  lemma ElementsEmpty(ks: seq<Text>)
    ensures Elements(ks) == {} <==> ks == []
  {
    if ks != [] { assert ks[0] in Elements(ks); }
  }

  lemma FirstIsLeast(a: seq<Text>, b: seq<Text>)
    requires Ascending(a) && Ascending(b) && Elements(a) == Elements(b) && a != [] && b != []
    ensures a[0] == b[0]
  {
    assert a[0] in Elements(b) && b[0] in Elements(a);
    if a[0] != b[0] {
      var i :| 0 <= i < |b| && b[i] == a[0];
      var j :| 0 <= j < |a| && a[j] == b[0];
      LessTransitive(a[0], b[0], a[0]);
      LessIrreflexive(a[0]);
      assert false;
    }
  }

  lemma AscendingTail(a: seq<Text>)
    requires Ascending(a) && a != []
    ensures Ascending(a[1..]) && Elements(a[1..]) == Elements(a) - {a[0]}
  {
    forall x ensures x in Elements(a[1..]) <==> x in Elements(a) - {a[0]} {
      if x in Elements(a) - {a[0]} {
        var i :| 0 <= i < |a| && a[i] == x;
        assert a[1..][i - 1] == x;
      }
      if x in Elements(a[1..]) {
        var i :| 0 <= i < |a[1..]| && a[1..][i] == x;
        assert a[i + 1] == x && Less(a[0], x);
        LessIrreflexive(x);
      }
    }
  }

  /** A set of keys has only one ascending enumeration. */
  lemma {:induction false} AscendingUnique(a: seq<Text>, b: seq<Text>)
    requires Ascending(a) && Ascending(b) && Elements(a) == Elements(b)
    ensures a == b
  {
    ElementsEmpty(a);
    ElementsEmpty(b);
    if a == [] {
    } else {
      FirstIsLeast(a, b);
      AscendingTail(a);
      AscendingTail(b);
      AscendingUnique(a[1..], b[1..]);
    }
  }

  /** Insertion into an ascending sequence. */
  function Insert(k: Text, ks: seq<Text>): seq<Text> {
    if ks == [] || Less(k, ks[0]) then [k] + ks else [ks[0]] + Insert(k, ks[1..])
  }

  lemma {:induction false} InsertElements(k: Text, ks: seq<Text>, x: Text)
    ensures x in Insert(k, ks) <==> x == k || x in ks
  {
    if ks == [] || Less(k, ks[0]) {
    } else {
      InsertElements(k, ks[1..], x);
    }
  }

  lemma {:induction false} InsertAscends(k: Text, ks: seq<Text>)
    requires Ascending(ks) && k !in ks
    ensures Ascending(Insert(k, ks))
  {
    var r := Insert(k, ks);
    if ks == [] {
    } else if Less(k, ks[0]) {
      forall j | 0 < j < |r| ensures Less(r[0], r[j]) {
        if j > 1 { LessTransitive(k, ks[0], ks[j - 1]); }
      }
    } else {
      InsertAscends(k, ks[1..]);
      LessTotal(k, ks[0]);
      forall j | 0 < j < |r| ensures Less(ks[0], r[j]) {
        assert r[j] == Insert(k, ks[1..])[j - 1];
        assert r[j] in Insert(k, ks[1..]);
        InsertElements(k, ks[1..], r[j]);
      }
    }
  }

  /** `sort.Strings` on distinct keys. */
  method SortKeys(keys: seq<Text>) returns (sorted: seq<Text>)
    requires forall i, j :: 0 <= i < j < |keys| ==> keys[i] != keys[j]
    ensures Ascending(sorted) && Elements(sorted) == Elements(keys)
  {
    sorted := [];
    for n := 0 to |keys|
      invariant Ascending(sorted)
      invariant forall x :: x in sorted <==> x in keys[..n]
    {
      forall x ensures x in Insert(keys[n], sorted) <==> x in keys[..n + 1] {
        InsertElements(keys[n], sorted, x);
        assert keys[..n + 1] == keys[..n] + [keys[n]];
      }
      InsertAscends(keys[n], sorted);
      sorted := Insert(keys[n], sorted);
    }
    assert keys[..|keys|] == keys;
    ElementsIs(sorted);
    ElementsIs(keys);
  }

  // ---------- The serialization ----------

  function Field(b: Text): Text {
    PutU32(|b|) + b
  }

  /** `uint64` of a signed 64-bit value: two's complement. */
  function PutI64(n: i64): Text {
    PutU64(if n < 0 then n + U64_LIMIT else n)
  }

  function Pairs(params: map<Text, Text>, ks: seq<Text>): Text
    requires forall i :: 0 <= i < |ks| ==> ks[i] in params
  {
    if ks == [] then [] else Field(ks[0]) + (Field(params[ks[0]]) + Pairs(params, ks[1..]))
  }

  /** The bytes, given the keys of the parameters in ascending order. */
  function Serialize(e: Envelope, ks: seq<Text>): Text
    requires Elements(ks) == e.params.Keys
  {
    KeysKnown(e, ks);
    MAGIC + (Field(e.cmdId) + (Field(e.action) + (PutU32(|ks|) + (Pairs(e.params, ks)
      + (PutU64(e.timeoutSec) + (PutI64(e.issuedAt) + (PutI64(e.expiresAt) + Field(e.nonce))))))))
  }

  lemma KeysKnown(e: Envelope, ks: seq<Text>)
    requires Elements(ks) == e.params.Keys
    ensures forall i :: 0 <= i < |ks| ==> ks[i] in e.params
  {
    forall i | 0 <= i < |ks| ensures ks[i] in e.params { assert ks[i] in Elements(ks); }
  }

  /** `bytes` is the canonical form of `e`. */
  ghost predicate IsCanonical(e: Envelope, bytes: Text) {
    exists ks :: Ascending(ks) && Elements(ks) == e.params.Keys && bytes == Serialize(e, ks)
  }

  /** Ranging over the map: every key once, in no particular order. */
  method CollectKeys(params: map<Text, Text>) returns (keys: seq<Text>)
    ensures Elements(keys) == params.Keys
    ensures forall i, j :: 0 <= i < j < |keys| ==> keys[i] != keys[j]
  {
    keys := [];
    var rest := params.Keys;
    while rest != {}
      invariant rest <= params.Keys
      invariant forall x :: x in keys <==> x in params.Keys && x !in rest
      invariant forall i, j :: 0 <= i < j < |keys| ==> keys[i] != keys[j]
      decreases rest
    {
      var k :| k in rest;
      keys := keys + [k];
      rest := rest - {k};
    }
    ElementsIs(keys);
  }

  /** `CanonicalBytes`: the map is walked in some arbitrary order, the keys are sorted, and the
      fields are appended to a buffer one by one. */
  method CanonicalBytes(e: Envelope) returns (buf: Text)
    ensures IsCanonical(e, buf)
  {
    var keys := CollectKeys(e.params);
    var sorted := SortKeys(keys);
    KeysKnown(e, sorted);
    buf := MAGIC;
    buf := buf + Field(e.cmdId);
    buf := buf + Field(e.action);
    buf := buf + PutU32(|sorted|);
    ghost var head := buf;
    buf := WritePairs(buf, e.params, sorted);
    ghost var mid := buf;
    buf := buf + PutU64(e.timeoutSec);
    buf := buf + PutI64(e.issuedAt);
    buf := buf + PutI64(e.expiresAt);
    buf := buf + Field(e.nonce);
    SerializeIs(e, sorted, head, mid, buf);
  }

  method WritePairs(start: Text, params: map<Text, Text>, ks: seq<Text>) returns (buf: Text)
    requires forall i :: 0 <= i < |ks| ==> ks[i] in params
    ensures buf == start + Pairs(params, ks)
  {
    hide Field;
    buf := start;
    assert ks[0..] == ks;
    for i := 0 to |ks|
      invariant buf + Pairs(params, ks[i..]) == start + Pairs(params, ks)
    {
      assert ks[i..][1..] == ks[i + 1..];
      ghost var k, v, rest := Field(ks[i]), Field(params[ks[i]]), Pairs(params, ks[i + 1..]);
      assert buf + (k + (v + rest)) == buf + k + v + rest;
      buf := buf + Field(ks[i]);
      buf := buf + Field(params[ks[i]]);
    }
    assert ks[|ks|..] == [];
  }

  lemma Regroup<T>(a: seq<T>, b: seq<T>, c: seq<T>, d: seq<T>, rest: seq<T>)
    ensures a + b + c + d + rest == a + (b + (c + (d + rest)))
  {
    assert a + b + c + d + rest == a + b + c + (d + rest);
    assert a + b + c + (d + rest) == a + b + (c + (d + rest));
  }

  lemma SerializeIs(e: Envelope, ks: seq<Text>, head: Text, mid: Text, buf: Text)
    requires Elements(ks) == e.params.Keys && forall i :: 0 <= i < |ks| ==> ks[i] in e.params
    requires head == MAGIC + Field(e.cmdId) + Field(e.action) + PutU32(|ks|)
    requires mid == head + Pairs(e.params, ks)
    requires buf == mid + PutU64(e.timeoutSec) + PutI64(e.issuedAt) + PutI64(e.expiresAt) + Field(e.nonce)
    ensures buf == Serialize(e, ks)
  {
    hide Field, PutU32, PutU64, PutI64, Pairs;
    var tail := PutU64(e.timeoutSec) + (PutI64(e.issuedAt) + (PutI64(e.expiresAt) + Field(e.nonce)));
    assert buf == mid + tail by {
      Regroup(mid, PutU64(e.timeoutSec), PutI64(e.issuedAt), PutI64(e.expiresAt), Field(e.nonce));
    }
    assert mid + tail == head + (Pairs(e.params, ks) + tail);
    Regroup(MAGIC, Field(e.cmdId), Field(e.action), PutU32(|ks|), Pairs(e.params, ks) + tail);
  }

  // ---------- It is canonical, and injective ----------

  /** The bytes do not depend on the order in which the map was walked. */
  lemma CanonicalUnique(e: Envelope, b1: Text, b2: Text)
    requires IsCanonical(e, b1) && IsCanonical(e, b2)
    ensures b1 == b2
  {
    var k1 :| Ascending(k1) && Elements(k1) == e.params.Keys && b1 == Serialize(e, k1);
    var k2 :| Ascending(k2) && Elements(k2) == e.params.Keys && b2 == Serialize(e, k2);
    AscendingUnique(k1, k2);
  }

  /** Every length is below 2^32, so that none is truncated. */
  predicate Small(e: Envelope) {
    && |e.cmdId| < U32_LIMIT && |e.action| < U32_LIMIT && |e.nonce| < U32_LIMIT
    && |e.params| < U32_LIMIT
    && forall k :: k in e.params ==> |k| < U32_LIMIT && |e.params[k]| < U32_LIMIT
  }

  lemma {:induction false} AscendingSize(ks: seq<Text>)
    requires Ascending(ks)
    ensures |Elements(ks)| == |ks|
  {
    if ks == [] {
    } else {
      AscendingTail(ks);
      AscendingSize(ks[1..]);
      assert ks[0] in Elements(ks);
    }
  }

  // ---------- Reading it back ----------

  /** A length-prefixed field, and what follows it. */
  function ReadField(b: Text): Option<(Text, Text)> {
    if |b| < 4 then None
    else
      var n := GetU32(b[..4]);
      if |b| < 4 + n then None else Some((b[4..4 + n], b[4 + n..]))
  }

  /** `n` pairs of fields. */
  function ReadPairs(b: Text, n: nat): Option<(map<Text, Text>, Text)> {
    if n == 0 then Some((map[], b))
    else
      match ReadField(b)
      case None => None
      case Some((k, afterKey)) =>
        match ReadField(afterKey)
        case None => None
        case Some((v, afterValue)) =>
          match ReadPairs(afterValue, n - 1)
          case None => None
          case Some((m, rest)) => Some((m[k := v], rest))
  }

  function GetI64(b: Text): i64
    requires |b| == 8
  {
    var n := GetU64(b);
    if n >= 0x8000_0000_0000_0000 then n - U64_LIMIT else n
  }

  /** The numbers and the nonce, which end the envelope. */
  function ReadTail(b: Text): Option<(u32, i64, i64, Text)> {
    if |b| < 24 || GetU64(b[..8]) >= U32_LIMIT then None
    else
      match ReadField(b[24..])
      case None => None
      case Some((nonce, rest)) =>
        if rest == [] then Some((GetU64(b[..8]), GetI64(b[8..16]), GetI64(b[16..24]), nonce)) else None
  }

  function ReadParams(b: Text): Option<(map<Text, Text>, Text)> {
    if |b| < 4 then None else ReadPairs(b[4..], GetU32(b[..4]))
  }

  /** The format as a reader of it would see it. */
  function Parse(b: Text): Option<Envelope> {
    if |b| < |MAGIC| || b[..|MAGIC|] != MAGIC then None
    else
      match ReadField(b[|MAGIC|..])
      case None => None
      case Some((cmdId, b1)) =>
        match ReadField(b1)
        case None => None
        case Some((action, b2)) =>
          match ReadParams(b2)
          case None => None
          case Some((params, b3)) =>
            match ReadTail(b3)
            case None => None
            case Some((timeoutSec, issuedAt, expiresAt, nonce)) =>
              Some(Envelope(cmdId, action, params, timeoutSec, issuedAt, expiresAt, nonce))
  }

  lemma FieldBack(x: Text, rest: Text)
    requires |x| < U32_LIMIT
    ensures ReadField(Field(x) + rest) == Some((x, rest))
  {
    GetPutU32(|x|);
    hide PutU32, GetU32;
    var b := Field(x) + rest;
    assert b[..4] == PutU32(|x|) && b[4..4 + |x|] == x && b[4 + |x|..] == rest;
  }

  predicate SmallPairs(params: map<Text, Text>, ks: seq<Text>) {
    forall i :: 0 <= i < |ks| ==> ks[i] in params && |ks[i]| < U32_LIMIT && |params[ks[i]]| < U32_LIMIT
  }

  function Restrict(params: map<Text, Text>, ks: seq<Text>): map<Text, Text> {
    map k | k in params && k in ks :: params[k]
  }

  lemma {:induction false} PairsBack(params: map<Text, Text>, ks: seq<Text>, rest: Text)
    requires SmallPairs(params, ks)
    ensures ReadPairs(Pairs(params, ks) + rest, |ks|) == Some((Restrict(params, ks), rest))
  {
    hide Field, ReadField;
    if ks == [] {
      assert Pairs(params, ks) + rest == rest;
      assert Restrict(params, ks) == map[];
    } else {
      var k, v, more := ks[0], params[ks[0]], Pairs(params, ks[1..]);
      assert Pairs(params, ks) + rest == Field(k) + (Field(v) + (more + rest));
      FieldBack(k, Field(v) + (more + rest));
      FieldBack(v, more + rest);
      PairsBack(params, ks[1..], rest);
      assert ks == [k] + ks[1..];
      assert Restrict(params, ks) == Restrict(params, ks[1..])[k := v];
    }
  }

  lemma I64Back(n: i64)
    ensures |PutI64(n)| == 8 && GetI64(PutI64(n)) == n
  {
    GetPutU64(if n < 0 then n + U64_LIMIT else n);
    hide PutU64, GetU64;
  }

  lemma TailBack(e: Envelope)
    requires |e.nonce| < U32_LIMIT
    ensures ReadTail(PutU64(e.timeoutSec) + (PutI64(e.issuedAt) + (PutI64(e.expiresAt) + Field(e.nonce))))
         == Some((e.timeoutSec, e.issuedAt, e.expiresAt, e.nonce))
  {
    GetPutU64(e.timeoutSec);
    I64Back(e.issuedAt);
    I64Back(e.expiresAt);
    hide PutU64, GetU64, PutI64, GetI64, Field, ReadField;
    var t, i, x, n := PutU64(e.timeoutSec), PutI64(e.issuedAt), PutI64(e.expiresAt), Field(e.nonce);
    var b := t + (i + (x + n));
    assert b[..8] == t && b[8..16] == i && b[16..24] == x && b[24..] == n;
    FieldBack(e.nonce, []);
    assert n + [] == n;
  }

  lemma ParamsBack(params: map<Text, Text>, ks: seq<Text>, rest: Text)
    requires SmallPairs(params, ks) && |ks| < U32_LIMIT && Elements(ks) == params.Keys
    ensures ReadParams(PutU32(|ks|) + (Pairs(params, ks) + rest)) == Some((params, rest))
  {
    GetPutU32(|ks|);
    hide PutU32, GetU32, Pairs, ReadPairs;
    var b := PutU32(|ks|) + (Pairs(params, ks) + rest);
    assert b[..4] == PutU32(|ks|) && b[4..] == Pairs(params, ks) + rest;
    PairsBack(params, ks, rest);
    ElementsIs(ks);
    assert Restrict(params, ks) == params;
  }

  /** Reading back gives the envelope. */
  lemma SerializeBack(e: Envelope, ks: seq<Text>)
    requires Small(e) && Ascending(ks) && Elements(ks) == e.params.Keys
    ensures Parse(Serialize(e, ks)) == Some(e)
  {
    KeysKnown(e, ks);
    AscendingSize(ks);
    hide Field, PutU32, PutU64, PutI64, Pairs, ReadField, ReadParams, ReadTail, Ascending;
    var tail := PutU64(e.timeoutSec) + (PutI64(e.issuedAt) + (PutI64(e.expiresAt) + Field(e.nonce)));
    var params := PutU32(|ks|) + (Pairs(e.params, ks) + tail);
    var b := Serialize(e, ks);
    assert b == MAGIC + (Field(e.cmdId) + (Field(e.action) + params));
    assert b[..|MAGIC|] == MAGIC && b[|MAGIC|..] == Field(e.cmdId) + (Field(e.action) + params);
    FieldBack(e.cmdId, Field(e.action) + params);
    FieldBack(e.action, params);
    ParamsBack(e.params, ks, tail);
    TailBack(e);
  }

  lemma CanonicalBack(e: Envelope, x: Text)
    requires Small(e) && IsCanonical(e, x)
    ensures Parse(x) == Some(e)
  {
    hide Serialize, Parse, Ascending;
    var ks :| Ascending(ks) && Elements(ks) == e.params.Keys && x == Serialize(e, ks);
    SerializeBack(e, ks);
  }

  /** Two envelopes have the same canonical bytes exactly if all their signed fields agree. */
  lemma CanonicalInjective(a: Envelope, b: Envelope, x: Text, y: Text)
    requires Small(a) && Small(b) && IsCanonical(a, x) && IsCanonical(b, y)
    ensures x == y <==> a == b
  {
    hide IsCanonical, Parse;
    CanonicalBack(a, x);
    CanonicalBack(b, y);
    if a == b { CanonicalUnique(a, x, y); }
  }
}
