/** The replay cache for envelope nonces (internal/authenv/authenv.go). */
module NonceCache {
  import opened Bytes

  /** `fmt.Sprintf("%x", nonce)` */
  function Hex(b: seq<byte>): string {
    if b == [] then "" else [Digit(b[0] / 16), Digit(b[0] % 16)] + Hex(b[1..])
  }

  function Digit(n: int): char
    requires 0 <= n < 16
  {
    "0123456789abcdef"[n]
  }

  /** Different nonces never share a cache key. */
  lemma {:induction false} HexInjective(a: seq<byte>, b: seq<byte>)
    ensures Hex(a) == Hex(b) <==> a == b
  {
    if Hex(a) == Hex(b) {
      HexLength(a);
      HexLength(b);
      if a == [] {
      } else {
        assert Hex(a)[2..] == Hex(a[1..]) && Hex(b)[2..] == Hex(b[1..]);
        assert Hex(a)[0] == Hex(b)[0] && Hex(a)[1] == Hex(b)[1];
        HexInjective(a[1..], b[1..]);
        DigitInjective(a[0] / 16, b[0] / 16);
        DigitInjective(a[0] % 16, b[0] % 16);
        assert a == [a[0]] + a[1..] && b == [b[0]] + b[1..];
      }
    }
  }

  lemma DigitInjective(m: int, n: int)
    requires 0 <= m < 16 && 0 <= n < 16 && Digit(m) == Digit(n)
    ensures m == n
  {
  }

  lemma {:induction false} HexLength(b: seq<byte>)
    ensures |Hex(b)| == 2 * |b|
  {
    if b == [] {
    } else {
      HexLength(b[1..]);
    }
  }

  datatype Cache = Cache(items: map<string, int>, order: seq<string>)

  const EMPTY := Cache(map[], [])

  /** `items` and `order` hold the same keys, each once. */
  predicate Consistent(c: Cache) {
    && (forall i :: 0 <= i < |c.order| ==> c.order[i] in c.items)
    && (forall k :: k in c.items ==> k in c.order)
    && (forall i, j :: 0 <= i < j < |c.order| ==> c.order[i] != c.order[j])
  }

  /** Drop the expired entries among `order`. */
  function Sweep(items: map<string, int>, order: seq<string>, now: int): (map<string, int>, seq<string>) {
    if order == [] then (items, [])
    else
      var (m, kept) := Sweep(items, order[..|order| - 1], now);
      var k := order[|order| - 1];
      if k in m && m[k] > now then (m, kept + [k]) else (m - {k}, kept)
  }

  /** Lazy clean-up: nothing is dropped below capacity. */
  function Purge(c: Cache, cap: int, now: int): Cache {
    if |c.order| > 0 && |c.items| >= cap then
      var (items, kept) := Sweep(c.items, c.order, now);
      Cache(items, kept)
    else c
  }

  function Check(c: Cache, cap: int, nonce: seq<byte>, expiresAt: int, now: int): (Cache, bool) {
    var d, key := Purge(c, cap, now), Hex(nonce);
    if key in d.items then (d, false)
    else (Cache(d.items[key := expiresAt], d.order + [key]), true)
  }

  class Nonces {
    const cap: int
    var items: map<string, int>
    var order: seq<string>

    ghost function State(): Cache
      reads this
    {
      Cache(items, order)
    }

    constructor (cap: int)
      ensures State() == EMPTY && this.cap == cap
    {
      this.cap, items, order := cap, map[], [];
    }

    /** True if the nonce is new. */
    method CheckNonce(nonce: seq<byte>, expiresAt: int, now: int) returns (ok: bool)
      modifies this
      ensures (State(), ok) == Check(old(State()), cap, nonce, expiresAt, now)
    {
      var key := Hex(nonce);
      if |order| > 0 && |items| >= cap {
        var all, kept := order, [];
        for i := 0 to |all|
          invariant (items, kept) == Sweep(old(items), all[..i], now)
        {
          assert all[..i + 1][..i] == all[..i];
          var k := all[i];
          if k in items && items[k] > now {
            kept := kept + [k];
          } else {
            items := items - {k};
          }
        }
        assert all[..|all|] == all;
        order := kept;
      }
      if key in items {
        return false;
      }
      items := items[key := expiresAt];
      order := order + [key];
      return true;
    }
  }

  // ---------- What the cache keeps ----------

  lemma {:induction false} SweepIs(items: map<string, int>, order: seq<string>, now: int)
    requires forall i, j :: 0 <= i < j < |order| ==> order[i] != order[j]
    ensures var (m, kept) := Sweep(items, order, now);
            && (forall k :: k in m <==> k in items && (k in order ==> items[k] > now))
            && (forall k :: k in m ==> m[k] == items[k])
            && (forall k :: k in kept <==> k in order && k in m)
            && (forall i, j :: 0 <= i < j < |kept| ==> kept[i] != kept[j])
  {
    if order == [] {
    } else {
      var init, k := order[..|order| - 1], order[|order| - 1];
      SweepIs(items, init, now);
      assert k !in init;
      assert forall x :: x in order <==> x in init || x == k;
    }
  }

  /** Purging keeps exactly the entries that have not expired, or everything below capacity. */
  lemma PurgeIs(c: Cache, cap: int, now: int)
    requires Consistent(c)
    ensures var d := Purge(c, cap, now);
            && Consistent(d)
            && (forall k :: k in d.items <==> k in c.items && !(|c.items| >= cap && c.items[k] <= now))
            && (forall k :: k in d.items ==> d.items[k] == c.items[k])
  {
    hide Sweep;
    var d := Purge(c, cap, now);
    if |c.order| > 0 && |c.items| >= cap {
      SweepIs(c.items, c.order, now);
      assert (d.items, d.order) == Sweep(c.items, c.order, now);
      assert forall i :: 0 <= i < |d.order| ==> d.order[i] in d.order;
    } else if |c.order| == 0 {
      assert forall k :: k !in c.items;
    }
  }

  lemma CheckConsistent(c: Cache, cap: int, nonce: seq<byte>, expiresAt: int, now: int)
    requires Consistent(c)
    ensures Consistent(Check(c, cap, nonce, expiresAt, now).0)
  {
    hide Purge;
    PurgeIs(c, cap, now);
  }
}
