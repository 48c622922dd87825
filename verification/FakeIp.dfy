/** The fake-IP pool (engine/src/dns/fakeip.rs): a bidirectional map between domains and
    addresses of a reserved range, with a wrapping allocation cursor and LRU eviction. */
module FakeIp {
  import opened Common

  /** `base + 1` up to `base + size` are handed out. */
  datatype Range = Range(base: nat, size: nat)

  datatype Pool = Pool(cursor: nat, byDomain: map<string, nat>, byIp: map<nat, string>, order: seq<string>)

  const EMPTY: Pool := Pool(0, map[], map[], [])

  predicate RangeOk(r: Range) { 0 < r.size && r.base + 1 + r.size < U32 }

  /** `contains`: its upper bound is inclusive, one address past the pool. */
  predicate Contains(r: Range, ip: nat) { r.base < ip <= r.base + 1 + r.size }

  lemma ContainsOneTooMany(r: Range, ip: nat)
    ensures Contains(r, ip) <==> (r.base + 1 <= ip < r.base + 1 + r.size) || ip == r.base + r.size + 1
  {
  }

  ghost predicate Inverse(byDomain: map<string, nat>, byIp: map<nat, string>) {
    && (forall d :: d in byDomain ==> byDomain[d] in byIp && byIp[byDomain[d]] == d)
    && (forall ip :: ip in byIp ==> byIp[ip] in byDomain && byDomain[byIp[ip]] == ip)
  }

  ghost predicate Lists(order: seq<string>, byDomain: map<string, nat>) {
    Distinct(order) && (forall d :: d in order <==> d in byDomain) && |order| == |byDomain|
  }

  ghost predicate AllIn(r: Range, byIp: map<nat, string>) { forall ip :: ip in byIp ==> Contains(r, ip) }

  /** The two maps are inverse to each other and the LRU order lists every domain once. */
  ghost predicate Valid(r: Range, p: Pool) {
    && Inverse(p.byDomain, p.byIp) && AllIn(r, p.byIp) && Lists(p.order, p.byDomain)
    && |p.byIp| == |p.byDomain| <= r.size && p.cursor < U32
  }

  // ---------------------------------------------------------------- the free-slot search

  /** The offset tried `i` steps after `cursor`; the cursor wraps at 32 bits. */
  function Offset(r: Range, cursor: nat, i: nat): nat
    requires 0 < r.size
  {
    ((cursor + i) % U32) % r.size
  }

  /** `tries` tries from this cursor reach every offset of the pool. */
  ghost predicate Sweeps(r: Range, cursor: nat, tries: nat)
    requires 0 < r.size
  {
    forall x :: 0 <= x < r.size ==> Reaches(r, cursor, tries, x)
  }

  ghost predicate Reaches(r: Range, cursor: nat, tries: nat, x: nat)
    requires 0 < r.size
  {
    exists i :: 0 <= i < tries && Offset(r, cursor, i) == x
  }

  /** The cursors at which the search and the address it falls back on cover the whole pool. */
  predicate Safe(r: Range, cursor: nat)
    requires 0 < r.size
  {
    cursor + r.size <= U32 || cursor == U32 - 1 || U32 % r.size <= 1
  }

  lemma {:induction false} MultipleIsLarge(d: nat, size: nat)
    requires d >= 1
    ensures d * size >= size
  {
    if d > 1 {
      MultipleIsLarge(d - 1, size);
      assert d * size == (d - 1) * size + size;
    }
  }

  /** Consecutive numbers reach every residue. */
  lemma ConsecutiveReach(r: Range, cursor: nat, x: nat) returns (i: nat)
    requires 0 < r.size && x < r.size
    ensures i < r.size && (cursor + i) % r.size == x
  {
    var q, c := cursor / r.size, cursor % r.size;
    assert cursor == q * r.size + c;
    if x >= c {
      i := x - c;
      DivModIs(cursor + i, r.size, q, x);
    } else {
      i := x + r.size - c;
      assert (q + 1) * r.size == q * r.size + r.size;
      DivModIs(cursor + i, r.size, q + 1, x);
    }
  }

  lemma WrapHarmless(r: Range, n: nat)
    requires 0 < r.size && U32 % r.size == 0
    ensures (n % U32) % r.size == n % r.size
  {
    var a, b := n / U32, n % U32;
    var m := U32 / r.size;
    assert U32 == m * r.size;
    var q, x := b / r.size, b % r.size;
    assert b == q * r.size + x;
    assert n == a * U32 + b;
    assert a * U32 == (a * m) * r.size by { assert a * (m * r.size) == (a * m) * r.size; }
    assert n == (a * m + q) * r.size + x by { assert (a * m + q) * r.size == (a * m) * r.size + q * r.size; }
    DivModIs(n, r.size, a * m + q, x);
  }

  lemma SweepsWhen(r: Range, cursor: nat, tries: nat)
    requires 0 < r.size <= tries && cursor < U32
    requires cursor + r.size <= U32 || U32 % r.size == 0
    ensures Sweeps(r, cursor, tries)
  {
    forall x | 0 <= x < r.size ensures Reaches(r, cursor, tries, x) {
      var i := ConsecutiveReach(r, cursor, x);
      if cursor + r.size <= U32 {
        assert (cursor + i) % U32 == cursor + i;
      } else {
        WrapHarmless(r, cursor + i);
      }
      assert Offset(r, cursor, i) == x;
    }
  }

  lemma OffsetAfterWrap(r: Range, cursor: nat, i: nat)
    requires 0 < r.size < U32 && cursor < U32 && U32 <= cursor + i < U32 + r.size
    ensures Offset(r, cursor, i) == cursor + i - U32
  {
    DivModIs(cursor + i, U32, 1, cursor + i - U32);
    DivModIs(cursor + i - U32, r.size, 0, cursor + i - U32);
  }

  /** When the search wraps one short of a multiple of the pool size, the fallback fills the gap. */
  lemma FallbackReaches(r: Range, cursor: nat, x: nat)
    requires 0 < r.size < U32 && cursor < U32 < cursor + r.size && x < r.size
    requires cursor == U32 - 1 || U32 % r.size == 1
    ensures Reaches(r, cursor, r.size + 1, x)
  {
    var k, q := U32 - cursor, U32 / r.size;
    if x <= r.size - k {
      OffsetAfterWrap(r, cursor, x + k);
    } else {
      var i := x - r.size + k - 1;
      assert U32 == q * r.size + 1 && (q - 1) * r.size == q * r.size - r.size;
      assert cursor + i == (q - 1) * r.size + x && (cursor + i) % U32 == cursor + i;
      DivModIs(cursor + i, r.size, q - 1, x);
      assert Offset(r, cursor, i) == x;
    }
  }

  /** The offset a search that wraps in the middle never tries. */
  function Missed(r: Range, cursor: nat): nat
    requires 0 < r.size && cursor < U32 && cursor + r.size > U32
  {
    var k, rem := U32 - cursor, U32 % r.size;
    if rem <= k then rem + r.size - k - 1 else r.size - 1
  }

  lemma WrapMisses(r: Range, cursor: nat, i: nat)
    requires 0 < r.size < U32 && cursor < U32 < cursor + r.size && U32 % r.size != 0
    requires i < r.size || (i == r.size && cursor < U32 - 1 && U32 % r.size != 1)
    ensures 0 <= Missed(r, cursor) < r.size && Offset(r, cursor, i) != Missed(r, cursor)
  {
    var k, rem, q := U32 - cursor, U32 % r.size, U32 / r.size;
    assert U32 == q * r.size + rem;
    if i < k {
      var y := rem - k + i;
      assert cursor + i == q * r.size + y && (cursor + i) % U32 == cursor + i;
      if y >= 0 {
        DivModIs(cursor + i, r.size, q, y);
      } else {
        assert (q - 1) * r.size == q * r.size - r.size;
        DivModIs(cursor + i, r.size, q - 1, y + r.size);
      }
    } else {
      OffsetAfterWrap(r, cursor, i);
    }
  }

  lemma NeverReached(r: Range, cursor: nat, tries: nat)
    requires 0 < r.size < U32 && cursor < U32 < cursor + r.size && U32 % r.size != 0
    requires tries == r.size || (tries == r.size + 1 && !Safe(r, cursor))
    ensures Missed(r, cursor) < r.size && !Reaches(r, cursor, tries, Missed(r, cursor))
  {
    forall i | 0 <= i < tries ensures Missed(r, cursor) < r.size && Offset(r, cursor, i) != Missed(r, cursor) {
      WrapMisses(r, cursor, i);
    }
    assert Missed(r, cursor) < r.size by { WrapMisses(r, cursor, 0); }
  }

  /** The bounded search reaches every offset exactly when the cursor does not wrap inside it, or
      wraps where the pool size divides 2^32. */
  lemma SweepsExactly(r: Range, cursor: nat)
    requires 0 < r.size < U32 && cursor < U32
    ensures Sweeps(r, cursor, r.size) <==> cursor + r.size <= U32 || U32 % r.size == 0
  {
    hide Reaches;
    if cursor + r.size <= U32 || U32 % r.size == 0 {
      SweepsWhen(r, cursor, r.size);
    } else {
      NeverReached(r, cursor, r.size);
    }
  }

  /** With the fallback as one more try, every offset is reached exactly at the safe cursors. */
  lemma FallbackSweepsExactly(r: Range, cursor: nat)
    requires 0 < r.size < U32 && cursor < U32
    ensures Sweeps(r, cursor, r.size + 1) <==> Safe(r, cursor)
  {
    hide Reaches;
    if cursor + r.size <= U32 || U32 % r.size == 0 {
      SweepsWhen(r, cursor, r.size + 1);
    } else if Safe(r, cursor) {
      var tries := r.size + 1;
      forall x | 0 <= x < r.size ensures Reaches(r, cursor, tries, x) {
        FallbackReaches(r, cursor, x);
      }
    } else {
      NeverReached(r, cursor, r.size + 1);
    }
  }

  function Candidate(r: Range, cursor: nat): nat
    requires 0 < r.size
  {
    r.base + 1 + cursor % r.size
  }

  /** Trying `tries` candidates from the cursor: the first address not in use, and the new cursor. */
  function FindFree(r: Range, used: set<nat>, cursor: nat, tries: nat): (Option<nat>, nat)
    requires 0 < r.size
    decreases tries
  {
    if tries == 0 then (None, cursor)
    else
      var ip, next := Candidate(r, cursor), (cursor + 1) % U32;
      if ip !in used then (Some(ip), next) else FindFree(r, used, next, tries - 1)
  }

  lemma WrapNext(cursor: nat, n: nat)
    requires cursor < U32 && n > 0
    ensures ((cursor + 1) % U32 + (n - 1)) % U32 == (cursor + n) % U32
  {
  }

  lemma OffsetShift(r: Range, cursor: nat, i: nat)
    requires 0 < r.size && cursor < U32
    ensures Offset(r, cursor, 0) == cursor % r.size
    ensures i > 0 ==> Offset(r, cursor, i) == Offset(r, (cursor + 1) % U32, i - 1)
  {
    assert cursor % U32 == cursor;
    if i > 0 { WrapNext(cursor, i); }
  }

  lemma {:induction false} FindFreeTries(r: Range, used: set<nat>, cursor: nat, tries: nat)
    requires 0 < r.size && cursor < U32
    ensures FindFree(r, used, cursor, tries).1 < U32
    ensures var found := FindFree(r, used, cursor, tries).0;
            if found.Some? then found.value !in used && r.base + 1 <= found.value < r.base + 1 + r.size
            else && FindFree(r, used, cursor, tries).1 == (cursor + tries) % U32
                 && forall i :: 0 <= i < tries ==> r.base + 1 + Offset(r, cursor, i) in used
    decreases tries
  {
    hide Offset;
    assert cursor % U32 == cursor;
    if tries > 0 && r.base + 1 + cursor % r.size in used {
      var next := (cursor + 1) % U32;
      FindFreeTries(r, used, next, tries - 1);
      WrapNext(cursor, tries);
      forall i | 0 <= i < tries && FindFree(r, used, next, tries - 1).0.None?
        ensures r.base + 1 + Offset(r, cursor, i) in used
      {
        OffsetShift(r, cursor, i);
      }
    }
  }

  lemma {:induction false} RangeCount(used: set<nat>, base: nat, n: nat)
    requires forall ip :: base < ip <= base + n ==> ip in used
    ensures |used| >= n
    decreases n
  {
    if n > 0 { RangeCount(used - {base + n}, base, n - 1); }
  }

  /** With a free address in the pool, a sweeping search finds one. */
  lemma SweepFinds(r: Range, used: set<nat>, cursor: nat)
    requires 0 < r.size && cursor < U32 && Sweeps(r, cursor, r.size) && |used| < r.size
    ensures FindFree(r, used, cursor, r.size).0.Some?
  {
    FindFreeTries(r, used, cursor, r.size);
    if FindFree(r, used, cursor, r.size).0.None? { AllTakenIsFull(r, used, cursor, r.size); }
  }

  lemma AllTakenIsFull(r: Range, used: set<nat>, cursor: nat, tries: nat)
    requires 0 < r.size && Sweeps(r, cursor, tries)
    requires forall i :: 0 <= i < tries ==> r.base + 1 + Offset(r, cursor, i) in used
    ensures |used| >= r.size
  {
    hide Offset;
    forall ip | r.base < ip <= r.base + r.size ensures ip in used {
      assert Reaches(r, cursor, tries, ip - r.base - 1);
    }
    RangeCount(used, r.base, r.size);
  }

  /** The address an allocation hands out: the one found, or the candidate after the last try. */
  function Chosen(r: Range, used: set<nat>, cursor: nat): nat
    requires 0 < r.size
  {
    var f := FindFree(r, used, cursor, r.size);
    if f.0.Some? then f.0.value else Candidate(r, f.1)
  }

  /** At a safe cursor the address handed out is free whenever any is. */
  lemma SafeCursorChoosesFree(r: Range, used: set<nat>, cursor: nat)
    requires 0 < r.size < U32 && cursor < U32 && |used| < r.size && Safe(r, cursor)
    ensures Chosen(r, used, cursor) !in used
  {
    hide FindFree, Sweeps, Safe;
    FindFreeTries(r, used, cursor, r.size);
    if FindFree(r, used, cursor, r.size).0.None? && Chosen(r, used, cursor) in used {
      FallbackSweepsExactly(r, cursor);
      assert Chosen(r, used, cursor) == r.base + 1 + Offset(r, cursor, r.size);
      AllTakenIsFull(r, used, cursor, r.size + 1);
    }
  }

  /** At every other cursor one occupancy defeats it: with every address but the missed one taken,
      the address handed out is in use. */
  lemma UnsafeCursorChoosesTaken(r: Range, used: set<nat>, cursor: nat)
    requires 0 < r.size < U32 && cursor < U32 && !Safe(r, cursor)
    requires forall ip :: r.base < ip <= r.base + r.size && ip != r.base + 1 + Missed(r, cursor) ==> ip in used
    ensures Missed(r, cursor) < r.size && Chosen(r, used, cursor) in used
  {
    hide FindFree, Offset, Missed;
    NeverReached(r, cursor, r.size + 1);
    forall i | 0 <= i <= r.size ensures r.base + 1 + Offset(r, cursor, i) in used {
      OffsetInPool(r, cursor, i);
      assert !Reaches(r, cursor, r.size + 1, Missed(r, cursor));
    }
    AllTriedAreUsed(r, used, cursor, r.size);
    FindFreeTries(r, used, cursor, r.size);
    assert Chosen(r, used, cursor) == r.base + 1 + Offset(r, cursor, r.size) by { OffsetIs(r, cursor, r.size); }
  }

  lemma OffsetInPool(r: Range, cursor: nat, i: nat)
    requires 0 < r.size
    ensures Offset(r, cursor, i) < r.size
  {
  }

  lemma OffsetIs(r: Range, cursor: nat, i: nat)
    requires 0 < r.size
    ensures r.base + 1 + Offset(r, cursor, i) == Candidate(r, (cursor + i) % U32)
  {
  }

  lemma {:induction false} AllTriedAreUsed(r: Range, used: set<nat>, cursor: nat, tries: nat)
    requires 0 < r.size < U32 && cursor < U32
    requires forall k :: 0 <= k < tries ==> r.base + 1 + Offset(r, cursor, k) in used
    ensures FindFree(r, used, cursor, tries).0.None?
    decreases tries
  {
    hide Offset;
    if tries > 0 {
      OffsetShift(r, cursor, 0);
      var next := (cursor + 1) % U32;
      forall k | 0 <= k < tries - 1 ensures r.base + 1 + Offset(r, next, k) in used {
        OffsetShift(r, cursor, k + 1);
      }
      AllTriedAreUsed(r, used, next, tries - 1);
    }
  }

  // ---------------------------------------------------------------- the operations

  function Without(order: seq<string>, d: string): seq<string> {
    if order == [] then [] else if order[0] == d then order[1..] else [order[0]] + Without(order[1..], d)
  }

  /** Moved to the most-recently-used end. */
  function Touched(order: seq<string>, d: string): seq<string> { if d in order then Without(order, d) + [d] else order }

  lemma {:induction false} WithoutOne(order: seq<string>, d: string)
    requires Distinct(order) && d in order
    ensures Distinct(Without(order, d)) && |Without(order, d)| == |order| - 1
    ensures forall e :: e in Without(order, d) <==> e in order && e != d
  {
    if order[0] != d {
      assert d in order[1..];
      WithoutOne(order[1..], d);
      assert order[0] !in Without(order[1..], d);
    }
    assert order == [order[0]] + order[1..];
  }

  /** Room is made, when the pool is full, by dropping the least recently used domain. */
  function Evicted(r: Range, p: Pool): Pool {
    if |p.byDomain| < r.size || p.order == [] then p
    else
      var victim := p.order[0];
      var dropped := p.(order := p.order[1..]);
      if victim in p.byDomain
      then dropped.(byDomain := p.byDomain - {victim}, byIp := p.byIp - {p.byDomain[victim]})
      else dropped
  }

  function Inserted(e: Pool, domain: string, ip: nat, cursor: nat): (Pool, nat) {
    (Pool(cursor, e.byDomain[domain := ip], e.byIp[ip := domain], e.order + [domain]), ip)
  }

  /** The pool and the address after an allocation for a domain it does not know. */
  function Allocated(r: Range, p: Pool, domain: string): (Pool, nat)
    requires 0 < r.size
  {
    var e := Evicted(r, p);
    Inserted(e, domain, Chosen(r, e.byIp.Keys, e.cursor), FindFree(r, e.byIp.Keys, e.cursor, r.size).1)
  }

  lemma EvictFull(r: Range, p: Pool)
    requires Valid(r, p) && p.order != []
    ensures p.order[0] in p.byDomain
    ensures var victim := p.order[0];
            var q := Pool(p.cursor, p.byDomain - {victim}, p.byIp - {p.byDomain[victim]}, p.order[1..]);
            Valid(r, q) && |q.byIp| == |p.byIp| - 1
  {
    hide Contains, Inverse, Lists;
    var victim := p.order[0];
    ListsTail(p.order, p.byDomain);
    OneLess(p.byDomain, victim);
    RemovePair(p.byDomain, p.byIp, victim);
    OneLess(p.byIp, p.byDomain[victim]);
  }

  lemma ListsTail(order: seq<string>, byDomain: map<string, nat>)
    requires Lists(order, byDomain) && order != []
    ensures order[0] in byDomain && Lists(order[1..], byDomain - {order[0]})
  {
    hide Distinct;
    OrderTail(order);
    OneLess(byDomain, order[0]);
  }

  lemma EvictedKeeps(r: Range, p: Pool)
    requires Valid(r, p) && 0 < r.size
    ensures Valid(r, Evicted(r, p)) && |Evicted(r, p).byIp| < r.size
    ensures Evicted(r, p).cursor == p.cursor
    ensures forall d :: d in Evicted(r, p).byDomain <==> d in p.byDomain && (|p.byDomain| < r.size || d != p.order[0])
    ensures forall d :: d in Evicted(r, p).byDomain ==> d in p.byDomain && Evicted(r, p).byDomain[d] == p.byDomain[d]
  {
    hide Inverse, AllIn, Distinct;
    if |p.byDomain| >= r.size { EvictFull(r, p); }
  }

  lemma RemovePair(byDomain: map<string, nat>, byIp: map<nat, string>, d: string)
    requires Inverse(byDomain, byIp) && d in byDomain
    ensures byDomain[d] in byIp && Inverse(byDomain - {d}, byIp - {byDomain[d]})
  {
  }

  lemma OrderTail(order: seq<string>)
    requires Distinct(order) && order != []
    ensures order[0] in order && Distinct(order[1..]) && order[0] !in order[1..]
    ensures forall d :: d in order <==> d == order[0] || d in order[1..]
  {
    assert order == [order[0]] + order[1..];
  }

  lemma OneLess<K, V>(m: map<K, V>, k: K)
    requires k in m
    ensures |m - {k}| == |m| - 1
  {
    assert (m - {k}).Keys == m.Keys - {k};
  }

  /** For every valid pool and unknown domain: the maps stay inverse exactly when the address
      handed out is free once room was made, which a safe cursor guarantees; otherwise two domains
      share it. No other domain changes address, and only the least recently used of a full pool
      loses its own. */
  lemma AllocationExactly(r: Range, p: Pool, domain: string)
    requires RangeOk(r) && Valid(r, p) && domain !in p.byDomain
    ensures var (p', ip) := Allocated(r, p, domain);
            var e := Evicted(r, p);
            && (Valid(r, p') <==> ip !in e.byIp)
            && (Safe(r, p.cursor) ==> ip !in e.byIp)
            && (ip in e.byIp ==> e.byIp[ip] in p'.byDomain && e.byIp[ip] != domain && p'.byDomain[e.byIp[ip]] == ip)
            && p'.byDomain[domain] == ip && p'.byIp[ip] == domain && r.base + 1 <= ip <= r.base + r.size
            && (forall d :: d in p'.byDomain && d != domain ==> d in p.byDomain && p'.byDomain[d] == p.byDomain[d])
            && (forall d :: d in p.byDomain && d !in p'.byDomain ==> |p.byDomain| == r.size && d == p.order[0])
  {
    hide Evicted, FindFree, Safe, Lists, AllIn, Chosen;
    var e := Evicted(r, p);
    EvictedKeeps(r, p);
    assert |e.byIp.Keys| < r.size;
    ChosenInPool(r, e.byIp.Keys, e.cursor);
    if Safe(r, p.cursor) { SafeCursorChoosesFree(r, e.byIp.Keys, e.cursor); }
    var (p', ip) := Allocated(r, p, domain);
    if ip in e.byIp {
      assert p'.byDomain[e.byIp[ip]] == ip && p'.byIp[ip] == domain;
    } else {
      InsertKeeps(r, e, domain, ip, p'.cursor);
    }
    assert |p.byDomain| <= r.size;
  }

  lemma ChosenInPool(r: Range, used: set<nat>, cursor: nat)
    requires 0 < r.size && cursor < U32
    ensures r.base + 1 <= Chosen(r, used, cursor) <= r.base + r.size
    ensures FindFree(r, used, cursor, r.size).1 < U32
  {
    hide FindFree;
    FindFreeTries(r, used, cursor, r.size);
  }

  lemma InsertKeeps(r: Range, e: Pool, domain: string, ip: nat, cursor: nat)
    requires Valid(r, e) && |e.byIp| < r.size && domain !in e.byDomain
    requires ip !in e.byIp && Contains(r, ip) && cursor < U32
    ensures Valid(r, Pool(cursor, e.byDomain[domain := ip], e.byIp[ip := domain], e.order + [domain]))
  {
    hide Contains, Distinct;
    assert domain !in e.order;
    assert Distinct(e.order + [domain]) by { AppendDistinct(e.order, domain); }
  }

  lemma AppendDistinct(order: seq<string>, d: string)
    requires Distinct(order) && d !in order
    ensures Distinct(order + [d])
  {
  }

  // ---------------------------------------------------------------- the pool object

  class FakeIpPool {
    const range: Range
    var cursor: nat
    var byDomain: map<string, nat>
    var byIp: map<nat, string>
    var order: seq<string>

    ghost function View(): Pool
      reads this
    {
      Pool(cursor, byDomain, byIp, order)
    }

    constructor (range: Range)
      requires RangeOk(range)
      ensures this.range == range && View() == EMPTY && Valid(range, View())
    {
      this.range := range;
      cursor, byDomain, byIp, order := 0, map[], map[], [];
    }

    method Touch(domain: string)
      modifies this`order
      ensures order == Touched(old(order), domain)
    {
      if domain in order { order := Without(order, domain) + [domain]; }
    }

    /** `lookup_or_alloc_flagged`: the address and whether it is a new one. */
    method LookupOrAlloc(domain: string) returns (r: Result<(nat, bool)>)
      requires RangeOk(range)
      modifies this
      ensures |domain| > 255 ==> r == Err && View() == old(View())
      ensures |domain| <= 255 && domain in old(byDomain) ==>
                r == Ok((old(byDomain)[domain], false)) && View() == old(View()).(order := Touched(old(order), domain))
      ensures |domain| <= 255 && domain !in old(byDomain) ==>
                var (p, ip) := Allocated(range, old(View()), domain);
                View() == p && r == Ok((ip, true))
    {
      if |domain| > 255 { return Err; }
      if domain in byDomain {
        Touch(domain);
        return Ok((byDomain[domain], false));
      }
      if |byDomain| >= range.size && order != [] {
        var victim := order[0];
        if victim in byDomain {
          byIp := byIp - {byDomain[victim]};
          byDomain := byDomain - {victim};
        }
        order := order[1..];
      }
      ghost var e := Evicted(range, old(View()));
      assert View() == e;
      var ip: Option<nat> := None;
      var i := 0;
      while i < range.size && ip.None?
        invariant i <= range.size && byDomain == e.byDomain && byIp == e.byIp && order == e.order
        invariant FindFree(range, byIp.Keys, e.cursor, range.size) ==
                  if ip.Some? then (ip, cursor) else FindFree(range, byIp.Keys, cursor, range.size - i)
      {
        var candidate := Candidate(range, cursor);
        cursor := (cursor + 1) % U32;
        if candidate !in byIp { ip := Some(candidate); }
        i := i + 1;
      }
      var address := if ip.Some? then ip.value else Candidate(range, cursor);
      byDomain, byIp, order := byDomain[domain := address], byIp[address := domain], order + [domain];
      return Ok((address, true));
    }

    /** `reverse`. */
    method Reverse(ip: nat) returns (r: Option<string>)
      modifies this`order
      ensures ip !in byIp ==> r == None && order == old(order)
      ensures ip in byIp ==> r == Some(byIp[ip]) && order == Touched(old(order), byIp[ip])
    {
      if ip !in byIp { return None; }
      r := Some(byIp[ip]);
      Touch(byIp[ip]);
    }

    /** `flush`. */
    method Flush()
      modifies this
      ensures View() == EMPTY
    {
      cursor, byDomain, byIp, order := 0, map[], map[], [];
    }
  }

  // ---------------------------------------------------------------- every run of the pool

  /** What can happen to a pool; a restart loads whatever its store holds. */
  datatype Op = Lookup(domain: string) | ReverseLookup(ip: nat) | FlushAll | Restart(store: Store)

  function Step(r: Range, p: Pool, op: Op): Pool
    requires 0 < r.size
  {
    match op
    case Lookup(d) =>
      if |d| > 255 then p
      else if d in p.byDomain then p.(order := Touched(p.order, d))
      else Allocated(r, p, d).0
    case ReverseLookup(ip) => if ip in p.byIp then p.(order := Touched(p.order, p.byIp[ip])) else p
    case FlushAll => EMPTY
    // A store that does not load keeps the engine from starting.
    case Restart(store) => if Loaded(r, store).Ok? then Loaded(r, store).value else p
  }

  lemma TouchKeeps(r: Range, p: Pool, d: string)
    requires Valid(r, p)
    ensures Valid(r, p.(order := Touched(p.order, d)))
  {
    hide Inverse, AllIn, Distinct;
    if d in p.order {
      WithoutOne(p.order, d);
      AppendDistinct(Without(p.order, d), d);
    }
  }

  /** The operation is a lookup that allocates. */
  predicate Allocates(p: Pool, op: Op) { op.Lookup? && |op.domain| <= 255 && op.domain !in p.byDomain }

  predicate TakesFree(r: Range, p: Pool, op: Op)
    requires 0 < r.size
  {
    Allocates(p, op) ==> Allocated(r, p, op.domain).1 !in Evicted(r, p).byIp
  }

  /** An operation keeps the two maps inverse exactly when any address it hands out is free, which a
      safe cursor guarantees. */
  lemma StepExactly(r: Range, p: Pool, op: Op)
    requires RangeOk(r) && Valid(r, p)
    ensures Valid(r, Step(r, p, op)) <==> TakesFree(r, p, op)
    ensures (Allocates(p, op) ==> Safe(r, p.cursor)) ==> TakesFree(r, p, op)
  {
    hide Valid, Safe, Allocated, Evicted, Loaded;
    match op
    case Lookup(d) =>
      TouchKeeps(r, p, d);
      if d !in p.byDomain { AllocationExactly(r, p, d); }
    case ReverseLookup(ip) => if ip in p.byIp { TouchKeeps(r, p, p.byIp[ip]); }
    case FlushAll => EmptyIsValid(r);
    case Restart(store) => if Loaded(r, store).Ok? { LoadedIsValid(r, store); }
  }

  lemma EmptyIsValid(r: Range)
    ensures Valid(r, EMPTY)
  {
  }

  function Run(r: Range, p: Pool, ops: seq<Op>): Pool
    requires 0 < r.size
  {
    if ops == [] then p else Step(r, Run(r, p, ops[..|ops| - 1]), ops[|ops| - 1])
  }

  lemma RunNext(r: Range, p: Pool, ops: seq<Op>, i: nat)
    requires 0 < r.size && i < |ops|
    ensures Run(r, p, ops[..i + 1]) == Step(r, Run(r, p, ops[..i]), ops[i])
  {
    assert ops[..i + 1][..i] == ops[..i];
  }

  lemma {:induction false} RunConcat(r: Range, p: Pool, a: seq<Op>, b: seq<Op>)
    requires 0 < r.size
    ensures Run(r, p, a + b) == Run(r, Run(r, p, a), b)
    decreases |b|
  {
    hide Step;
    if b == [] {
      assert a + b == a;
    } else {
      assert (a + b)[..|a + b| - 1] == a + b[..|b| - 1];
      RunConcat(r, p, a, b[..|b| - 1]);
    }
  }

  /** A run keeps the pool a bijection throughout exactly when no operation of it hands out an
      address in use. */
  lemma RunExactly(r: Range, p: Pool, ops: seq<Op>)
    requires RangeOk(r) && Valid(r, p)
    ensures (forall i :: 0 <= i <= |ops| ==> Valid(r, Run(r, p, ops[..i]))) <==>
            (forall i :: 0 <= i < |ops| ==> TakesFree(r, Run(r, p, ops[..i]), ops[i]))
  {
    hide Valid, Step, TakesFree, Run;
    if forall i :: 0 <= i < |ops| ==> TakesFree(r, Run(r, p, ops[..i]), ops[i]) {
      forall i | 0 <= i <= |ops| ensures Valid(r, Run(r, p, ops[..i])) {
        FreeRunIsValid(r, p, ops, i);
      }
    }
    if forall i :: 0 <= i <= |ops| ==> Valid(r, Run(r, p, ops[..i])) {
      forall i | 0 <= i < |ops| ensures TakesFree(r, Run(r, p, ops[..i]), ops[i]) {
        assert Valid(r, Run(r, p, ops[..i])) && Valid(r, Run(r, p, ops[..i + 1]));
        RunNext(r, p, ops, i);
        StepExactly(r, Run(r, p, ops[..i]), ops[i]);
      }
    }
  }

  lemma {:induction false} FreeRunIsValid(r: Range, p: Pool, ops: seq<Op>, n: nat)
    requires RangeOk(r) && Valid(r, p) && n <= |ops|
    requires forall i :: 0 <= i < |ops| ==> TakesFree(r, Run(r, p, ops[..i]), ops[i])
    ensures Valid(r, Run(r, p, ops[..n]))
  {
    hide Valid, Step, TakesFree;
    if n > 0 {
      FreeRunIsValid(r, p, ops, n - 1);
      RunNext(r, p, ops, n - 1);
      StepExactly(r, Run(r, p, ops[..n - 1]), ops[n - 1]);
    }
  }

  /** The cursor at every allocation of the run is safe. */
  ghost predicate SafeRun(r: Range, p: Pool, ops: seq<Op>)
    requires 0 < r.size
  {
    forall i :: 0 <= i < |ops| && Allocates(Run(r, p, ops[..i]), ops[i]) ==> Safe(r, Run(r, p, ops[..i]).cursor)
  }

  /** In every run that allocates at safe cursors only, however long and with any hits, reverse
      lookups, refused names, flushes and restarts in between, no address ever serves two domains. */
  lemma {:induction false} EveryRunIsBijective(r: Range, p: Pool, ops: seq<Op>)
    requires RangeOk(r) && Valid(r, p) && SafeRun(r, p, ops)
    ensures Valid(r, Run(r, p, ops))
  {
    hide Valid, Step, TakesFree, Safe, Allocates;
    if ops != [] {
      var n := |ops| - 1;
      forall i | 0 <= i < n && Allocates(Run(r, p, ops[..n][..i]), ops[..n][i])
        ensures Safe(r, Run(r, p, ops[..n][..i]).cursor)
      {
        assert ops[..n][..i] == ops[..i];
      }
      EveryRunIsBijective(r, p, ops[..n]);
      assert Allocates(Run(r, p, ops[..n]), ops[n]) ==> Safe(r, Run(r, p, ops[..n]).cursor);
      StepExactly(r, Run(r, p, ops[..n]), ops[n]);
    }
  }

  /** The most tries the allocations since the run's last flush or restart can have made, `size` for
      each. */
  function Tries(r: Range, p: Pool, ops: seq<Op>): nat
    requires 0 < r.size
  {
    if ops == [] then 0
    else
      var n := |ops| - 1;
      if ops[n].FlushAll? || (ops[n].Restart? && Loaded(r, ops[n].store).Ok?) then 0
      else Tries(r, p, ops[..n]) + (if Allocates(Run(r, p, ops[..n]), ops[n]) then r.size else 0)
  }

  lemma {:induction false} FindFreeMoves(r: Range, used: set<nat>, cursor: nat, tries: nat)
    requires 0 < r.size && cursor + tries <= U32 && cursor < U32
    ensures FindFree(r, used, cursor, tries).1 <= cursor + tries
    decreases tries
  {
    hide Candidate;
    if tries > 0 && cursor + 1 < U32 {
      assert (cursor + 1) % U32 == cursor + 1;
      FindFreeMoves(r, used, cursor + 1, tries - 1);
    }
  }

  lemma {:induction false} CursorBound(r: Range, p: Pool, ops: seq<Op>)
    requires RangeOk(r) && p.cursor < r.size
    requires forall i :: 0 <= i <= |ops| ==> Tries(r, p, ops[..i]) + 2 * r.size <= U32
    ensures Run(r, p, ops).cursor < r.size + Tries(r, p, ops)
    ensures Run(r, p, ops).cursor + r.size <= U32
  {
    hide Step, Allocates;
    assert ops[..|ops|] == ops;
    if ops != [] {
      var n := |ops| - 1;
      forall i | 0 <= i <= n ensures Tries(r, p, ops[..n][..i]) + 2 * r.size <= U32 {
        assert ops[..n][..i] == ops[..i];
      }
      CursorBound(r, p, ops[..n]);
      StepMoves(r, Run(r, p, ops[..n]), ops[n]);
    }
  }

  /** In numbers: a pool fresh or just loaded stays a bijection while two more allocations than were
      made since the last flush or restart still fit into 2^32 tries. */
  lemma FewAllocationsAreSafe(r: Range, p: Pool, ops: seq<Op>)
    requires RangeOk(r) && Valid(r, p) && p.cursor < r.size
    requires forall i :: 0 <= i <= |ops| ==> Tries(r, p, ops[..i]) + 2 * r.size <= U32
    ensures Valid(r, Run(r, p, ops))
  {
    hide Valid, Step, Allocates;
    forall i | 0 <= i < |ops| ensures Safe(r, Run(r, p, ops[..i]).cursor) {
      forall j | 0 <= j <= i ensures Tries(r, p, ops[..i][..j]) + 2 * r.size <= U32 {
        assert ops[..i][..j] == ops[..j];
      }
      CursorBound(r, p, ops[..i]);
    }
    EveryRunIsBijective(r, p, ops);
  }

  lemma StepMoves(r: Range, p: Pool, op: Op)
    requires 0 < r.size && p.cursor + r.size <= U32 && p.cursor < U32
    ensures if op.FlushAll? || (op.Restart? && Loaded(r, op.store).Ok?) then Step(r, p, op).cursor < r.size
            else Step(r, p, op).cursor <= p.cursor + (if Allocates(p, op) then r.size else 0)
  {
    hide FindFree, Chosen, Touched, Evicted, Loaded;
    match op
    case Lookup(_) =>
      EvictedCursor(r, p);
      FindFreeMoves(r, Evicted(r, p).byIp.Keys, p.cursor, r.size);
    case ReverseLookup(_) =>
    case FlushAll =>
    case Restart(store) => LoadedCursor(r, store);
  }

  lemma EvictedCursor(r: Range, p: Pool)
    ensures Evicted(r, p).cursor == p.cursor
  {
  }

  lemma LoadedCursor(r: Range, store: Store)
    requires 0 < r.size
    ensures Loaded(r, store).Ok? ==> Loaded(r, store).value.cursor < r.size
  {
    hide LoadMappings;
  }

  // ---------------------------------------------------------------- exactly which pools stay bijections

  /** Short names, different for different numbers below 2^32. */
  function Name(n: nat): string
    requires n < U32
  {
    [(n % 2048) as char, ((n / 2048) % 2048) as char, (n / 4194304) as char]
  }

  lemma NamesDiffer(m: nat, n: nat)
    requires m < U32 && n < U32 && Name(m) == Name(n)
    ensures m == n
  {
    assert Name(m)[0] == Name(n)[0] && Name(m)[1] == Name(n)[1] && Name(m)[2] == Name(n)[2];
    assert m / 4194304 == m / 2048 / 2048 && n / 4194304 == n / 2048 / 2048;
  }

  /** The pool after `n` lookups of new names: the newest of them, each at the offset of its number. */
  ghost predicate Filled(r: Range, p: Pool, n: nat)
    requires 0 < r.size
  {
    && Valid(r, p) && p.cursor == n < U32 && |p.order| == Min(n, r.size)
    && forall i :: 0 <= i < |p.order| ==> Holds(r, p, p.order[i], n - |p.order| + i)
  }

  ghost predicate Holds(r: Range, p: Pool, d: string, j: nat)
    requires 0 < r.size
  {
    j < U32 && d == Name(j) && d in p.byDomain && p.byDomain[d] == r.base + 1 + j % r.size
  }

  /** Two numbers less than the pool size apart have different offsets. */
  lemma OffsetsDiffer(size: nat, j: nat, n: nat)
    requires j < n < j + size
    ensures j % size != n % size
  {
    if j % size == n % size {
      var d := n / size - j / size;
      assert n - j == d * size by {
        assert n == (n / size) * size + n % size && j == (j / size) * size + j % size;
        assert d * size == (n / size) * size - (j / size) * size;
      }
      assert d <= 0 ==> d * size <= 0;
      if d >= 1 { MultipleIsLarge(d, size); }
    }
  }

  lemma NextIsUnknown(r: Range, p: Pool, n: nat)
    requires 0 < r.size && Filled(r, p, n)
    ensures Name(n) !in p.byDomain
  {
    hide Name, Distinct;
    if Name(n) in p.byDomain {
      assert Name(n) in p.order;
      var i :| 0 <= i < |p.order| && p.order[i] == Name(n);
      assert Holds(r, p, p.order[i], n - |p.order| + i);
      NamesDiffer(n - |p.order| + i, n);
    }
  }

  lemma EvictedOrder(r: Range, p: Pool)
    requires Valid(r, p) && 0 < r.size
    ensures var e := Evicted(r, p);
            |e.order| == Min(|p.order|, r.size - 1) && e.order == p.order[|p.order| - |e.order|..]
  {
    hide Inverse, AllIn, Distinct;
    assert p.order[0..] == p.order;
  }

  /** Making room keeps the newest domains where they are. */
  lemma EvictedHolds(r: Range, p: Pool, n: nat)
    requires 0 < r.size && Filled(r, p, n)
    ensures var e := Evicted(r, p);
            && e.cursor == n && |e.order| == Min(n, r.size - 1)
            && forall i :: 0 <= i < |e.order| ==> Holds(r, e, e.order[i], n - |e.order| + i)
  {
    hide Holds, Valid, Evicted;
    var e := Evicted(r, p);
    EvictedKeeps(r, p);
    EvictedOrder(r, p);
    forall i | 0 <= i < |e.order| ensures Holds(r, e, e.order[i], n - |e.order| + i) {
      var k := |p.order| - |e.order| + i;
      assert Holds(r, p, p.order[k], n - |p.order| + k);
      assert p.order[k] == e.order[i];
      KeptHolds(r, p, e, e.order[i], n - |e.order| + i);
    }
  }

  lemma KeptHolds(r: Range, p: Pool, e: Pool, d: string, j: nat)
    requires 0 < r.size && Valid(r, e) && d in e.order && Holds(r, p, d, j)
    requires forall c :: c in e.byDomain ==> c in p.byDomain && e.byDomain[c] == p.byDomain[c]
    ensures Holds(r, e, d, j)
  {
    hide Name, Inverse, AllIn, Distinct;
  }

  lemma InUseIsListed(r: Range, p: Pool, ip: nat) returns (i: nat)
    requires Valid(r, p) && ip in p.byIp
    ensures i < |p.order| && p.order[i] in p.byDomain && p.byDomain[p.order[i]] == ip
  {
    hide Distinct, AllIn;
    assert p.byIp[ip] in p.order;
    i :| 0 <= i < |p.order| && p.order[i] == p.byIp[ip];
  }

  /** In a filled pool, once room was made, the offset of the next number is free. */
  lemma NextIsFree(r: Range, p: Pool, n: nat)
    requires 0 < r.size && Filled(r, p, n)
    ensures Candidate(r, n) !in Evicted(r, p).byIp
  {
    hide Name, Valid, Evicted;
    var e := Evicted(r, p);
    EvictedKeeps(r, p);
    EvictedHolds(r, p, n);
    if Candidate(r, n) in e.byIp {
      var i := InUseIsListed(r, e, Candidate(r, n));
      assert Holds(r, e, e.order[i], n - |e.order| + i);
      OffsetsDiffer(r.size, n - |e.order| + i, n);
    }
  }

  lemma FillOne(r: Range, p: Pool, n: nat)
    requires RangeOk(r) && Filled(r, p, n) && n + 1 < U32
    ensures Filled(r, Step(r, p, Lookup(Name(n))), n + 1)
  {
    hide Evicted, Distinct, Inverse, AllIn, Lists, Name, Holds;
    NextIsUnknown(r, p, n);
    NextIsFree(r, p, n);
    EvictedHolds(r, p, n);
    EvictedKeeps(r, p);
    var e, ip := Evicted(r, p), Candidate(r, n);
    NextIsAllocated(r, p, n);
    InsertKeeps(r, e, Name(n), ip, n + 1);
    var p' := Step(r, p, Lookup(Name(n)));
    forall i | 0 <= i < |p'.order| ensures Holds(r, p', p'.order[i], n + 1 - |p'.order| + i) {
      if i < |e.order| { HoldsStill(r, e, n, i, ip); } else { HoldsNow(r, e, n, ip); }
    }
  }

  lemma NextIsAllocated(r: Range, p: Pool, n: nat)
    requires RangeOk(r) && n + 1 < U32 && Name(n) !in p.byDomain
    requires Evicted(r, p).cursor == n && Candidate(r, n) !in Evicted(r, p).byIp
    ensures Step(r, p, Lookup(Name(n))) == Inserted(Evicted(r, p), Name(n), Candidate(r, n), n + 1).0
  {
    hide Evicted, Candidate;
    assert (n + 1) % U32 == n + 1;
    assert FindFree(r, Evicted(r, p).byIp.Keys, n, r.size) == (Some(Candidate(r, n)), n + 1);
  }

  lemma HoldsStill(r: Range, e: Pool, n: nat, i: nat, ip: nat)
    requires 0 < r.size && n < U32 && i < |e.order| <= n && Holds(r, e, e.order[i], n - |e.order| + i)
    ensures Holds(r, Inserted(e, Name(n), ip, n + 1).0, e.order[i], n - |e.order| + i)
  {
    hide Name;
    KnownIsOther(r, e, n, i);
  }

  lemma HoldsNow(r: Range, e: Pool, n: nat, ip: nat)
    requires 0 < r.size && n < U32 && ip == Candidate(r, n)
    ensures Holds(r, Inserted(e, Name(n), ip, n + 1).0, Name(n), n)
  {
    hide Name;
  }

  lemma KnownIsOther(r: Range, e: Pool, n: nat, i: nat)
    requires 0 < r.size && n < U32 && i < |e.order| <= n && Holds(r, e, e.order[i], n - |e.order| + i)
    ensures e.order[i] != Name(n)
  {
    hide Name;
    if e.order[i] == Name(n) { NamesDiffer(n - |e.order| + i, n); }
  }

  lemma {:induction false} FillRun(r: Range, n: nat) returns (ops: seq<Op>)
    requires RangeOk(r) && n < U32
    ensures Filled(r, Run(r, EMPTY, ops), n)
  {
    hide Step, Valid, Name;
    if n == 0 {
      ops := [];
      EmptyIsFilled(r);
    } else {
      var before := FillRun(r, n - 1);
      ops := before + [Lookup(Name(n - 1))];
      assert ops[..|ops| - 1] == before;
      FillOne(r, Run(r, EMPTY, before), n - 1);
    }
  }

  lemma EmptyIsFilled(r: Range)
    requires 0 < r.size
    ensures Filled(r, EMPTY, 0)
  {
  }

  /** Using the oldest domain again makes it the newest. */
  lemma TurnOne(r: Range, p: Pool)
    requires RangeOk(r) && Valid(r, p) && p.order != [] && |p.order[0]| <= 255
    ensures Step(r, p, Lookup(p.order[0])) == p.(order := p.order[1..] + [p.order[0]])
    ensures Valid(r, Step(r, p, Lookup(p.order[0])))
  {
    hide Inverse, AllIn, Distinct, Allocated, Touched;
    assert p.order[0] in p.order;
    OldestTouched(p.order);
    TouchKeeps(r, p, p.order[0]);
  }

  /** Using the oldest domains again, one after the other, turns the order. */
  lemma {:induction false} TurnRun(r: Range, p: Pool, m: nat) returns (ops: seq<Op>)
    requires RangeOk(r) && Valid(r, p) && m <= |p.order| && forall d :: d in p.order ==> |d| <= 255
    ensures Run(r, p, ops) == p.(order := p.order[m..] + p.order[..m]) && Valid(r, Run(r, p, ops))
  {
    hide Valid, Step;
    if m == 0 {
      ops := [];
      assert p.order[0..] + p.order[..0] == p.order;
    } else {
      var before := TurnRun(r, p, m - 1);
      var q, d := Run(r, p, before), p.order[m - 1];
      TurnedOnce(p.order, m);
      ops := before + [Lookup(d)];
      assert ops[..|ops| - 1] == before;
      assert d in p.order;
      TurnOne(r, q);
    }
  }

  lemma TurnedOnce<T>(order: seq<T>, m: nat)
    requires 0 < m <= |order|
    ensures var turned := order[m - 1..] + order[..m - 1];
            turned[0] == order[m - 1] && turned[1..] + [order[m - 1]] == order[m..] + order[..m]
  {
    assert order[..m] == order[..m - 1] + [order[m - 1]] && order[m - 1..][1..] == order[m..];
  }

  lemma OldestTouched(order: seq<string>)
    requires order != []
    ensures Touched(order, order[0]) == order[1..] + [order[0]]
  {
  }

  /** A full valid pool whose oldest domain sits at the offset an unsafe cursor misses, and every
      other offset is taken: the next allocation hands out an address in use. */
  lemma MissedAtFront(r: Range, p: Pool, domain: string)
    requires RangeOk(r) && Valid(r, p) && |p.byDomain| == r.size && domain !in p.byDomain && !Safe(r, p.cursor)
    requires p.order != [] && p.byDomain[p.order[0]] == r.base + 1 + Missed(r, p.cursor)
    requires forall ip :: r.base < ip <= r.base + r.size ==> ip in p.byIp
    ensures !Valid(r, Allocated(r, p, domain).0)
  {
    hide Missed, FindFree, Chosen, Inverse, AllIn, Lists;
    var e := Evicted(r, p);
    EvictFull(r, p);
    assert e.byIp == p.byIp - {r.base + 1 + Missed(r, p.cursor)};
    UnsafeCursorChoosesTaken(r, e.byIp.Keys, p.cursor);
    AllocationExactly(r, p, domain);
  }

  lemma FilledTakesAll(r: Range, p: Pool, n: nat, ip: nat) returns (i: nat)
    requires RangeOk(r) && Filled(r, p, n) && r.size <= n && r.base < ip <= r.base + r.size
    ensures i < |p.order| && p.order[i] in p.byDomain && p.byDomain[p.order[i]] == ip && ip in p.byIp
  {
    hide Name, AllIn, Lists;
    i := ConsecutiveReach(r, n - r.size, ip - r.base - 1);
    assert Holds(r, p, p.order[i], n - |p.order| + i);
  }

  /** A filled pool can be brought, by using domains again, to hand out an address in use, if its
      cursor is unsafe. */
  lemma FilledCollides(r: Range, p: Pool, n: nat, cursor: nat) returns (q: Pool, ops: seq<Op>)
    requires RangeOk(r) && Filled(r, p, n) && r.size <= n && cursor < U32 && !Safe(r, cursor)
    ensures q == Run(r, p.(cursor := cursor), ops) && Valid(r, q) && q.cursor == cursor
    ensures Name(n) !in q.byDomain && |Name(n)| <= 255 && !Valid(r, Allocated(r, q, Name(n)).0)
  {
    hide Missed, Valid, Allocated;
    NeverReached(r, cursor, r.size + 1);
    var m := FilledTakesAll(r, p, n, r.base + 1 + Missed(r, cursor));
    NextIsUnknown(r, p, n);
    var p' := p.(cursor := cursor);
    assert Valid(r, p') by { MovedCursor(r, p, cursor); }
    NamesAreShort(r, p, n);
    ops := TurnRun(r, p', m);
    q := Run(r, p', ops);
    assert q.order[0] == p.order[m];
    forall ip | r.base < ip <= r.base + r.size ensures ip in q.byIp {
      var _ := FilledTakesAll(r, p, n, ip);
    }
    FullCount(r, p, n);
    MissedAtFront(r, q, Name(n));
  }

  lemma MovedCursor(r: Range, p: Pool, cursor: nat)
    requires Valid(r, p) && cursor < U32
    ensures Valid(r, p.(cursor := cursor))
  {
  }

  lemma NamesAreShort(r: Range, p: Pool, n: nat)
    requires 0 < r.size && Filled(r, p, n)
    ensures forall d :: d in p.order ==> |d| <= 255
  {
    forall d | d in p.order ensures |d| <= 255 {
      var i :| 0 <= i < |p.order| && p.order[i] == d;
      assert Holds(r, p, p.order[i], n - |p.order| + i);
    }
  }

  lemma FullCount(r: Range, p: Pool, n: nat)
    requires 0 < r.size && Filled(r, p, n) && r.size <= n
    ensures |p.byDomain| == r.size
  {
  }

  /** The safe cursors are exactly those at which every valid pool allocates to a valid pool. */
  lemma SafeExactly(r: Range, cursor: nat)
    requires RangeOk(r) && cursor < U32
    ensures Safe(r, cursor) <==>
            forall p, d :: Valid(r, p) && p.cursor == cursor && d !in p.byDomain ==> Valid(r, Allocated(r, p, d).0)
  {
    hide Valid, Safe, Allocated;
    if Safe(r, cursor) {
      forall p, d | Valid(r, p) && p.cursor == cursor && d !in p.byDomain ensures Valid(r, Allocated(r, p, d).0) {
        AllocationExactly(r, p, d);
      }
    } else {
      var fill := FillRun(r, r.size);
      var q, _ := FilledCollides(r, Run(r, EMPTY, fill), r.size, cursor);
      assert Valid(r, q) && q.cursor == cursor && Name(r.size) !in q.byDomain;
    }
  }

  /** No run from the empty pool ever gives one address to two domains if and only if 2^32 leaves
      remainder 0 or 1 by the pool size. */
  lemma AlwaysBijectiveExactly(r: Range)
    requires RangeOk(r)
    ensures (forall ops :: Valid(r, Run(r, EMPTY, ops))) <==> U32 % r.size <= 1
  {
    hide Valid, Allocates;
    EmptyIsValid(r);
    if U32 % r.size <= 1 {
      forall ops ensures Valid(r, Run(r, EMPTY, ops)) {
        EveryRunIsBijective(r, EMPTY, ops);
      }
    } else {
      var ops := CollidingRun(r);
      assert !Valid(r, Run(r, EMPTY, ops));
    }
  }

  lemma CollidingRun(r: Range) returns (ops: seq<Op>)
    requires RangeOk(r) && U32 % r.size > 1
    ensures !Valid(r, Run(r, EMPTY, ops))
  {
    hide Valid, Filled, Name;
    var n := U32 - 2;
    var fill := FillRun(r, n);
    var p := Run(r, EMPTY, fill);
    assert p.cursor == n by { FilledCursor(r, p, n); }
    assert p == p.(cursor := n);
    assert r.size > 2;
    var q, turn := FilledCollides(r, p, n, n);
    ops := fill + turn + [Lookup(Name(n))];
    assert ops[..|ops| - 1] == fill + turn;
    RunConcat(r, EMPTY, fill, turn);
  }

  lemma MultipleVanishes(a: nat, size: nat, y: nat)
    requires 0 < size
    ensures (a * size + y) % size == y % size
  {
    assert y == (y / size) * size + y % size;
    assert (a + y / size) * size == a * size + (y / size) * size;
    DivModIs(a * size + y, size, a + y / size, y % size);
  }

  lemma SmallPower(j: nat, k: nat)
    requires 1 <= j < k && 3 <= k
    ensures 2 <= Pow2(j) < Pow2(k) - 2
  {
    PowersMultiply(k - 3, 3);
    PowersMultiply(k - 1 - j, j);
    PowersMultiply(j, 0);
    assert Pow2(3) == 8 && Pow2(k) == 2 * Pow2(k - 1);
    assert Pow2(k - 1 - j) * Pow2(j) >= Pow2(j) by { MultipleIsLarge(Pow2(k - 1 - j), Pow2(j)); }
    assert Pow2(k) >= 8 by { MultipleIsLarge(Pow2(k - 3), 8); }
  }

  /** No positive power of two comes within 2 above a multiple of 2^k - 2. */
  lemma {:induction false} PowersLeaveTwo(j: nat, k: nat)
    requires 1 <= j && 3 <= k
    ensures Pow2(k) - 2 > 0 && Pow2(j) % (Pow2(k) - 2) >= 2
  {
    SmallPower(1, k);
    var size := Pow2(k) - 2;
    if j < k {
      SmallPower(j, k);
      DivModIs(Pow2(j), size, 0, Pow2(j));
    } else {
      var a := Pow2(j - k);
      PowersMultiply(j - k, k);
      PowersLeaveTwo(j - k + 1, k);
      assert a * (size + 2) == a * size + 2 * a;
      MultipleVanishes(a, size, 2 * a);
    }
  }

  /** The pool size `parse_range` gives a prefix: all but two addresses, and at least one. */
  function PoolSize(prefix: nat): nat
    requires prefix <= 32
  {
    var hosts := Pow2(32 - prefix);
    if hosts > 2 then hosts - 2 else 1
  }

  /** Of the prefixes `parse_range` accepts, exactly /30, /31 and /32 never hand out an address
      twice; every wider range, the shipped /15 among them, has a run that does. */
  lemma NarrowPrefixesExactly(r: Range, prefix: nat)
    requires 2 <= prefix <= 32 && RangeOk(r) && r.size == PoolSize(prefix)
    ensures (forall ops :: Valid(r, Run(r, EMPTY, ops))) <==> prefix >= 30
  {
    hide Valid, Run;
    AlwaysBijectiveExactly(r);
    assert Pow2(16) == 65536;
    PowersMultiply(16, 16);
    if prefix >= 30 {
      assert Pow2(2) == 4 && Pow2(1) == 2;
    } else {
      PowersLeaveTwo(32, 32 - prefix);
    }
  }

  /** The pool in which the first `n` of these domains hold the first `n` addresses. */
  function Taken(base: nat, cursor: nat, ds: seq<string>, n: nat): Pool
    requires n <= |ds|
  {
    if n == 0 then EMPTY.(cursor := cursor)
    else Inserted(Taken(base, cursor, ds, n - 1), ds[n - 1], base + n, cursor).0
  }

  /** A valid pool that holds exactly the first `n` addresses. */
  ghost predicate HoldsFirst(r: Range, p: Pool, n: nat) {
    && Valid(r, p) && |p.byDomain| == n && (forall ip :: ip in p.byIp <==> r.base < ip <= r.base + n)
  }

  lemma FirstGrow(r: Range, p: Pool, n: nat, d: string, cursor: nat)
    requires HoldsFirst(r, p, n) && n < r.size && d !in p.byDomain && cursor < U32
    ensures HoldsFirst(r, Inserted(p, d, r.base + n + 1, cursor).0, n + 1)
  {
    hide Inverse, AllIn, Lists;
    InsertKeeps(r, p, d, r.base + n + 1, cursor);
  }

  lemma {:induction false} TakenIs(r: Range, cursor: nat, ds: seq<string>, n: nat)
    requires n <= |ds| && n <= r.size && Distinct(ds) && cursor < U32
    ensures var p := Taken(r.base, cursor, ds, n);
            && HoldsFirst(r, p, n) && p.cursor == cursor && (forall d :: d in p.byDomain ==> d in ds[..n])
            && (n > 0 ==> ds[n - 1] in p.byDomain && p.byDomain[ds[n - 1]] == r.base + n)
  {
    hide HoldsFirst, Distinct, Inserted;
    if n == 0 {
      NothingHeld(r, cursor);
    } else {
      var p, d := Taken(r.base, cursor, ds, n - 1), ds[n - 1];
      InsertedIs(p, d, r.base + n, cursor);
      TakenIs(r, cursor, ds, n - 1);
      NotBefore(ds, n - 1);
      assert ds[..n] == ds[..n - 1] + [ds[n - 1]];
      FirstGrow(r, p, n - 1, d, cursor);
    }
  }

  lemma NothingHeld(r: Range, cursor: nat)
    requires cursor < U32
    ensures HoldsFirst(r, EMPTY.(cursor := cursor), 0)
  {
  }

  lemma InsertedIs(p: Pool, d: string, ip: nat, cursor: nat)
    ensures var p' := Inserted(p, d, ip, cursor).0;
            && p'.cursor == cursor && d in p'.byDomain && p'.byDomain[d] == ip
            && forall e :: e in p'.byDomain ==> e == d || e in p.byDomain
  {
  }

  lemma NotBefore(ds: seq<string>, n: nat)
    requires Distinct(ds) && n < |ds|
    ensures ds[n] !in ds[..n]
  {
  }

  /** A /29 pool with five of its six addresses taken, two tries before the cursor wraps: whatever
      the six domains are called, the sixth is given the address of the fifth. */
  lemma SharedAddress(base: nat, ds: seq<string>)
    requires base + 7 < U32 && |ds| == 6 && Distinct(ds)
    ensures var r, p := Range(base, 6), Taken(base, U32 - 2, ds, 5);
            && Valid(r, p) && ds[5] !in p.byDomain
            && var p' := Allocated(r, p, ds[5]).0;
               ds[4] in p'.byDomain && p'.byDomain[ds[5]] == p'.byDomain[ds[4]] == base + 5
  {
    hide Chosen, FindFree, Valid, Distinct, Taken;
    var r, p := Range(base, 6), Taken(base, U32 - 2, ds, 5);
    TakenIs(r, U32 - 2, ds, 5);
    NotBefore(ds, 5);
    assert ds[..5][4] == ds[4];
    FallbackAt(r, p.byIp.Keys, U32 - 2);
  }

  lemma FallbackAt(r: Range, used: set<nat>, cursor: nat)
    requires r.size == 6 && cursor == U32 - 2 && forall ip :: r.base < ip <= r.base + 5 ==> ip in used
    ensures Chosen(r, used, cursor) == r.base + 5
  {
    hide FindFree;
    AllTriedAreUsed(r, used, cursor, 6);
    FindFreeTries(r, used, cursor, 6);
  }

  lemma FilledCursor(r: Range, p: Pool, n: nat)
    requires 0 < r.size && Filled(r, p, n)
    ensures p.cursor == n
  {
  }

  // ---------------------------------------------------------------- recently used domains survive

  /** How many domains were used more recently than `d`. */
  function Behind(order: seq<string>, d: string): nat
    requires d in order
  {
    if order[0] == d then |order| - 1 else Behind(order[1..], d)
  }

  lemma {:induction false} BehindAppend(order: seq<string>, d: string, e: string)
    requires d in order
    ensures Behind(order + [e], d) == Behind(order, d) + 1
  {
    if order[0] != d {
      assert (order + [e])[1..] == order[1..] + [e];
      BehindAppend(order[1..], d, e);
    }
  }

  lemma {:induction false} BehindLast(order: seq<string>, d: string)
    requires d !in order
    ensures Behind(order + [d], d) == 0
  {
    if order != [] {
      assert (order + [d])[1..] == order[1..] + [d];
      BehindLast(order[1..], d);
    }
  }

  lemma {:induction false} BehindWithout(order: seq<string>, d: string, e: string)
    requires Distinct(order) && d in order && e in order && d != e
    ensures d in Without(order, e) && Behind(Without(order, e), d) <= Behind(order, d)
  {
    WithoutOne(order, e);
    if order[0] != d && order[0] != e {
      BehindWithout(order[1..], d, e);
      assert Without(order, e)[1..] == Without(order[1..], e);
    }
  }

  /** A use puts the domain at the recent end and lets every other one fall back by one at most. */
  lemma TouchedIsMostRecent(order: seq<string>, d: string, e: string)
    requires Distinct(order) && d in order && e in order
    ensures d in Touched(order, e) && e in Touched(order, e)
    ensures Behind(Touched(order, e), e) == 0 && (d != e ==> Behind(Touched(order, e), d) <= Behind(order, d) + 1)
  {
    WithoutOne(order, e);
    BehindLast(Without(order, e), e);
    if d != e {
      BehindWithout(order, d, e);
      BehindAppend(Without(order, e), d, e);
    }
  }

  /** The order lists every domain once and the pool is not overfull: kept by every operation,
      even one that hands out an address twice. */
  ghost predicate Listed(r: Range, p: Pool) { Lists(p.order, p.byDomain) && |p.byDomain| <= r.size }

  lemma EvictedLists(r: Range, p: Pool)
    requires Listed(r, p) && 0 < r.size
    ensures var e := Evicted(r, p);
            && Lists(e.order, e.byDomain) && |e.byDomain| < r.size
            && (forall d :: d in e.byDomain ==> d in p.byDomain && e.byDomain[d] == p.byDomain[d])
            && (forall d :: d in p.order && Behind(p.order, d) + 1 < r.size ==>
                  d in e.byDomain && d in e.order && Behind(e.order, d) == Behind(p.order, d))
  {
    hide Distinct;
    if |p.byDomain| >= r.size {
      ListsTail(p.order, p.byDomain);
      OrderTail(p.order);
      OneLess(p.byDomain, p.order[0]);
    }
  }

  lemma AllocationLists(r: Range, p: Pool, domain: string)
    requires Listed(r, p) && 0 < r.size && domain !in p.byDomain
    ensures Listed(r, Allocated(r, p, domain).0)
  {
    hide Evicted, Chosen, FindFree, Behind, Distinct;
    EvictedLists(r, p);
    AppendDistinct(Evicted(r, p).order, domain);
  }

  lemma TouchLists(r: Range, p: Pool, d: string)
    requires Listed(r, p)
    ensures Listed(r, p.(order := Touched(p.order, d)))
  {
    hide Distinct;
    if d in p.order {
      WithoutOne(p.order, d);
      AppendDistinct(Without(p.order, d), d);
    }
  }

  lemma StepLists(r: Range, p: Pool, op: Op)
    requires 0 < r.size && Listed(r, p)
    ensures Listed(r, Step(r, p, op))
  {
    hide Allocated, Touched, Distinct, Loaded;
    match op
    case Lookup(d) =>
      TouchLists(r, p, d);
      if d !in p.byDomain { AllocationLists(r, p, d); }
    case ReverseLookup(ip) => if ip in p.byIp { TouchLists(r, p, p.byIp[ip]); }
    case FlushAll =>
      assert Distinct(EMPTY.order) by { NothingTwice(); }
    case Restart(store) => if Loaded(r, store).Ok? { LoadedIsListed(r, store); }
  }

  lemma LoadedIsListed(r: Range, store: Store)
    requires 0 < r.size && Loaded(r, store).Ok?
    ensures Listed(r, Loaded(r, store).value)
  {
    hide LoadMappings, Inverse, AllIn, Distinct;
    EmptyIsValid(r);
    LoadKeepsValid(r, EMPTY, store.mappings);
  }

  lemma NothingTwice()
    ensures Distinct<string>([])
  {
  }

  /** Whatever happens to the addresses, in every run the order lists every domain exactly once and
      the pool never holds more domains than addresses. */
  lemma {:induction false} EveryRunIsListed(r: Range, p: Pool, ops: seq<Op>)
    requires 0 < r.size && Listed(r, p)
    ensures Listed(r, Run(r, p, ops))
  {
    hide Listed, Step;
    if ops != [] {
      EveryRunIsListed(r, p, ops[..|ops| - 1]);
      StepLists(r, Run(r, p, ops[..|ops| - 1]), ops[|ops| - 1]);
    }
  }

  lemma RecentStep(r: Range, p: Pool, op: Op, d: string)
    requires 0 < r.size && Listed(r, p) && d in p.order && Behind(p.order, d) + 1 < r.size
    requires !op.FlushAll? && !op.Restart?
    ensures var p' := Step(r, p, op);
            && Listed(r, p') && d in p.byDomain && d in p'.byDomain && p'.byDomain[d] == p.byDomain[d]
            && d in p'.order && Behind(p'.order, d) <= Behind(p.order, d) + 1
  {
    hide Evicted, Chosen, FindFree, Behind, Touched;
    StepLists(r, p, op);
    match op
    case Lookup(e) =>
      if e in p.byDomain {
        TouchedIsMostRecent(p.order, d, e);
      } else if |e| <= 255 {
        EvictedLists(r, p);
        BehindAppend(Evicted(r, p).order, d, e);
      }
    case ReverseLookup(ip) =>
      if ip in p.byIp {
        var e := p.byIp[ip];
        if e in p.order { TouchedIsMostRecent(p.order, d, e); } else { UnknownTouch(p.order, e); }
      }
  }

  lemma UnknownTouch(order: seq<string>, e: string)
    requires e !in order
    ensures Touched(order, e) == order
  {
  }

  /** A domain keeps its address through the next operations as long as they are fewer than the
      pool can hold beside the domains used since, wherever the cursor is. */
  lemma {:induction false} RecentSurvives(r: Range, p: Pool, ops: seq<Op>, d: string)
    requires 0 < r.size && Listed(r, p) && d in p.order && Behind(p.order, d) + |ops| < r.size
    requires forall i :: 0 <= i < |ops| ==> !ops[i].FlushAll? && !ops[i].Restart?
    ensures var p' := Run(r, p, ops);
            && Listed(r, p') && d in p.byDomain && d in p'.byDomain && p'.byDomain[d] == p.byDomain[d]
            && d in p'.order && Behind(p'.order, d) <= Behind(p.order, d) + |ops|
  {
    hide Step, Behind;
    if ops != [] {
      var n := |ops| - 1;
      RecentSurvives(r, p, ops[..n], d);
      RecentStep(r, Run(r, p, ops[..n]), ops[n], d);
    }
  }

  // ---------------------------------------------------------------- persistence

  datatype Store = Store(next: nat, mappings: seq<(string, nat)>)

  function Mappings(p: Pool, order: seq<string>): seq<(string, nat)> {
    if order == [] then []
    else (if order[0] in p.byDomain then [(order[0], p.byDomain[order[0]])] else []) + Mappings(p, order[1..])
  }

  /** `persist_to`: the cursor and the mappings, least recently used first. */
  function Persisted(p: Pool): Store { Store(p.cursor, Mappings(p, p.order)) }

  function LoadMappings(r: Range, p: Pool, mappings: seq<(string, nat)>): Result<Pool>
    decreases |mappings|
  {
    if mappings == [] then Ok(p)
    else
      var (d, ip) := mappings[0];
      if !Contains(r, ip) || d in p.byDomain || ip in p.byIp then Err
      else LoadMappings(r, Inserted(p, d, ip, p.cursor).0, mappings[1..])
  }

  /** `load_from` on a store written for the same range. */
  function Loaded(r: Range, s: Store): Result<Pool>
    requires 0 < r.size
  {
    if |s.mappings| > r.size then Err
    else
      var p := LoadMappings(r, EMPTY, s.mappings);
      if p.Err? then Err else Ok(p.value.(cursor := s.next % r.size))
  }

  lemma {:induction false} LoadKeepsValid(r: Range, p: Pool, mappings: seq<(string, nat)>)
    requires Valid(r, p) && |p.order| + |mappings| <= r.size
    ensures LoadMappings(r, p, mappings).Ok? ==> Valid(r, LoadMappings(r, p, mappings).value)
    decreases |mappings|
  {
    if mappings != [] {
      var (d, ip) := mappings[0];
      if Contains(r, ip) && d !in p.byDomain && ip !in p.byIp {
        InsertKeeps(r, p, d, ip, p.cursor);
        hide Valid;
        LoadKeepsValid(r, Inserted(p, d, ip, p.cursor).0, mappings[1..]);
      }
    }
  }

  /** Whatever the file holds, a pool that loads is a bijection. */
  lemma LoadedIsValid(r: Range, s: Store)
    requires RangeOk(r) && Loaded(r, s).Ok?
    ensures Valid(r, Loaded(r, s).value)
  {
    EmptyIsValid(r);
    LoadKeepsValid(r, EMPTY, s.mappings);
  }

  ghost function DomainsOf(p: Pool, ds: seq<string>): map<string, nat> {
    map d | d in p.byDomain && d in ds :: p.byDomain[d]
  }

  ghost function AddressesOf(p: Pool, ds: seq<string>): map<nat, string> {
    map ip | ip in p.byIp && p.byIp[ip] in ds :: p.byIp[ip]
  }

  /** The pool restricted to the first `n` domains of its order. */
  ghost function Prefix(p: Pool, n: nat): Pool
    requires n <= |p.order|
  {
    Pool(0, DomainsOf(p, p.order[..n]), AddressesOf(p, p.order[..n]), p.order[..n])
  }

  lemma RestrictGrows(p: Pool, ds: seq<string>, d: string)
    requires Inverse(p.byDomain, p.byIp) && d in p.byDomain && d !in ds
    ensures d !in DomainsOf(p, ds) && p.byDomain[d] !in AddressesOf(p, ds)
    ensures DomainsOf(p, ds + [d]) == DomainsOf(p, ds)[d := p.byDomain[d]]
    ensures AddressesOf(p, ds + [d]) == AddressesOf(p, ds)[p.byDomain[d] := d]
  {
  }

  lemma PrefixGrows(r: Range, p: Pool, n: nat)
    requires Valid(r, p) && n < |p.order|
    ensures var q, d := Prefix(p, n), p.order[n];
            && d in p.byDomain && d !in q.byDomain && p.byDomain[d] !in q.byIp && Contains(r, p.byDomain[d])
            && Prefix(p, n + 1) == q.(byDomain := q.byDomain[d := p.byDomain[d]], byIp := q.byIp[p.byDomain[d] := d],
                                      order := q.order + [d])
  {
    hide Contains, DomainsOf, AddressesOf, Inverse;
    var d := p.order[n];
    assert d in p.order;
    assert p.order[..n + 1] == p.order[..n] + [d];
    assert d !in p.order[..n];
    RestrictGrows(p, p.order[..n], d);
    PairIn(p.byDomain, p.byIp, d);
  }

  lemma PairIn(byDomain: map<string, nat>, byIp: map<nat, string>, d: string)
    requires Inverse(byDomain, byIp) && d in byDomain
    ensures byDomain[d] in byIp
  {
  }

  lemma {:induction false} LoadRebuilds(r: Range, p: Pool, n: nat)
    requires Valid(r, p) && n <= |p.order|
    ensures LoadMappings(r, Prefix(p, n), Mappings(p, p.order[n..])) == Ok(Prefix(p, |p.order|))
    decreases |p.order| - n
  {
    hide Valid, Prefix;
    if n == |p.order| {
      assert p.order[n..] == [];
    } else {
      PrefixGrows(r, p, n);
      var d := p.order[n];
      assert p.order[n..][0] == d && p.order[n..][1..] == p.order[n + 1..];
      var ms := Mappings(p, p.order[n..]);
      assert ms == [(d, p.byDomain[d])] + Mappings(p, p.order[n + 1..]);
      assert ms[1..] == Mappings(p, p.order[n + 1..]);
      LoadRebuilds(r, p, n + 1);
    }
  }

  lemma {:induction false} MappingsCount(p: Pool, order: seq<string>)
    ensures |Mappings(p, order)| <= |order|
  {
    if order != [] { MappingsCount(p, order[1..]); }
  }

  /** Persisting and loading gives the pool back, with the cursor reduced to its offset. */
  lemma PersistThenLoad(r: Range, p: Pool)
    requires RangeOk(r) && Valid(r, p)
    ensures Loaded(r, Persisted(p)) == Ok(p.(cursor := p.cursor % r.size))
  {
    hide Valid, Mappings, LoadMappings;
    WholePrefix(r, p);
    assert p.order[0..] == p.order;
    LoadRebuilds(r, p, 0);
    MappingsCount(p, p.order);
    ValidCount(r, p);
  }

  /** A restart on the store just written keeps every domain, its address and its age, and makes the
      cursor safe again. */
  lemma RestartKeepsPool(r: Range, p: Pool)
    requires RangeOk(r) && Valid(r, p)
    ensures var p' := Step(r, p, Restart(Persisted(p)));
            p' == p.(cursor := p'.cursor) && p'.cursor < r.size && (2 * r.size <= U32 ==> Safe(r, p'.cursor))
  {
    hide Valid, Loaded, Persisted;
    PersistThenLoad(r, p);
  }

  lemma WholePrefix(r: Range, p: Pool)
    requires Valid(r, p)
    ensures Prefix(p, 0) == EMPTY && Prefix(p, |p.order|) == p.(cursor := 0)
  {
    hide Contains, Distinct;
    assert p.order[..|p.order|] == p.order && p.order[..0] == [];
    assert DomainsOf(p, p.order) == p.byDomain && AddressesOf(p, p.order) == p.byIp;
    assert DomainsOf(p, []) == map[] && AddressesOf(p, []) == map[];
  }

  lemma ValidCount(r: Range, p: Pool)
    requires Valid(r, p)
    ensures |p.order| <= r.size
  {
  }
}
