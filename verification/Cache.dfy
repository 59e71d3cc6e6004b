/** The key-value store as a list of entries, most recently used first: what each operation does to it. */
module Cache {
  import opened Basics
  import opened Order
  import opened Decimal

  const MAX_KEY_LEN := 256
  const MAX_VALUE_LEN := 65535
  const ALLOC_ATTEMPTS := 32
  const U64 := 0x1_0000_0000_0000_0000

  const OK := 0
  const NOT_FOUND := -1
  const ERROR := -2

  datatype Entry = Entry(key: bytes, value: bytes, expires: nat)

  /** The list after an operation, and its return code. */
  datatype Outcome = Outcome(entries: seq<Entry>, rc: int)

  // ---- Lists

  /** `s` without its element at `i`. */
  function Without<T>(s: seq<T>, i: nat): (r: seq<T>)
    requires i < |s|
    ensures |r| == |s| - 1
  {
    s[..i] + s[i + 1..]
  }

  /** `s` with its element at `i` moved to the front. */
  function Touched<T>(s: seq<T>, i: nat): seq<T>
    requires i < |s|
  {
    [s[i]] + Without(s, i)
  }

  predicate InRange<T>(s: seq<T>, at: Option<nat>) { at.Some? ==> at.value < |s| }

  /** The elements that may be evicted: all but the protected one. */
  function Spare<T>(s: seq<T>, skip: Option<nat>): (r: seq<T>)
    requires InRange(s, skip)
    ensures |r| == if skip.Some? then |s| - 1 else |s|
  {
    if skip.Some? then Without(s, skip.value) else s
  }

  /** `s` after its `n` last elements other than the protected one are gone. */
  function Kept<T>(s: seq<T>, skip: Option<nat>, n: nat): (r: seq<T>)
    requires InRange(s, skip) && n <= |Spare(s, skip)|
    ensures |r| == |s| - n
  {
    var m := |Spare(s, skip)| - n;
    if skip.None? then s[..m]
    else
      var p := Min(skip.value, m);
      Spare(s, skip)[..p] + [s[skip.value]] + Spare(s, skip)[p..m]
  }

  /** Where the protected element then is, in a list that had `len` elements. */
  function SkipAt(len: nat, skip: Option<nat>, n: nat): (r: Option<nat>)
    requires skip.Some? ==> skip.value < len && n < len
    ensures (r.Some? <==> skip.Some?) && (r.Some? ==> r.value < len - n)
  {
    if skip.None? then None else Some(Min(skip.value, len - 1 - n))
  }

  /** The next victim: the last element that is not protected. */
  function Victim(len: nat, skip: Option<nat>): (v: nat)
    requires len > if skip.Some? then 1 else 0
    ensures v < len
  {
    if skip == Some(len - 1) then len - 2 else len - 1
  }

  lemma WithoutLast<T>(a: seq<T>, x: T, b: seq<T>)
    ensures Without(a + [x] + b, |a|) == a + b
  {
  }

  lemma KeptStep<T>(s: seq<T>, skip: Option<nat>, n: nat)
    requires InRange(s, skip) && n < |Spare(s, skip)|
    ensures var k, at := Kept(s, skip, n), SkipAt(|s|, skip, n);
      InRange(k, at) && |Spare(k, at)| == |Spare(s, skip)| - n
      && Kept(s, skip, n + 1) == Without(k, Victim(|k|, at))
  {
    var rest, m := Spare(s, skip), |Spare(s, skip)| - n;
    assert rest[..m] == rest[..m - 1] + [rest[m - 1]];
    if skip.None? {
      WithoutLast(s[..m - 1], s[m - 1], []);
    } else if skip.value >= m {
      WithoutLast(rest[..m - 1], rest[m - 1], [s[skip.value]]);
      assert Kept(s, skip, n) == rest[..m - 1] + [rest[m - 1]] + [s[skip.value]];
    } else {
      var a := rest[..skip.value] + [s[skip.value]] + rest[skip.value..m - 1];
      assert rest[skip.value..m] == rest[skip.value..m - 1] + [rest[m - 1]];
      WithoutLast(a, rest[m - 1], []);
      assert Kept(s, skip, n) == a + [rest[m - 1]];
    }
  }

  lemma KeptHere<T>(s: seq<T>, skip: Option<nat>, n: nat)
    requires InRange(s, skip) && n <= |Spare(s, skip)|
    ensures InRange(Kept(s, skip, n), SkipAt(|s|, skip, n))
    ensures skip.Some? ==> Kept(s, skip, n)[SkipAt(|s|, skip, n).value] == s[skip.value]
    ensures n == 0 ==> Kept(s, skip, n) == s && SkipAt(|s|, skip, n) == skip
  {
  }

  /** Taking the protected element out afterwards leaves the oldest ones evicted. */
  lemma KeptThenDropped<T>(s: seq<T>, skip: Option<nat>, n: nat)
    requires InRange(s, skip) && n <= |Spare(s, skip)|
    ensures var k, rest := Kept(s, skip, n), Spare(s, skip);
      rest[..|rest| - n] == if skip.Some? then Without(k, SkipAt(|s|, skip, n).value) else k
  {
    if skip.Some? {
      var rest, m := Spare(s, skip), |s| - 1 - n;
      var p := Min(skip.value, m);
      assert rest[..m] == rest[..p] + rest[p..m];
      WithoutLast(rest[..p], s[skip.value], rest[p..m]);
      hide Without;
    }
  }

  lemma TouchedRewrite(es: seq<Entry>, i: nat, e: Entry)
    requires i < |es|
    ensures Touched(es[i := e], i) == [e] + Without(es, i)
  {
  }

  /** `es` is what the queue elements `items` stand for. */
  ghost predicate Shows<N>(items: seq<N>, es: seq<Entry>, entryOf: map<N, Entry>) {
    |es| == |items| && forall i :: 0 <= i < |items| ==> items[i] in entryOf && es[i] == entryOf[items[i]]
  }

  lemma ShowsWithout<N>(items: seq<N>, es: seq<Entry>, entryOf: map<N, Entry>, i: nat)
    requires Shows(items, es, entryOf) && i < |items|
    ensures Shows(Without(items, i), Without(es, i), entryOf)
    ensures Shows(Touched(items, i), Touched(es, i), entryOf)
  {
  }

  lemma ShowsMore<N>(items: seq<N>, es: seq<Entry>, entryOf: map<N, Entry>, n: N, e: Entry)
    requires Shows(items, es, entryOf) && n !in items
    ensures Shows(items, es, entryOf[n := e])
  {
  }

  lemma ShowsFront<N>(items: seq<N>, es: seq<Entry>, entryOf: map<N, Entry>, n: N)
    requires Shows(items, es, entryOf) && n in entryOf
    ensures Shows([n] + items, [entryOf[n]] + es, entryOf)
  {
  }

  lemma ShowsRewritten<N>(items: seq<N>, es: seq<Entry>, entryOf: map<N, Entry>, i: nat, e: Entry)
    requires Shows(items, es, entryOf) && i < |items|
    requires forall j, k :: 0 <= j < k < |items| ==> items[j] != items[k]
    ensures Shows(items, es[i := e], entryOf[items[i] := e])
  {
  }

  // ---- The slab as an oracle

  /** Whether the n-th call of ngx_slab_alloc_locked over the life of the zone succeeds. */
  type Slab = nat -> bool

  /** How many entries a forced allocation evicts, starting at call `tick`, with `spare` evictable entries. */
  function Evictions(slab: Slab, tick: nat, spare: nat, attempts: nat): nat
    decreases spare
  {
    if attempts == 0 || slab(tick) || spare == 0 then 0 else 1 + Evictions(slab, tick + 1, spare - 1, attempts - 1)
  }

  predicate Allocates(slab: Slab, tick: nat, spare: nat, attempts: nat)
    decreases spare
  {
    attempts > 0 && (slab(tick) || (spare > 0 && Allocates(slab, tick + 1, spare - 1, attempts - 1)))
  }

  /** One turn of the allocation loop. */
  lemma EvictionStep(slab: Slab, tick: nat, spare: nat, attempts: nat)
    ensures attempts == 0 || slab(tick) || spare == 0 ==>
      Evictions(slab, tick, spare, attempts) == 0
      && Allocates(slab, tick, spare, attempts) == (attempts > 0 && slab(tick))
    ensures !(attempts == 0 || slab(tick) || spare == 0) ==>
      Evictions(slab, tick, spare, attempts) == 1 + Evictions(slab, tick + 1, spare - 1, attempts - 1)
      && Allocates(slab, tick, spare, attempts) == Allocates(slab, tick + 1, spare - 1, attempts - 1)
  {
  }

  /** An allocation stops evicting as soon as it succeeds, runs out of entries, or runs out of attempts. */
  lemma {:induction false} EvictionBounds(slab: Slab, tick: nat, spare: nat, attempts: nat)
    ensures var n := Evictions(slab, tick, spare, attempts);
      n <= Min(spare, attempts)
      && (forall k :: tick <= k < tick + n ==> !slab(k))
      && (Allocates(slab, tick, spare, attempts) <==> n < attempts && slab(tick + n))
      && (!Allocates(slab, tick, spare, attempts) ==> n == Min(spare, attempts))
    decreases spare
  {
    if !(attempts == 0 || slab(tick) || spare == 0) {
      EvictionBounds(slab, tick + 1, spare - 1, attempts - 1);
    }
  }

  // ---- Operations. `hit` is where lookup found the key, if it did.

  predicate ValidKey(key: bytes) { 0 < |key| <= MAX_KEY_LEN }

  predicate ValidWrite(key: bytes, value: bytes) { ValidKey(key) && |value| <= MAX_VALUE_LEN }

  predicate Expired(e: Entry, now: nat) { e.expires != 0 && now >= e.expires }

  function GetSpec(es: seq<Entry>, now: nat, hit: Option<nat>): Outcome
    requires InRange(es, hit)
  {
    if hit.None? then Outcome(es, NOT_FOUND)
    else if Expired(es[hit.value], now) then Outcome(Without(es, hit.value), NOT_FOUND)
    else Outcome(Touched(es, hit.value), |es[hit.value].value|)
  }

  /** What get copies to the caller's buffer. */
  function GetData(es: seq<Entry>, now: nat, hit: Option<nat>, bufLen: nat): bytes
    requires InRange(es, hit)
  {
    if hit.None? || Expired(es[hit.value], now) then []
    else es[hit.value].value[..Min(|es[hit.value].value|, bufLen)]
  }

  function ExistsSpec(es: seq<Entry>, now: nat, hit: Option<nat>): Outcome
    requires InRange(es, hit)
  {
    var o := GetSpec(es, now, hit);
    o.(rc := if o.rc == NOT_FOUND then 0 else 1)
  }

  function DeleteSpec(es: seq<Entry>, hit: Option<nat>): Outcome
    requires InRange(es, hit)
  {
    Outcome(if hit.Some? then Without(es, hit.value) else es, OK)
  }

  /** The list and the hit once an expired hit has been removed. */
  function Purge(es: seq<Entry>, now: nat, hit: Option<nat>): (r: (seq<Entry>, Option<nat>))
    requires InRange(es, hit)
    ensures InRange(r.0, r.1)
  {
    if hit.Some? && Expired(es[hit.value], now) then (Without(es, hit.value), None) else (es, hit)
  }

  datatype Need = Anything | Present | Absent

  /** A write that needs a new node: evict as much as the slab demands, then put the entry first. */
  function StoreSpec(es: seq<Entry>, prior: Option<nat>, e: Entry, slab: Slab, tick: nat): Outcome
    requires InRange(es, prior)
  {
    var spare := Spare(es, prior);
    EvictionBounds(slab, tick, |spare|, ALLOC_ATTEMPTS);
    var n := Evictions(slab, tick, |spare|, ALLOC_ATTEMPTS);
    if Allocates(slab, tick, |spare|, ALLOC_ATTEMPTS) then Outcome([e] + spare[..|spare| - n], OK)
    else Outcome(Kept(es, prior, n), ERROR)
  }

  /** ngx_http_wasm_shm_set_locked. */
  function SetSpec(es: seq<Entry>, now: nat, hit: Option<nat>, e: Entry, need: Need, slab: Slab, tick: nat): Outcome
    requires InRange(es, hit)
  {
    var (live, prior) := Purge(es, now, hit);
    if (need == Present && prior.None?) || (need == Absent && prior.Some?) then Outcome(live, NOT_FOUND)
    else if prior.Some? && |live[prior.value].value| == |e.value| then Outcome([e] + Without(live, prior.value), OK)
    else StoreSpec(live, prior, e, slab, tick)
  }

  function IncrSpec(es: seq<Entry>, now: nat, hit: Option<nat>, key: bytes, delta: int, slab: Slab, tick: nat): Outcome
    requires InRange(es, hit)
  {
    if !Int32(delta) || hit.None? then Outcome(es, ERROR)
    else
      var e := es[hit.value];
      if Expired(e, now) then Outcome(Without(es, hit.value), ERROR)
      else if Denotes(e.value).None? || !Int32(Denotes(e.value).value + delta) then Outcome(es, ERROR)
      else
        var next := Denotes(e.value).value + delta;
        var o := SetSpec(es, now, hit, Entry(key, Canonical(next), e.expires), Present, slab, tick);
        if o.rc == OK then o.(rc := next) else o
  }

  /** The expiry `set_ex` computes, in wrapping 64-bit arithmetic; 0 would mean "never". */
  function ExpiryOf(now: nat, ttl: nat): nat {
    if ttl == 0 then 0 else if (now + ttl) % U64 == 0 then 1 else (now + ttl) % U64
  }
}
