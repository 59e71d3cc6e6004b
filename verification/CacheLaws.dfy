/** What the list operations mean for the map from keys to unexpired values that callers see. */
module CacheLaws {
  import opened Basics
  import opened Order
  import opened Decimal
  import opened Cache

  datatype Item = Item(value: bytes, expires: nat)

  ghost predicate Unique(es: seq<Entry>) {
    forall i, j :: 0 <= i < j < |es| ==> es[i].key != es[j].key
  }

  /** Where the entry for a key is. */
  function IndexOf(es: seq<Entry>, key: bytes): (at: Option<nat>)
    ensures InRange(es, at) && (at.Some? ==> es[at.value].key == key)
    ensures at.None? ==> forall e :: e in es ==> e.key != key
  {
    if es == [] then None
    else if es[0].key == key then Some(0)
    else
      var at := IndexOf(es[1..], key);
      if at.None? then None else Some(at.value + 1)
  }

  /** The map a caller sees at time `t`: an expired entry is as good as absent. */
  ghost function Live(es: seq<Entry>, t: nat): (m: map<bytes, Item>)
    requires Unique(es)
    ensures forall e :: e in es && !Expired(e, t) ==> e.key in m && m[e.key] == Item(e.value, e.expires)
    ensures forall k :: k in m ==> exists e :: e in es && !Expired(e, t) && e.key == k
  {
    map k | k in LiveKeys(es, t) :: (var e := es[IndexOf(es, k).value]; Item(e.value, e.expires))
  }

  ghost function LiveKeys(es: seq<Entry>, t: nat): set<bytes> { set e | e in es && !Expired(e, t) :: e.key }

  // ---- Membership in the lists the operations build

  lemma WithoutMembers(es: seq<Entry>, i: nat)
    requires Unique(es) && i < |es|
    ensures Unique(Without(es, i)) && forall e :: e in Without(es, i) <==> e in es && e.key != es[i].key
  {
    var r := Without(es, i);
    assert forall k :: 0 <= k < |r| ==> r[k] == es[if k < i then k else k + 1];
    forall e | e in es && e.key != es[i].key ensures e in r {
      var k :| 0 <= k < |es| && es[k] == e;
      assert r[if k < i then k else k - 1] == e;
    }
  }

  lemma FrontMembers(es: seq<Entry>, e: Entry)
    requires Unique(es) && forall x :: x in es ==> x.key != e.key
    ensures Unique([e] + es) && forall x :: x in [e] + es <==> x == e || x in es
  {
  }

  /** The entries an allocation with `n` evictions takes: the oldest ones but the protected one. */
  function Victims(es: seq<Entry>, skip: Option<nat>, n: nat): (v: seq<Entry>)
    requires InRange(es, skip) && n <= |Spare(es, skip)|
    ensures |v| == n
  {
    Spare(es, skip)[|Spare(es, skip)| - n..]
  }

  ghost function KeysOf(es: seq<Entry>): set<bytes> { set e | e in es :: e.key }

  lemma SurvivorMembers(es: seq<Entry>, skip: Option<nat>, n: nat)
    requires Unique(es) && InRange(es, skip) && n <= |Spare(es, skip)|
    ensures var rest, gone := Spare(es, skip), KeysOf(Victims(es, skip, n));
      var survivors := rest[..|rest| - n];
      Unique(rest) && Unique(survivors)
      && (forall e :: e in survivors <==> e in rest && e.key !in gone)
      && (skip.Some? ==> es[skip.value].key !in gone)
  {
    var rest := Spare(es, skip);
    if skip.Some? { WithoutMembers(es, skip.value); }
    var m := |rest| - n;
    assert forall e :: e in rest <==> e in rest[..m] || e in rest[m..] by { assert rest == rest[..m] + rest[m..]; }
    forall e, x | e in rest[..m] && x in rest[m..] ensures e.key != x.key {
      var i :| 0 <= i < m && rest[i] == e;
      var j :| m <= j < |rest| && rest[j] == x;
    }
  }

  lemma InsertedMembers(a: seq<Entry>, e: Entry, b: seq<Entry>)
    requires Unique(a + b) && forall x :: x in a + b ==> x.key != e.key
    ensures Unique(a + [e] + b) && forall x :: x in a + [e] + b <==> x == e || x in a + b
  {
    var s, l := a + b, a + [e] + b;
    forall i, j | 0 <= i < j < |l| ensures l[i].key != l[j].key {
      var i', j' := if i < |a| then i else i - 1, if j < |a| then j else j - 1;
      assert i != |a| ==> l[i] == s[i'];
      assert j != |a| ==> l[j] == s[j'];
    }
  }

  lemma KeptIsInserted(es: seq<Entry>, i: nat, n: nat)
    requires i < |es| && n < |es|
    ensures var rest, m := Without(es, i), |es| - 1 - n; var p := Min(i, m);
      Kept(es, Some(i), n) == rest[..p] + [es[i]] + rest[p..m] && rest[..m] == rest[..p] + rest[p..m]
  {
  }

  lemma Reinserted(es: seq<Entry>, i: nat, a: seq<Entry>, b: seq<Entry>, gone: set<bytes>)
    requires Unique(es) && i < |es| && es[i].key !in gone && Unique(a + b)
    requires forall e :: e in a + b <==> e in es && e.key != es[i].key && e.key !in gone
    ensures Unique(a + [es[i]] + b)
    ensures forall e :: e in a + [es[i]] + b <==> e in es && e.key !in gone
  {
    InsertedMembers(a, es[i], b);
    forall e | e in es && e.key == es[i].key ensures e == es[i] {}
  }

  lemma KeptProtected(es: seq<Entry>, i: nat, n: nat)
    requires Unique(es) && i < |es| && n < |es|
    ensures var gone := KeysOf(Victims(es, Some(i), n));
      Unique(Kept(es, Some(i), n)) && forall e :: e in Kept(es, Some(i), n) <==> e in es && e.key !in gone
  {
    var rest, m := Without(es, i), |es| - 1 - n;
    var p := Min(i, m);
    var a, b, gone := rest[..p], rest[p..m], KeysOf(Victims(es, Some(i), n));
    assert a + b == rest[..m] && Kept(es, Some(i), n) == a + [es[i]] + b by { KeptIsInserted(es, i, n); }
    assert Unique(a + b) && es[i].key !in gone by { SurvivorMembers(es, Some(i), n); }
    assert forall e :: e in a + b <==> e in rest && e.key !in gone by { SurvivorMembers(es, Some(i), n); }
    assert forall e :: e in rest <==> e in es && e.key != es[i].key by { WithoutMembers(es, i); }
    Reinserted(es, i, a, b, gone);
  }

  lemma KeptMembers(es: seq<Entry>, skip: Option<nat>, n: nat)
    requires Unique(es) && InRange(es, skip) && n <= |Spare(es, skip)|
    ensures var gone := KeysOf(Victims(es, skip, n));
      Unique(Kept(es, skip, n)) && forall e :: e in Kept(es, skip, n) <==> e in es && e.key !in gone
  {
    if skip.Some? {
      KeptProtected(es, skip.value, n);
    } else {
      SurvivorMembers(es, skip, n);
    }
  }

  // ---- Operations as operations on the map

  lemma LiveMinus(es': seq<Entry>, es: seq<Entry>, gone: set<bytes>, t: nat)
    requires Unique(es') && Unique(es)
    requires forall e :: !Expired(e, t) ==> (e in es' <==> e in es && e.key !in gone)
    ensures Live(es', t) == Live(es, t) - gone
  {
    var m', m := Live(es', t), Live(es, t) - gone;
    forall k | k in m' ensures k in m && m[k] == m'[k] {
      var e :| e in es' && !Expired(e, t) && e.key == k;
    }
    forall k | k in m ensures k in m' {
      var e :| e in es && !Expired(e, t) && e.key == k;
    }
  }

  /** `m` with the entry written: an entry already expired hides the key. */
  function Put(m: map<bytes, Item>, e: Entry, t: nat): map<bytes, Item> {
    if Expired(e, t) then m - {e.key} else m[e.key := Item(e.value, e.expires)]
  }

  lemma LivePut(es': seq<Entry>, es: seq<Entry>, e: Entry, t: nat)
    requires Unique(es') && Unique(es)
    requires forall x :: x in es' <==> x == e || (x in es && x.key != e.key)
    ensures Live(es', t) == Put(Live(es, t), e, t)
  {
    hide Live, IndexOf, Unique;
    var m', m := Live(es', t), Put(Live(es, t), e, t);
    forall k | k in m' ensures k in m && m[k] == m'[k] {
      var x :| x in es' && !Expired(x, t) && x.key == k;
    }
    forall k | k in m ensures k in m' {
      if k != e.key {
        var x :| x in es && !Expired(x, t) && x.key == k;
        assert x in es';
      }
    }
  }

  /** Lazy deletion is never visible: an entry expired at `now` is absent at every later time anyway. */
  lemma LazyDeletion(es: seq<Entry>, i: nat, now: nat, t: nat)
    requires Unique(es) && i < |es| && Expired(es[i], now) && now <= t
    ensures Unique(Without(es, i)) && Live(Without(es, i), t) == Live(es, t)
  {
    WithoutMembers(es, i);
    assert forall e :: e in es && e.key == es[i].key ==> e == es[i];
    LiveMinus(Without(es, i), es, {}, t);
    assert Live(es, t) - {} == Live(es, t);
  }

  lemma LiveAt(es: seq<Entry>, key: bytes, t: nat)
    requires Unique(es)
    ensures key in Live(es, t) <==> var at := IndexOf(es, key); at.Some? && !Expired(es[at.value], t)
    ensures key in Live(es, t) ==> var e := es[IndexOf(es, key).value]; Live(es, t)[key] == Item(e.value, e.expires)
  {
    var at := IndexOf(es, key);
    if at.Some? { assert forall e :: e in es && e.key == key ==> e == es[at.value]; }
  }

  lemma PurgeUnseen(es: seq<Entry>, key: bytes, now: nat, t: nat)
    requires Unique(es) && now <= t
    ensures var (live, prior) := Purge(es, now, IndexOf(es, key));
      Unique(live) && Live(live, t) == Live(es, t)
      && prior == IndexOf(live, key) && (prior.Some? <==> key in Live(es, now))
      && (prior.Some? ==> live == es)
  {
    var hit := IndexOf(es, key);
    LiveAt(es, key, now);
    if hit.Some? && Expired(es[hit.value], now) {
      LazyDeletion(es, hit.value, now, t);
      WithoutMembers(es, hit.value);
      assert IndexOf(Without(es, hit.value), key).None?;
    }
  }

  /** The entries a write evicts. */
  function SetVictims(es: seq<Entry>, now: nat, e: Entry, need: Need, slab: Slab, tick: nat): seq<Entry> {
    var (live, prior) := Purge(es, now, IndexOf(es, e.key));
    if (need == Present && prior.None?) || (need == Absent && prior.Some?)
       || (prior.Some? && |live[prior.value].value| == |e.value|) then []
    else StoreVictims(live, prior, slab, tick)
  }

  function StoreVictims(es: seq<Entry>, prior: Option<nat>, slab: Slab, tick: nat): seq<Entry>
    requires InRange(es, prior)
  {
    EvictionBounds(slab, tick, |Spare(es, prior)|, ALLOC_ATTEMPTS);
    Victims(es, prior, Evictions(slab, tick, |Spare(es, prior)|, ALLOC_ATTEMPTS))
  }

  lemma SurvivorsAndWrite(es: seq<Entry>, e: Entry, n: nat, t: nat)
    requires Unique(es) && n <= |Spare(es, IndexOf(es, e.key))|
    ensures var prior := IndexOf(es, e.key);
      var rest, gone := Spare(es, prior), KeysOf(Victims(es, prior, n));
      var es' := [e] + rest[..|rest| - n];
      Unique(es') && Live(es', t) == Put(Live(es, t) - gone, e, t)
      && Unique(Kept(es, prior, n)) && Live(Kept(es, prior, n), t) == Live(es, t) - gone
  {
    hide Live, IndexOf, Unique, Put, Kept, KeysOf, Without;
    var prior := IndexOf(es, e.key);
    var gone := KeysOf(Victims(es, prior, n));
    var survivors := Spare(es, prior)[..|Spare(es, prior)| - n];
    assert Live(Kept(es, prior, n), t) == Live(es, t) - gone by {
      KeptMembers(es, prior, n);
      LiveMinus(Kept(es, prior, n), es, gone, t);
    }
    assert Unique(survivors) && forall x :: x in survivors <==> x in es && x.key != e.key && x.key !in gone by {
      SurvivorMembers(es, prior, n);
      if prior.Some? { WithoutMembers(es, prior.value); }
    }
    FrontMembers(survivors, e);
    assert Live([e] + survivors, t) == Put(Live(es, t) - gone, e, t) by {
      KeptMembers(es, prior, n);
      LivePut([e] + survivors, Kept(es, prior, n), e, t);
    }
  }

  /** A write with a new node is the write on the map, after the victims are gone. */
  lemma StoreOnMap(es: seq<Entry>, e: Entry, slab: Slab, tick: nat, t: nat)
    requires Unique(es)
    ensures var prior := IndexOf(es, e.key);
      var o, gone := StoreSpec(es, prior, e, slab, tick), KeysOf(StoreVictims(es, prior, slab, tick));
      Unique(o.entries) && e.key !in gone && o.rc in {OK, ERROR}
      && (o.rc == OK ==> Live(o.entries, t) == Put(Live(es, t) - gone, e, t))
      && (o.rc == ERROR ==> Live(o.entries, t) == Live(es, t) - gone)
  {
    hide Put, Live, Kept, Spare, Victims, Unique, KeysOf, Evictions, Allocates, IndexOf;
    var prior := IndexOf(es, e.key);
    EvictionBounds(slab, tick, |Spare(es, prior)|, ALLOC_ATTEMPTS);
    var n := Evictions(slab, tick, |Spare(es, prior)|, ALLOC_ATTEMPTS);
    VictimsSpareKey(es, prior, e.key, n);
    SurvivorsAndWrite(es, e, n, t);
  }

  /** The slab refuses all the calls that an allocation may make with so many entries to evict. */
  ghost predicate NeverServes(slab: Slab, tick: nat, others: nat) {
    forall k :: tick <= k < tick + Min(32, others + 1) ==> !slab(k)
  }

  /**
   * A write with a new node fails exactly if the slab refuses it once for each other entry and once more, or 32 times;
   * otherwise each refusal before the first success has cost one entry.
   */
  lemma StoreCode(es: seq<Entry>, prior: Option<nat>, e: Entry, slab: Slab, tick: nat)
    requires InRange(es, prior)
    ensures var o, others := StoreSpec(es, prior, e, slab, tick), if prior.Some? then |es| - 1 else |es|;
      && o.rc in {OK, ERROR}
      && (o.rc == ERROR <==> NeverServes(slab, tick, others))
      && (o.rc == ERROR ==> |o.entries| == |es| - Min(32, others))
      && (o.rc == OK ==>
        var n := others + 1 - |o.entries|;
        0 <= n < Min(32, others + 1) && slab(tick + n) && forall k :: tick <= k < tick + n ==> !slab(k))
  {
    hide Kept, Without;
    EvictionBounds(slab, tick, |Spare(es, prior)|, ALLOC_ATTEMPTS);
  }

  /** How many entries are not of this key. */
  ghost function Others(es: seq<Entry>, key: bytes): nat { if key in KeysOf(es) then |es| - 1 else |es| }

  /** The code of every write, from the map, the entries and the slab alone. */
  lemma WriteCode(es: seq<Entry>, now: nat, e: Entry, need: Need, slab: Slab, tick: nat)
    requires Unique(es)
    ensures var m := Live(es, now);
      SetSpec(es, now, IndexOf(es, e.key), e, need, slab, tick).rc ==
        if (need == Present && e.key !in m) || (need == Absent && e.key in m) then NOT_FOUND
        else if e.key in m && |m[e.key].value| == |e.value| then OK
        else if NeverServes(slab, tick, Others(es, e.key)) then ERROR
        else OK
  {
    hide StoreSpec, Without, Live, Unique, NeverServes, IndexOf;
    var hit := IndexOf(es, e.key);
    assert hit.Some? <==> e.key in KeysOf(es) by { if hit.Some? { assert es[hit.value] in es; } }
    var (live, prior) := Purge(es, now, hit);
    LiveAt(es, e.key, now);
    StoreCode(live, prior, e, slab, tick);
  }

  lemma RewriteOnMap(es: seq<Entry>, e: Entry, t: nat)
    requires Unique(es) && IndexOf(es, e.key).Some?
    ensures var es' := [e] + Without(es, IndexOf(es, e.key).value);
      Unique(es') && Live(es', t) == Put(Live(es, t) - {}, e, t)
  {
    var i := IndexOf(es, e.key).value;
    WithoutMembers(es, i);
    FrontMembers(Without(es, i), e);
    LivePut([e] + Without(es, i), es, e, t);
    assert Live(es, t) - {} == Live(es, t);
  }

  lemma VictimsSpareKey(es: seq<Entry>, prior: Option<nat>, key: bytes, n: nat)
    requires Unique(es) && prior == IndexOf(es, key) && n <= |Spare(es, prior)|
    ensures key !in KeysOf(Victims(es, prior, n))
  {
    SurvivorMembers(es, prior, n);
    if prior.None? {
      assert forall x :: x in Victims(es, prior, n) ==> x in es;
    }
  }

  /**
   * Every write, on the map a caller sees: it refuses exactly when its existence requirement is unmet,
   * otherwise writes the entry or reports an error, and in both cases loses only the victims' keys.
   */
  lemma WriteOnMap(es: seq<Entry>, now: nat, e: Entry, need: Need, slab: Slab, tick: nat, t: nat)
    requires Unique(es) && now <= t
    ensures var o := SetSpec(es, now, IndexOf(es, e.key), e, need, slab, tick);
      var m, gone := Live(es, now), KeysOf(SetVictims(es, now, e, need, slab, tick));
      Unique(o.entries) && e.key !in gone
      && (o.rc == NOT_FOUND <==> (need == Present && e.key !in m) || (need == Absent && e.key in m))
      && (o.rc == NOT_FOUND ==> gone == {} && Live(o.entries, t) == Live(es, t))
      && (o.rc == OK ==> Live(o.entries, t) == Put(Live(es, t) - gone, e, t))
      && (o.rc == ERROR ==> Live(o.entries, t) == Live(es, t) - gone)
      && o.rc in {OK, NOT_FOUND, ERROR}
      && (e.key in m && |m[e.key].value| == |e.value| && o.rc != NOT_FOUND ==> o.rc == OK && gone == {})
  {
    hide Put, StoreSpec, StoreVictims, Without, Live, Unique, IndexOf;
    var (live, prior) := Purge(es, now, IndexOf(es, e.key));
    PurgeUnseen(es, e.key, now, t);
    LiveAt(es, e.key, now);
    assert KeysOf([]) == {};
    if (need == Present && prior.None?) || (need == Absent && prior.Some?) {
    } else if prior.Some? && |live[prior.value].value| == |e.value| {
      RewriteOnMap(live, e, t);
    } else {
      StoreOnMap(live, e, slab, tick, t);
    }
  }

  /** An allocation gives up only after 32 evictions, or with nothing left to evict; success costs at most 31. */
  lemma VictimCount(es: seq<Entry>, now: nat, e: Entry, need: Need, slab: Slab, tick: nat)
    ensures var o, v := SetSpec(es, now, IndexOf(es, e.key), e, need, slab, tick), SetVictims(es, now, e, need, slab, tick);
      (o.rc == OK ==> |v| < ALLOC_ATTEMPTS)
      && (o.rc == ERROR ==> |v| == ALLOC_ATTEMPTS || (|v| < ALLOC_ATTEMPTS && forall x :: x in o.entries ==> x.key == e.key))
  {
    var (live, prior) := Purge(es, now, IndexOf(es, e.key));
    hide IndexOf, StoreSpec, StoreVictims, Without;
    StoreVictimCount(live, prior, e, slab, tick);
  }

  lemma StoreVictimCount(es: seq<Entry>, prior: Option<nat>, e: Entry, slab: Slab, tick: nat)
    requires InRange(es, prior) && (prior.Some? ==> es[prior.value].key == e.key)
    ensures var o, v := StoreSpec(es, prior, e, slab, tick), StoreVictims(es, prior, slab, tick);
      && o.rc in {OK, ERROR} && (o.rc == OK ==> |v| < ALLOC_ATTEMPTS)
      && (o.rc == ERROR ==> |v| == ALLOC_ATTEMPTS || (|v| < ALLOC_ATTEMPTS && forall x :: x in o.entries ==> x.key == e.key))
  {
    AllEvicted(es, prior);
    hide Kept, Spare, Without;
    EvictionBounds(slab, tick, |Spare(es, prior)|, ALLOC_ATTEMPTS);
  }

  /** When all that may be evicted is gone, the protected entry is left, or nothing. */
  lemma AllEvicted(es: seq<Entry>, prior: Option<nat>)
    requires InRange(es, prior)
    ensures Kept(es, prior, |Spare(es, prior)|) == if prior.Some? then [es[prior.value]] else []
  {
  }

  /** Victims are taken from the old end: every survivor but the protected entry was used more recently. */
  lemma VictimsAreOldest(es: seq<Entry>, prior: Option<nat>, n: nat, i: nat, j: nat)
    requires Unique(es) && InRange(es, prior) && n <= |Spare(es, prior)|
    requires i < |es| && j < |es| && prior != Some(i)
    requires es[i].key !in KeysOf(Victims(es, prior, n)) && es[j] in Victims(es, prior, n)
    ensures i < j
  {
    var spare := Spare(es, prior);
    var m := |spare| - n;
    var at := if prior.Some? then prior.value else |es|;
    var v :| m <= v < |spare| && spare[v] == es[j];
    SparePosition(es, prior, v);
    var i' := if i < at then i else i - 1;
    SparePosition(es, prior, i');
    assert j == if v < at then v else v + 1;
    assert i' < m by {
      assert forall k :: m <= k < |spare| ==> spare[k] in Victims(es, prior, n);
    }
  }

  lemma SparePosition(es: seq<Entry>, prior: Option<nat>, k: nat)
    requires InRange(es, prior) && k < |Spare(es, prior)|
    ensures var at := if prior.Some? then prior.value else |es|;
      Spare(es, prior)[k] == es[if k < at then k else k + 1]
  {
  }

  lemma TouchedMembers(es: seq<Entry>, i: nat)
    requires Unique(es) && i < |es|
    ensures Unique(Touched(es, i)) && forall e :: e in Touched(es, i) <==> e in es
  {
    WithoutMembers(es, i);
    FrontMembers(Without(es, i), es[i]);
    forall e | e in es && e.key == es[i].key ensures e == es[i] {}
  }

  /** What a caller with a buffer of this length gets to know from the map: the full length, and as many bytes as fit. */
  function ReadMap(m: map<bytes, Item>, key: bytes, bufLen: nat): (int, bytes) {
    if key in m then (|m[key].value|, m[key].value[..Min(|m[key].value|, bufLen)]) else (NOT_FOUND, [])
  }

  /** get and exists read the map and change nothing a caller can see, now or later. */
  lemma ReadOnMap(es: seq<Entry>, key: bytes, bufLen: nat, now: nat, t: nat)
    requires Unique(es) && now <= t
    ensures var o, m := GetSpec(es, now, IndexOf(es, key)), Live(es, now);
      Unique(o.entries) && Live(o.entries, t) == Live(es, t)
      && (o.rc, GetData(es, now, IndexOf(es, key), bufLen)) == ReadMap(m, key, bufLen)
      && ExistsSpec(es, now, IndexOf(es, key)) == Outcome(o.entries, if key in m then 1 else 0)
  {
    var hit := IndexOf(es, key);
    LiveAt(es, key, now);
    assert Live(es, t) - {} == Live(es, t);
    if hit.Some? && Expired(es[hit.value], now) {
      LazyDeletion(es, hit.value, now, t);
    } else if hit.Some? {
      TouchedMembers(es, hit.value);
      LiveMinus(Touched(es, hit.value), es, {}, t);
    }
  }

  lemma DeleteOnMap(es: seq<Entry>, key: bytes, t: nat)
    requires Unique(es)
    ensures var o := DeleteSpec(es, IndexOf(es, key));
      o.rc == OK && Unique(o.entries) && Live(o.entries, t) == Live(es, t) - {key}
  {
    var hit := IndexOf(es, key);
    if hit.Some? { WithoutMembers(es, hit.value); }
    LiveMinus(DeleteSpec(es, hit).entries, es, {key}, t);
  }

  /** The entry a successful incr writes, if the arithmetic allows one. */
  ghost function IncrEntry(es: seq<Entry>, now: nat, key: bytes, delta: int): Option<Entry>
    requires Unique(es)
  {
    var m := Live(es, now);
    if !Int32(delta) || key !in m || Denotes(m[key].value).None? then None
    else
      var next := Denotes(m[key].value).value + delta;
      if Int32(next) then Some(Entry(key, Canonical(next), m[key].expires)) else None
  }

  lemma IncrIsWrite(es: seq<Entry>, now: nat, key: bytes, delta: int, slab: Slab, tick: nat)
    requires Unique(es)
    ensures var hit, e := IndexOf(es, key), IncrEntry(es, now, key, delta);
      var o := IncrSpec(es, now, hit, key, delta, slab, tick);
      if e.None? then
        o == Outcome(es, ERROR)
        || (hit.Some? && Expired(es[hit.value], now) && o == Outcome(Without(es, hit.value), ERROR))
      else
        var w := SetSpec(es, now, hit, e.value, Present, slab, tick);
        e.value.key == key && key in Live(es, now) && Denotes(e.value.value).Some?
        && o == w.(rc := if w.rc == OK then Denotes(e.value.value).value else w.rc)
  {
    hide SetSpec, Canonical, Denotes, Without, Live, Unique, IndexOf;
    var hit := IndexOf(es, key);
    LiveAt(es, key, now);
    if IncrEntry(es, now, key, delta).Some? {
      RoundTrip(Denotes(es[hit.value].value).value + delta);
    }
  }

  /**
   * incr is a write of the canonical sum under the old expiry; it never reports NOT_FOUND of its own,
   * and when it cannot compute a sum nothing visible changes.
   */
  lemma IncrOnMap(es: seq<Entry>, now: nat, key: bytes, delta: int, slab: Slab, tick: nat, t: nat)
    requires Unique(es) && now <= t
    ensures var o, e := IncrSpec(es, now, IndexOf(es, key), key, delta, slab, tick), IncrEntry(es, now, key, delta);
      Unique(o.entries)
      && (e.None? ==> o.rc == ERROR && Live(o.entries, t) == Live(es, t))
      && (e.Some? ==>
        var w, gone := SetSpec(es, now, IndexOf(es, key), e.value, Present, slab, tick),
                       KeysOf(SetVictims(es, now, e.value, Present, slab, tick));
        o.entries == w.entries && key !in gone && w.rc in {OK, ERROR}
        && (w.rc == OK ==> Some(o.rc) == Denotes(e.value.value) && Live(o.entries, t) == Put(Live(es, t) - gone, e.value, t))
        && (w.rc == ERROR ==> o.rc == ERROR && Live(o.entries, t) == Live(es, t) - gone))
  {
    hide IncrSpec, IncrEntry, SetSpec, SetVictims, Put, Canonical, Denotes, Without, IndexOf, Unique;
    var hit, e := IndexOf(es, key), IncrEntry(es, now, key, delta);
    IncrIsWrite(es, now, key, delta, slab, tick);
    if e.Some? {
      WriteOnMap(es, now, e.value, Present, slab, tick, t);
    } else if hit.Some? && Expired(es[hit.value], now) {
      LazyDeletion(es, hit.value, now, t);
    }
  }

  /**
   * The return code does not separate success from failure: a call that stores returns the error code iff the value the
   * key had and the delta add up to -2; a call that does not store always returns it.
   */
  lemma IncrReturnAmbiguous(es: seq<Entry>, now: nat, key: bytes, delta: int, slab: Slab, tick: nat)
    requires Unique(es)
    ensures var o, e := IncrSpec(es, now, IndexOf(es, key), key, delta, slab, tick), IncrEntry(es, now, key, delta);
      var m, stored := Live(es, now), e.Some? && SetSpec(es, now, IndexOf(es, key), e.value, Present, slab, tick).rc == OK;
      && (!stored ==> o.rc == ERROR)
      && (stored ==> key in m && Denotes(m[key].value).Some?
                     && (o.rc == ERROR <==> Denotes(m[key].value).value + delta == ERROR))
  {
    hide IncrSpec, SetSpec, SetVictims, Put, Canonical, Denotes, IndexOf, Unique, Live;
    IncrOnMap(es, now, key, delta, slab, tick, now);
    var e := IncrEntry(es, now, key, delta);
    if e.Some? { RoundTrip(Denotes(Live(es, now)[key].value).value + delta); }
  }

  /** A key that holds "0", and a delta of -2: the call stores "-2", and returns what it returns for a key that is not there. */
  lemma IncrToMinusTwo()
    ensures var key, slab := [107], (k: nat) => true;
      var es := [Entry(key, [ZERO], 0)];
      var o := IncrSpec(es, 0, IndexOf(es, key), key, -2, slab, 0);
      && o == Outcome([Entry(key, [MINUS, ZERO + 2], 0)], ERROR)
      && IncrSpec([], 0, IndexOf([], key), key, -2, slab, 0) == Outcome([], ERROR)
  {
    var key, slab := [107], (k: nat) => true;
    var es := [Entry(key, [ZERO], 0)];
    assert Denotes([ZERO]) == Some(0) by {
      assert [ZERO][..0] == [] && Magnitude([ZERO]) == 0;
    }
    assert Canonical(-2) == [MINUS, ZERO + 2];
    assert Without(es, 0) == [];
    hide Denotes, Canonical;
    assert StoreSpec(es, Some(0), Entry(key, [MINUS, ZERO + 2], 0), slab, 0).rc == OK;
  }

  /** set_ex with a positive ttl is visible at once iff the 64-bit sum does not wrap, and then exactly until now + ttl. */
  lemma ExpiryVisible(key: bytes, value: bytes, now: nat, ttl: nat, t: nat)
    requires now < U64 && 0 < ttl < U64
    ensures var e := Entry(key, value, ExpiryOf(now, ttl));
      (!Expired(e, now) <==> now + ttl < U64)
      && (now + ttl < U64 ==> (!Expired(e, t) <==> t < now + ttl))
  {
  }

  /** A guest's ttl is a non-negative int32, so the sum cannot wrap before the last 2^31 milliseconds of a 64-bit clock. */
  lemma GuestExpiryVisible(key: bytes, value: bytes, now: nat, ttl: nat, t: nat)
    requires 0 < ttl <= 0x7FFF_FFFF && now < U64 - 0x8000_0000
    ensures !Expired(Entry(key, value, ExpiryOf(now, ttl)), t) <==> t < now + ttl
  {
    ExpiryVisible(key, value, now, ttl, t);
  }
}
