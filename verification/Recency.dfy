/** The queue is sorted by last successful access, over whole runs. */
module Recency {
  import opened Basics
  import opened Order
  import opened Decimal
  import opened Cache
  import opened CacheLaws
  import opened CacheRuns

  /** 1 + the position of the last successful access to the key in the run, 0 if there was none. */
  ghost function LastAccess(events: seq<Event>, slab: Slab, key: bytes): nat {
    if events == [] then 0
    else
      var before, ev := events[..|events| - 1], events[|events| - 1];
      RunUnique([], before, slab);
      if ev.op.key == key && Accesses(Run([], before, slab), ev, slab) then |events| else LastAccess(before, slab, key)
  }

  /** Where the first entry with this key is. */
  ghost function Rank(es: seq<Entry>, key: bytes): int {
    var at := IndexOf(es, key);
    if at.None? then -1 else at.value
  }

  /** `es'` lists keys of `es`, in the same order. */
  ghost predicate KeepsOrder(es': seq<Entry>, es: seq<Entry>) {
    && (forall i :: 0 <= i < |es'| ==> Rank(es, es'[i].key) >= 0)
    && (forall i, j :: 0 <= i < j < |es'| ==> Rank(es, es'[i].key) < Rank(es, es'[j].key))
  }

  lemma RankAt(es: seq<Entry>, i: nat)
    requires Unique(es) && i < |es|
    ensures Rank(es, es[i].key) == i
  {
    assert es[i] in es;
  }

  lemma WithoutKeepsOrder(es: seq<Entry>, i: nat)
    requires Unique(es) && i < |es|
    ensures Unique(Without(es, i)) && KeepsOrder(Without(es, i), es)
  {
    WithoutMembers(es, i);
    var r := Without(es, i);
    forall k | 0 <= k < |r| ensures Rank(es, r[k].key) == if k < i then k else k + 1 {
      RankAt(es, if k < i then k else k + 1);
    }
  }

  lemma PrefixKeepsOrder(es: seq<Entry>, m: nat)
    requires Unique(es) && m <= |es|
    ensures Unique(es[..m]) && KeepsOrder(es[..m], es)
  {
    forall k | 0 <= k < m ensures Rank(es, es[k].key) == k { RankAt(es, k); }
  }

  lemma OrderTransitive(a: seq<Entry>, b: seq<Entry>, c: seq<Entry>)
    requires KeepsOrder(a, b) && KeepsOrder(b, c)
    ensures KeepsOrder(a, c)
  {
    forall i | 0 <= i < |a| ensures Rank(c, a[i].key) >= 0 {
      var p := Rank(b, a[i].key);
      assert b[p].key == a[i].key;
    }
    forall i, j | 0 <= i < j < |a| ensures Rank(c, a[i].key) < Rank(c, a[j].key) {
      var p, q := Rank(b, a[i].key), Rank(b, a[j].key);
      assert b[p].key == a[i].key && b[q].key == a[j].key;
    }
  }

  lemma SameOrder(es: seq<Entry>)
    requires Unique(es)
    ensures KeepsOrder(es, es)
  {
    PrefixKeepsOrder(es, |es|);
    assert es[..|es|] == es;
  }

  /** Evictions keep the order of what stays. */
  lemma {:induction false} KeptKeepsOrder(es: seq<Entry>, skip: Option<nat>, n: nat)
    requires Unique(es) && InRange(es, skip) && n <= |Spare(es, skip)|
    ensures Unique(Kept(es, skip, n)) && KeepsOrder(Kept(es, skip, n), es)
  {
    hide Kept, Without, KeepsOrder, Unique, Rank, SkipAt, Victim;
    if n == 0 {
      KeptHere(es, skip, 0);
      SameOrder(es);
    } else {
      KeptKeepsOrder(es, skip, n - 1);
      KeptStep(es, skip, n - 1);
      var k, at := Kept(es, skip, n - 1), SkipAt(|es|, skip, n - 1);
      WithoutKeepsOrder(k, Victim(|k|, at));
      OrderTransitive(Kept(es, skip, n), k, es);
    }
  }

  /** `es'` is `es` after an access to `key`: its entry in front, some others behind it in their old order. */
  ghost predicate Fronted(es': seq<Entry>, es: seq<Entry>, key: bytes) {
    es' != [] && es'[0].key == key && KeepsOrder(es'[1..], es) && (forall e :: e in es'[1..] ==> e.key != key)
  }

  lemma TouchFronts(es: seq<Entry>, i: nat, e: Entry)
    requires Unique(es) && i < |es| && e.key == es[i].key
    ensures Fronted([e] + Without(es, i), es, e.key)
  {
    WithoutKeepsOrder(es, i);
    WithoutMembers(es, i);
    assert ([e] + Without(es, i))[1..] == Without(es, i);
  }

  lemma FrontFronts(r: seq<Entry>, es: seq<Entry>, e: Entry)
    requires KeepsOrder(r, es) && forall x :: x in r ==> x.key != e.key
    ensures Fronted([e] + r, es, e.key)
  {
    assert ([e] + r)[1..] == r;
  }

  /** What is left of the entries a write may evict. */
  lemma SurvivorsKeepOrder(es: seq<Entry>, key: bytes, m: nat)
    requires Unique(es) && m <= |Spare(es, IndexOf(es, key))|
    ensures var r := Spare(es, IndexOf(es, key))[..m]; KeepsOrder(r, es) && forall x :: x in r ==> x.key != key
  {
    var prior := IndexOf(es, key);
    var spare := Spare(es, prior);
    if prior.Some? {
      WithoutKeepsOrder(es, prior.value);
      WithoutMembers(es, prior.value);
    } else {
      PrefixKeepsOrder(es, |es|);
      assert es[..|es|] == es;
    }
    hide Without, KeepsOrder, Unique, Rank, IndexOf;
    PrefixKeepsOrder(spare, m);
    OrderTransitive(spare[..m], spare, es);
    assert forall x :: x in spare[..m] ==> x in spare;
  }

  lemma StoreFronts(es: seq<Entry>, e: Entry, slab: Slab, tick: nat)
    requires Unique(es)
    ensures var o := StoreSpec(es, IndexOf(es, e.key), e, slab, tick);
      (o.rc == OK ==> Fronted(o.entries, es, e.key)) && (o.rc != OK ==> KeepsOrder(o.entries, es))
  {
    hide Kept, Without, KeepsOrder, Unique, Fronted, IndexOf, Spare;
    var prior := IndexOf(es, e.key);
    var spare := Spare(es, prior);
    EvictionBounds(slab, tick, |spare|, ALLOC_ATTEMPTS);
    var n := Evictions(slab, tick, |spare|, ALLOC_ATTEMPTS);
    KeptKeepsOrder(es, prior, n);
    SurvivorsKeepOrder(es, e.key, |spare| - n);
    FrontFronts(spare[..|spare| - n], es, e);
  }

  lemma SetFronts(es: seq<Entry>, now: nat, e: Entry, need: Need, slab: Slab, tick: nat)
    requires Unique(es)
    ensures var o := SetSpec(es, now, IndexOf(es, e.key), e, need, slab, tick);
      (o.rc == OK ==> Fronted(o.entries, es, e.key)) && (o.rc != OK ==> KeepsOrder(o.entries, es))
  {
    hide StoreSpec, Without, KeepsOrder, Fronted, Unique, IndexOf, Live;
    var hit := IndexOf(es, e.key);
    var (live, prior) := Purge(es, now, hit);
    PurgeUnseen(es, e.key, now, now);
    SameOrder(es);
    if hit.Some? { WithoutKeepsOrder(es, hit.value); }
    if prior.Some? { TouchFronts(live, prior.value, e); }
    StoreFronts(live, e, slab, tick);
    var o := SetSpec(es, now, hit, e, need, slab, tick);
    if o.rc == OK {
      FrontedOver(o.entries, live, es, e.key);
    } else if o.entries != live {
      OrderTransitive(o.entries, live, es);
    }
  }

  lemma FrontedOver(a: seq<Entry>, b: seq<Entry>, c: seq<Entry>, key: bytes)
    requires Fronted(a, b, key) && KeepsOrder(b, c)
    ensures Fronted(a, c, key)
  {
    OrderTransitive(a[1..], b, c);
  }

  /** One call either accesses its key, which goes to the front, or only drops entries. */
  lemma CallFronts(es: seq<Entry>, ev: Event, slab: Slab)
    requires Unique(es)
    ensures var es' := Call(es, ev, slab).entries;
      if Accesses(es, ev, slab) then Fronted(es', es, ev.op.key) else KeepsOrder(es', es)
  {
    hide SetSpec, SetVictims, Canonical, Denotes, Fronted, KeepsOrder, Unique, Without, Live;
    var key, hit := ev.op.key, IndexOf(es, ev.op.key);
    SameOrder(es);
    LiveAt(es, key, ev.now);
    if hit.Some? { WithoutKeepsOrder(es, hit.value); TouchFronts(es, hit.value, es[hit.value]); }
    var e := Written(es, ev);
    if ValidKey(key) && ev.op.Incr? { IncrIsWrite(es, ev.now, key, ev.op.delta, slab, ev.tick); }
    if e.Some? { SetFronts(es, ev.now, e.value, NeedOf(ev.op), slab, ev.tick); }
  }

  /** The queue after this run is strictly sorted by last access, newest first, and holds only accessed keys. */
  ghost predicate SortedByAccess(es: seq<Entry>, events: seq<Event>, slab: Slab) {
    && (forall i :: 0 <= i < |es| ==> 0 < LastAccess(events, slab, es[i].key) <= |events|)
    && (forall i, j :: 0 <= i < j < |es| ==> LastAccess(events, slab, es[i].key) > LastAccess(events, slab, es[j].key))
  }

  /** In every reachable state the queue is sorted by last successful access. */
  lemma {:induction false} QueueSortedByAccess(events: seq<Event>, slab: Slab)
    ensures Unique(Run([], events, slab)) && SortedByAccess(Run([], events, slab), events, slab)
  {
    RunUnique([], events, slab);
    if events != [] {
      hide Accesses, Call, Unique, IndexOf, SortedByAccess;
      var before, ev := events[..|events| - 1], events[|events| - 1];
      QueueSortedByAccess(before, slab);
      var es, es' := Run([], before, slab), Run([], events, slab);
      CallFronts(es, ev, slab);
      if Accesses(es, ev, slab) {
        TailSorted(es'[1..], es, before, slab);
        FrontSorted(es', events, slab);
      } else {
        TailSorted(es', es, before, slab);
        SameAccesses(es', events, slab);
      }
    } else {
      assert Run([], events, slab) == [];
    }
  }

  lemma TailSorted(tail: seq<Entry>, es: seq<Entry>, events: seq<Event>, slab: Slab)
    requires KeepsOrder(tail, es) && SortedByAccess(es, events, slab)
    ensures SortedByAccess(tail, events, slab)
  {
    hide LastAccess;
    forall k | 0 <= k < |tail| ensures es[Rank(es, tail[k].key)].key == tail[k].key {}
  }

  /** An access puts its key in front with the newest stamp. */
  lemma FrontSorted(es': seq<Entry>, events: seq<Event>, slab: Slab)
    requires events != [] && es' != []
    requires var before, ev := events[..|events| - 1], events[|events| - 1];
      SortedByAccess(es'[1..], before, slab) && es'[0].key == ev.op.key
      && (forall e :: e in es'[1..] ==> e.key != ev.op.key)
      && Unique(Run([], before, slab)) && Accesses(Run([], before, slab), ev, slab)
    ensures SortedByAccess(es', events, slab)
  {
    hide Accesses, Run;
    var before := events[..|events| - 1];
    forall k | 1 <= k < |es'|
      ensures LastAccess(events, slab, es'[k].key) == LastAccess(before, slab, es'[k].key)
    {
      assert es'[k] in es'[1..];
    }
    assert LastAccess(events, slab, es'[0].key) == |events|;
    hide LastAccess;
    assert forall k :: 1 <= k < |es'| ==> es'[k] == es'[1..][k - 1];
  }

  lemma SameAccesses(es': seq<Entry>, events: seq<Event>, slab: Slab)
    requires events != []
    requires var before, ev := events[..|events| - 1], events[|events| - 1];
      SortedByAccess(es', before, slab)
      && Unique(Run([], before, slab)) && !Accesses(Run([], before, slab), ev, slab)
    ensures SortedByAccess(es', events, slab)
  {
    hide Accesses, Run;
  }
}
