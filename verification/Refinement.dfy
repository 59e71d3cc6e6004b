/** The linked store does what the list says, and so what the map says. */
module Refinement {
  import opened Basics
  import opened Order
  import opened Shapes
  import opened Indexes
  import opened Cache
  import opened CacheLaws
  import opened CacheRuns
  import opened Zones
  import opened Crc

  ghost predicate KeysAgree(hash: bytes -> nat, keys: set<bytes>) {
    RulesAgree(set k | k in keys :: Tag(hash(k), k))
  }

  /** A store that only ever held these keys, on which insertion and lookup agree. */
  ghost predicate Settled(z: Zone, keys: set<bytes>)
    reads z, z.index, z.queue, z.queue.head, z.index.nodes, z.queue.nodes
  {
    z.Valid() && Unique(z.view) && KeysOf(z.view) <= keys && KeysAgree(z.hash, keys)
  }

  /** What the zone shows of its tree. */
  lemma TagsShown(z: Zone)
    requires z.Valid()
    ensures Ordered(LengthFirst, Tags(z.index.shape))
    ensures forall t :: t in Members(Tags(z.index.shape)) <==> exists e :: e in z.view && t == z.TagOf(e.key)
  {
    TagsOrdered(LengthFirst, z.index.shape);
    hide Ordered, SearchTree, Before, InOrder, CompareTags;
    forall t | t in Members(Tags(z.index.shape)) ensures exists e :: e in z.view && t == z.TagOf(e.key) {
      var n :| n in Members(z.index.shape) && n.tag == t;
      var i :| 0 <= i < |z.queue.items| && z.queue.items[i] == n;
      assert z.view[i] in z.view;
    }
    forall e | e in z.view ensures z.TagOf(e.key) in Members(Tags(z.index.shape)) {
      var i :| 0 <= i < |z.view| && z.view[i] == e;
      assert z.queue.items[i] in z.index.nodes && z.queue.items[i].tag == z.TagOf(e.key);
    }
  }

  /** The tree's tags, on which the two orders agree. */
  lemma TagsAgree(z: Zone, keys: set<bytes>)
    requires Settled(z, keys)
    ensures Ordered(LengthFirst, Tags(z.index.shape)) && RulesAgree(Members(Tags(z.index.shape)))
    ensures forall e :: e in z.view ==> z.TagOf(e.key) in Members(Tags(z.index.shape))
  {
    TagsShown(z);
    hide Ordered, Zone.Valid;
    forall t | t in Members(Tags(z.index.shape)) ensures t in (set k | k in keys :: Tag(z.hash(k), k)) {
      var e :| e in z.view && t == z.TagOf(e.key);
    }
  }

  /** Lookup finds exactly the key's entry. */
  lemma HitIsIndex(z: Zone, keys: set<bytes>, key: bytes)
    requires Settled(z, keys) && key in keys
    ensures z.Hit(key) == IndexOf(z.view, key)
  {
    var at := IndexOf(z.view, key);
    if at.Some? {
      TagsAgree(z, keys);
      assert z.view[at.value] in z.view;
      hide RulesAgree, Ordered, SearchTree, Before, CompareTags;
      MemberIsFound(LengthFirst, Tags(z.index.shape), z.TagOf(key));
    }
  }

  /** The two rules put these keys, which share a hash, in opposite orders. */
  predicate Disagree(z: Zone, lo: bytes, hi: bytes) {
    Before(LengthFirst, z.TagOf(lo), z.TagOf(hi)) && !Before(BytesFirst, z.TagOf(lo), z.TagOf(hi))
  }

  lemma OneIsMissed(z: Zone, lo: bytes, hi: bytes)
    requires z.Valid() && Disagree(z, lo, hi)
    requires |z.view| == 2 && {z.view[0].key, z.view[1].key} == {lo, hi}
    ensures z.Hit(lo).None? != z.Hit(hi).None?
  {
    TagsShown(z);
    var s := Tags(z.index.shape);
    assert z.view[0] in z.view && z.view[1] in z.view;
    forall t ensures t in Members(s) <==> t in {z.TagOf(lo), z.TagOf(hi)} {}
    OneIsLost(s, z.TagOf(lo), z.TagOf(hi));
  }

  /**
   * Two writes to a fresh zone, both successful and nothing evicted, of keys on which the rules disagree: whatever
   * rotations the insertions have made, both entries are stored, and exactly one of them can be found.
   */
  method LoseAKey(z: Zone, lo: bytes, hi: bytes, value: bytes, now: nat) returns (first: int, second: int)
    requires z.Valid() && z.view == [] && Disagree(z, lo, hi) && ValidWrite(lo, value) && ValidWrite(hi, value)
    requires forall k :: z.slab(k)
    modifies z.Repr()
    ensures z.Valid() && first == second == OK
    ensures z.view == [Entry(hi, value, 0), Entry(lo, value, 0)]
    ensures z.Hit(lo).None? != z.Hit(hi).None?
  {
    hide Zone.Valid;
    TagsTotal(LengthFirst, z.TagOf(lo), z.TagOf(hi));
    FirstWrite(z.view, Entry(lo, value, 0), z.slab, z.tick, now);
    first := z.Set(lo, value, now);
    FirstWrite(z.view, Entry(hi, value, 0), z.slab, z.tick, now);
    second := z.Set(hi, value, now);
    OneIsMissed(z, lo, hi);
  }

  /** Two such keys under the store's own hash: "qHB+" and "X4gyM9". */
  method LoseACrcKey(z: Zone, value: bytes, now: nat) returns (first: int, second: int)
    requires z.Valid() && z.view == [] && |value| <= MAX_VALUE_LEN
    requires forall k :: z.hash(k) == Crc32(k)
    requires forall k :: z.slab(k)
    modifies z.Repr()
    ensures z.Valid() && first == second == OK
    ensures z.view == [Entry(LONG, value, 0), Entry(SHORT, value, 0)]
    ensures z.Hit(SHORT).None? != z.Hit(LONG).None?
  {
    LostKeyExample();
    hide Crc32, Zone.Valid, Before;
    first, second := LoseAKey(z, SHORT, LONG, value, now);
  }

  lemma FirstWrite(es: seq<Entry>, e: Entry, slab: Slab, tick: nat, now: nat)
    requires slab(tick)
    ensures SetSpec(es, now, None, e, Anything, slab, tick) == Outcome([e] + es, OK)
  {
    assert es[..|es|] == es;
  }

  /** The calls the guest interface offers: only set_ex takes a ttl. */
  predicate Callable(op: Op) {
    op.Write? ==> op.ttl < U64 && (op.need != Anything ==> op.ttl == 0)
  }

  /** One guest call through the public operations: exactly the call on the list. */
  method Serve(z: Zone, op: Op, now: nat, ghost keys: set<bytes>) returns (rc: int, data: bytes)
    requires Settled(z, keys) && op.key in keys && now < U64
    requires Callable(op)
    modifies z.Repr()
    ensures Settled(z, keys) && fresh(z.index.nodes - old(z.index.nodes))
    ensures Reply(z.view, rc, data) == Call(old(z.view), Event(op, now, old(z.tick)), z.slab)
    ensures Reads(old(z.view), Event(op, now, old(z.tick)), rc, data)
  {
    hide GetSpec, GetData, Reads, ExistsSpec, DeleteSpec, IncrSpec, SetSpec, Zone.Valid, IndexOf, Unique, KeysOf, KeysAgree;
    ghost var es, ev := z.view, Event(op, now, z.tick);
    HitIsIndex(z, keys, op.key);
    CallOnMap(es, ev, z.slab, now);
    CallKeys(es, ev, z.slab);
    CallReads(es, ev, z.slab);
    data := [];
    match op
    case Get(key, bufLen) => rc, data := z.Get(key, bufLen, now);
    case Exists(key) => rc := z.Exists(key, now);
    case Delete(key) => rc := z.Delete(key);
    case Incr(key, delta) => rc := z.Incr(key, delta, now);
    case Write(key, value, ttl, Anything) =>
      if ttl == 0 {
        rc := z.Set(key, value, now);
      } else {
        rc := z.SetEx(key, value, ttl, now);
      }
    case Write(key, value, _, Absent) => rc := z.Add(key, value, now);
    case Write(key, value, _, Present) => rc := z.Replace(key, value, now);
  }

  lemma RunEmpty(slab: Slab)
    ensures Run([], [], slab) == []
  {
  }

  lemma RunSnoc(events: seq<Event>, ev: Event, slab: Slab)
    requires Unique(Run([], events, slab))
    ensures Run([], events + [ev], slab) == Call(Run([], events, slab), ev, slab).entries
  {
    assert (events + [ev])[..|events|] == events;
  }

  /** The i-th call of a run got this answer: the one of the list, and for a read the one of the map at that moment. */
  ghost predicate Answered(events: seq<Event>, i: nat, slab: Slab, answer: (int, bytes))
    requires i < |events|
  {
    var es := Run([], events[..i], slab);
    var r := Call(es, events[i], slab);
    answer == (r.rc, r.data) && Unique(es) && Reads(es, events[i], answer.0, answer.1)
  }

  /** A whole session of one worker on a fresh zone is a run of the list from the empty one. */
  method Session(z: Zone, ops: seq<(Op, nat)>, ghost keys: set<bytes>)
    returns (answers: seq<(int, bytes)>, ghost events: seq<Event>)
    requires Settled(z, keys) && z.view == []
    requires forall i :: 0 <= i < |ops| ==> ops[i].0.key in keys && ops[i].1 < U64 && Callable(ops[i].0)
    modifies z.Repr()
    ensures Settled(z, keys) && |answers| == |events| == |ops|
    ensures forall i :: 0 <= i < |ops| ==> events[i].op == ops[i].0 && events[i].now == ops[i].1
    ensures z.view == Run([], events, z.slab)
    ensures forall i :: 0 <= i < |ops| ==> Answered(events, i, z.slab, answers[i])
  {
    hide Call, Run, Reads, Unique, KeysOf, KeysAgree, Zone.Valid;
    answers, events := [], [];
    RunEmpty(z.slab);
    for i := 0 to |ops|
      invariant Settled(z, keys) && fresh(z.index.nodes - old(z.index.nodes)) && |answers| == |events| == i
      invariant forall j :: 0 <= j < i ==> events[j].op == ops[j].0 && events[j].now == ops[j].1
      invariant z.view == Run([], events, z.slab)
      invariant forall j :: 0 <= j < i ==> Answered(events, j, z.slab, answers[j])
    {
      ghost var ev := Event(ops[i].0, ops[i].1, z.tick);
      var rc, data := Serve(z, ops[i].0, ops[i].1, keys);
      ghost var longer := events + [ev];
      RunSnoc(events, ev, z.slab);
      assert forall j :: 0 <= j < i ==> longer[..j] == events[..j];
      assert longer[..i] == events;
      answers, events := answers + [(rc, data)], longer;
    }
  }
}
