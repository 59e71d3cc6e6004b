/** The shared-memory zone: tree, queue and slab behind the public key-value operations. */
module Zones {
  import opened Basics
  import opened Order
  import opened Indexes
  import opened Queues
  import opened Decimal
  import opened Cache

  datatype Slot = Slot(value: bytes, expires: nat)

  class Zone {
    const hash: bytes -> nat
    const slab: Slab
    const index: Index<Slot>
    const queue: Queue<Slot>
    var tick: nat
    ghost var view: seq<Entry>
    ghost var entryOf: map<Node<Slot>, Entry>

    ghost function Repr(): set<object>
      reads this, index
    {
      {this, index, queue, queue.head} + index.nodes
    }

    function TagOf(key: bytes): Tag { Tag(hash(key), key) }

    /** Tree and queue hold the same nodes, and `view` is what the queue shows of them. */
    ghost predicate Valid()
      reads Repr(), queue.nodes
    {
      Pending({})
    }

    /** The same, while the nodes in `loose` are in the tree but not in the queue. */
    ghost predicate Pending(loose: set<Node<Slot>>)
      reads Repr(), queue.nodes
    {
      && index.Valid() && index.rule == LengthFirst
      && queue.Valid() && queue.head !in index.nodes
      && index.nodes == queue.nodes + loose && queue.nodes !! loose
      && Shows(queue.items, view, entryOf)
      && forall n :: n in index.nodes ==>
        n in entryOf && entryOf[n] == Entry(n.tag.key, n.data.value, n.data.expires) && n.tag == TagOf(n.tag.key)
    }

    constructor (hash: bytes -> nat, slab: Slab)
      ensures Valid() && view == [] && fresh(Repr()) && this.hash == hash && this.slab == slab
    {
      var head := new Node(Tag(0, []), Slot([], 0));
      head.prev, head.next := head, head;
      this.hash, this.slab, tick, view := hash, slab, 0, [];
      entryOf := map[];
      index := new Index(LengthFirst);
      queue := new Queue(head);
    }

    /** Where in the queue lookup finds this key, if it does. */
    ghost function Hit(key: bytes): (at: Option<nat>)
      requires Valid()
      reads Repr(), queue.nodes
      ensures InRange(view, at) && InRange(queue.items, at)
      ensures at.Some? ==> view[at.value].key == key && Some(queue.items[at.value]) == Find(index.shape, TagOf(key))
      ensures at.None? ==> Find(index.shape, TagOf(key)) == None
    {
      var found := Find(index.shape, TagOf(key));
      if found.None? then None else
        assert found.value in queue.items;
        var i :| 0 <= i < |queue.items| && queue.items[i] == found.value;
        Some(i)
    }

    // ---- Internal operations, under the mutex

    method Lookup(key: bytes) returns (entry: Node?<Slot>)
      requires Valid()
      ensures entry == null <==> Hit(key).None?
      ensures entry != null ==> entry == queue.items[Hit(key).value]
    {
      entry := index.Lookup(TagOf(key));
    }

    method Unqueue(entry: Node<Slot>, ghost i: nat)
      requires Valid() && i < |queue.items| && queue.items[i] == entry
      modifies this`view, queue`items, queue`nodes, queue.head`prev, queue.head`next, queue.nodes`prev, queue.nodes`next
      ensures Pending({entry}) && tick == old(tick) && index.nodes == old(index.nodes)
      ensures view == Without(old(view), i) && queue.items == Without(old(queue.items), i)
      ensures entryOf == old(entryOf) && unchanged(entry`data)
    {
      assert entry in queue.nodes;
      ShowsWithout(queue.items, view, entryOf, i);
      queue.Remove(entry, i);
      view := Without(view, i);
    }

    method Enqueue(entry: Node<Slot>)
      requires Pending({entry})
      modifies this`view, queue`items, queue`nodes, queue.head`prev, queue.head`next, queue.nodes`prev, queue.nodes`next
      modifies entry`prev, entry`next
      ensures Valid() && tick == old(tick) && index.nodes == old(index.nodes)
      ensures view == [old(entryOf[entry])] + old(view) && queue.items == [entry] + old(queue.items)
    {
      ShowsFront(queue.items, view, entryOf, entry);
      queue.InsertHead(entry);
      view := [entryOf[entry]] + view;
    }

    method Plant(entry: Node<Slot>)
      requires Valid() && entry !in index.nodes && entry != queue.head && entry.tag == TagOf(entry.tag.key)
      requires entry in entryOf && entryOf[entry] == Entry(entry.tag.key, entry.data.value, entry.data.expires)
      modifies index`root, index`shape, index`nodes, index.nodes`left, index.nodes`right, index.nodes`parent
      modifies entry`left, entry`right, entry`parent
      ensures Pending({entry}) && tick == old(tick) && index.nodes == old(index.nodes) + {entry}
      ensures view == old(view) && queue.items == old(queue.items) && entryOf == old(entryOf)
    {
      index.Insert(entry);
    }

    ghost method Register(entry: Node<Slot>)
      requires Valid() && entry !in index.nodes
      modifies this`entryOf
      ensures Valid() && entryOf == old(entryOf)[entry := Entry(entry.tag.key, entry.data.value, entry.data.expires)]
    {
      assert entry !in queue.items;
      ShowsMore(queue.items, view, entryOf, entry, Entry(entry.tag.key, entry.data.value, entry.data.expires));
      entryOf := entryOf[entry := Entry(entry.tag.key, entry.data.value, entry.data.expires)];
    }

    method Uproot(entry: Node<Slot>)
      requires Pending({entry})
      modifies index`root, index`shape, index`nodes, index.nodes`left, index.nodes`right, index.nodes`parent
      ensures Valid() && tick == old(tick) && index.nodes == old(index.nodes) - {entry}
      ensures view == old(view) && queue.items == old(queue.items)
    {
      index.Delete(entry);
    }

    method DeleteLocked(entry: Node<Slot>, ghost i: nat)
      requires Valid() && i < |queue.items| && queue.items[i] == entry
      modifies Repr()
      ensures Valid() && tick == old(tick) && index.nodes == old(index.nodes) - {entry}
      ensures view == Without(old(view), i) && queue.items == Without(old(queue.items), i)
    {
      Unqueue(entry, i);
      Uproot(entry);
    }

    method TouchLocked(entry: Node<Slot>, ghost i: nat)
      requires Valid() && i < |queue.items| && queue.items[i] == entry
      modifies Repr()
      ensures Valid() && tick == old(tick) && index.nodes == old(index.nodes)
      ensures view == Touched(old(view), i)
    {
      assert view[i] == entryOf[entry];
      Unqueue(entry, i);
      Enqueue(entry);
    }

    predicate IsExpired(entry: Node<Slot>, now: nat)
      reads entry`data
    {
      entry.data.expires != 0 && now >= entry.data.expires
    }

    method SlabAlloc() returns (ok: bool)
      requires Valid()
      modifies this`tick
      ensures Valid() && ok == slab(old(tick)) && tick == old(tick) + 1
    {
      ok := slab(tick);
      tick := tick + 1;
    }

    ghost predicate SkipsAt(skip: Node?<Slot>, at: Option<nat>)
      reads queue
    {
      if at.None? then skip == null else at.value < |queue.items| && queue.items[at.value] == skip
    }

    /** Scans from the tail of the queue, passing over the protected entry. */
    method FindVictim(skip: Node?<Slot>, ghost at: Option<nat>) returns (q: Node?<Slot>)
      requires Valid() && SkipsAt(skip, at)
      ensures InRange(queue.items, at) && |view| == |queue.items|
      ensures q == null <==> |Spare(view, at)| == 0
      ensures q != null ==> Victim(|view|, at) < |view| && q == queue.items[Victim(|view|, at)]
    {
      q := queue.Last();
      ghost var j := |queue.items| - 1;
      while q != queue.head
        invariant -1 <= j < |queue.items| && q == queue.Around(j)
        invariant j == |queue.items| - 1 || (j == |queue.items| - 2 && at == Some(j + 1))
        decreases j
      {
        if q == skip {
          q := queue.Prev(q, j);
          j := j - 1;
          continue;
        }
        return q;
      }
      return null;
    }

    method EvictLru(skip: Node?<Slot>, ghost at: Option<nat>) returns (ok: bool)
      requires Valid() && SkipsAt(skip, at)
      modifies Repr()
      ensures Valid() && tick == old(tick) && index.nodes <= old(index.nodes)
      ensures InRange(old(view), at) && (ok <==> |Spare(old(view), at)| > 0)
      ensures !ok ==> view == old(view) && queue.items == old(queue.items)
      ensures ok ==> view == Without(old(view), Victim(|old(view)|, at))
      ensures ok ==> queue.items == Without(old(queue.items), Victim(|old(view)|, at))
    {
      hide Pending, Without, Spare, Victim;
      var entry := FindVictim(skip, at);
      if entry == null {
        return false;
      }
      DeleteLocked(entry, Victim(|view|, at));
      return true;
    }

    method NewNode(key: bytes, value: bytes) returns (entry: Node<Slot>)
      requires Valid()
      ensures Valid() && fresh(entry) && entry.tag == TagOf(key) && entry.data == Slot(value, 0)
    {
      entry := new Node(TagOf(key), Slot(value, 0));
    }

    lemma NothingEvicted(skip: Node?<Slot>, at: Option<nat>)
      requires Valid() && SkipsAt(skip, at)
      ensures |queue.items| == |view| && InRange(view, at) && SkipAt(|view|, at, 0) == at
      ensures |Spare(queue.items, at)| == |Spare(view, at)|
      ensures Kept(view, at, 0) == view && Kept(queue.items, at, 0) == queue.items
    {
      KeptHere(view, at, 0);
      KeptHere(queue.items, at, 0);
    }

    method AllocNode(key: bytes, value: bytes, skip: Node?<Slot>, ghost at: Option<nat>) returns (entry: Node?<Slot>)
      requires Valid() && SkipsAt(skip, at)
      modifies Repr()
      ensures Valid() && InRange(old(view), at) && index.nodes <= old(index.nodes)
      ensures var spare := |Spare(old(view), at)|; var n := Evictions(slab, old(tick), spare, ALLOC_ATTEMPTS);
        n <= spare && view == Kept(old(view), at, n) && SkipsAt(skip, SkipAt(|old(view)|, at, n))
        && (entry != null <==> Allocates(slab, old(tick), spare, ALLOC_ATTEMPTS))
      ensures entry != null ==> fresh(entry) && entry.tag == TagOf(key) && entry.data == Slot(value, 0)
    {
      hide Pending, Kept, Without, Spare, SkipAt, Victim, Evictions, Allocates;
      ghost var es, items, start := view, queue.items, tick;
      NothingEvicted(skip, at);
      ghost var spare := |Spare(es, at)|;
      var attempts := 0;
      while attempts < ALLOC_ATTEMPTS
        invariant Valid() && index.nodes <= old(index.nodes) && attempts <= spare && attempts <= ALLOC_ATTEMPTS
        invariant |items| == |es| && view == Kept(es, at, attempts) && queue.items == Kept(items, at, attempts)
        invariant SkipsAt(skip, SkipAt(|es|, at, attempts))
        invariant Evictions(slab, start, spare, ALLOC_ATTEMPTS)
          == attempts + Evictions(slab, tick, spare - attempts, ALLOC_ATTEMPTS - attempts)
        invariant Allocates(slab, start, spare, ALLOC_ATTEMPTS)
          == Allocates(slab, tick, spare - attempts, ALLOC_ATTEMPTS - attempts)
      {
        KeptHere(es, at, attempts);
        EvictionStep(slab, tick, spare - attempts, ALLOC_ATTEMPTS - attempts);
        var ok := SlabAlloc();
        if ok {
          entry := NewNode(key, value);
          return;
        }
        var evicted := EvictLru(skip, SkipAt(|es|, at, attempts));
        if !evicted {
          return null;
        }
        KeptStep(es, at, attempts);
        KeptStep(items, at, attempts);
        KeptHere(items, at, attempts + 1);
        attempts := attempts + 1;
      }
      EvictionStep(slab, tick, spare - attempts, 0);
      return null;
    }

    /** The in-place write: same node, same place in the queue, new bytes and expiry. */
    method Overwrite(entry: Node<Slot>, value: bytes, expires: nat, ghost i: nat)
      requires Valid() && i < |queue.items| && queue.items[i] == entry
      modifies entry`data, this`view, this`entryOf
      ensures Valid() && queue.items == old(queue.items) && i < |old(view)|
      ensures view == old(view)[i := Entry(entry.tag.key, value, expires)]
    {
      ghost var e := Entry(entry.tag.key, value, expires);
      assert entry in queue.nodes;
      ShowsRewritten(queue.items, view, entryOf, i, e);
      entry.data := Slot(value, expires);
      view, entryOf := view[i := e], entryOf[entry := e];
    }

    /** Lookup for a write: an expired entry is removed on the way. */
    method LookupLive(key: bytes, now: nat) returns (existing: Node?<Slot>, ghost hit: Option<nat>)
      requires Valid()
      modifies Repr()
      ensures Valid() && tick == old(tick) && index.nodes <= old(index.nodes)
      ensures (view, hit) == Purge(old(view), now, old(Hit(key)))
      ensures SkipsAt(existing, hit) && (hit.Some? ==> existing in index.nodes && existing.tag.key == key && view[hit.value].value == existing.data.value)
    {
      hit := Hit(key);
      existing := Lookup(key);
      if existing != null && IsExpired(existing, now) {
        DeleteLocked(existing, hit.value);
        existing, hit := null, None;
      }
    }

    /** The write when the bytes do not fit in place: a new node, then the old one goes. */
    method Store(key: bytes, value: bytes, expires: nat, existing: Node?<Slot>, ghost hit: Option<nat>) returns (rc: int)
      requires Valid() && SkipsAt(existing, hit)
      modifies Repr()
      ensures Valid() && fresh(index.nodes - old(index.nodes)) && InRange(old(view), hit)
      ensures Outcome(view, rc) == StoreSpec(old(view), hit, Entry(key, value, expires), slab, old(tick))
    {
      hide Pending, Kept, Evictions, Allocates, Without, SkipAt;
      var entry := AllocNode(key, value, existing, hit);
      if entry == null {
        return ERROR;
      }
      SetExpiry(entry, expires);
      ghost var n := |old(view)| - |view|;
      KeptThenDropped(old(view), hit, n);
      if existing != null {
        DeleteLocked(existing, SkipAt(|old(view)|, hit, n).value);
      }
      InsertLocked(entry);
      return OK;
    }

    method SetExpiry(entry: Node<Slot>, expires: nat)
      requires Valid() && entry !in index.nodes
      modifies entry`data
      ensures Valid() && entry.data == old(entry.data).(expires := expires)
    {
      entry.data := entry.data.(expires := expires);
    }

    method SetLocked(key: bytes, value: bytes, expires: nat, need: Need, now: nat) returns (rc: int)
      requires Valid()
      modifies Repr()
      ensures Valid() && fresh(index.nodes - old(index.nodes))
      ensures Outcome(view, rc) == SetSpec(old(view), now, old(Hit(key)), Entry(key, value, expires), need, slab, old(tick))
    {
      hide Pending, StoreSpec, Without;
      ghost var hit;
      var existing;
      existing, hit := LookupLive(key, now);
      if need == Present && existing == null {
        return NOT_FOUND;
      }
      if need == Absent && existing != null {
        return NOT_FOUND;
      }
      if existing != null && |existing.data.value| == |value| {
        TouchedRewrite(view, hit.value, Entry(key, value, expires));
        Overwrite(existing, value, expires, hit.value);
        TouchLocked(existing, hit.value);
        return OK;
      }
      rc := Store(key, value, expires, existing, hit);
    }

    method InsertLocked(entry: Node<Slot>)
      requires Valid() && entry !in index.nodes && entry != queue.head && entry.tag == TagOf(entry.tag.key)
      modifies Repr(), entry
      ensures Valid() && index.nodes == old(index.nodes) + {entry}
      ensures view == [old(Entry(entry.tag.key, entry.data.value, entry.data.expires))] + old(view)
    {
      Register(entry);
      Plant(entry);
      Enqueue(entry);
    }

    // ---- Public operations

    method Get(key: bytes, bufLen: nat, now: nat) returns (rc: int, buf: bytes)
      requires Valid()
      modifies Repr()
      ensures Valid() && index.nodes <= old(index.nodes)
      ensures !ValidKey(key) ==> rc == ERROR && view == old(view)
      ensures ValidKey(key) ==> Outcome(view, rc) == GetSpec(old(view), now, old(Hit(key)))
      ensures buf == if ValidKey(key) then GetData(old(view), now, old(Hit(key)), bufLen) else []
    {
      buf := [];
      if !ValidKey(key) {
        return ERROR, buf;
      }
      ghost var hit := Hit(key);
      var entry := Lookup(key);
      if entry == null {
        return NOT_FOUND, buf;
      }
      if IsExpired(entry, now) {
        DeleteLocked(entry, hit.value);
        return NOT_FOUND, buf;
      }
      var valueLen := |entry.data.value|;
      buf := entry.data.value[..Min(valueLen, bufLen)];
      TouchLocked(entry, hit.value);
      return valueLen, buf;
    }

    method Exists(key: bytes, now: nat) returns (rc: int)
      requires Valid()
      modifies Repr()
      ensures Valid() && index.nodes <= old(index.nodes)
      ensures !ValidKey(key) ==> rc == ERROR && view == old(view)
      ensures ValidKey(key) ==> Outcome(view, rc) == ExistsSpec(old(view), now, old(Hit(key)))
    {
      if !ValidKey(key) {
        return ERROR;
      }
      ghost var hit := Hit(key);
      var entry := Lookup(key);
      if entry != null {
        if IsExpired(entry, now) {
          DeleteLocked(entry, hit.value);
          entry := null;
        } else {
          TouchLocked(entry, hit.value);
        }
      }
      return if entry != null then 1 else 0;
    }

    method Incr(key: bytes, delta: int, now: nat) returns (rc: int)
      requires Valid()
      modifies Repr()
      ensures Valid() && fresh(index.nodes - old(index.nodes))
      ensures !ValidKey(key) ==> rc == ERROR && view == old(view)
      ensures ValidKey(key) ==> Outcome(view, rc) == IncrSpec(old(view), now, old(Hit(key)), key, delta, slab, old(tick))
    {
      hide Pending, SetSpec, Without, Denotes, Canonical, Kept;
      if !ValidKey(key) || delta < INT32_MIN || delta > INT32_MAX {
        return ERROR;
      }
      ghost var hit := Hit(key);
      var entry := Lookup(key);
      if entry == null {
        return ERROR;
      }
      EntryShown(entry, hit.value);
      if IsExpired(entry, now) {
        DeleteLocked(entry, hit.value);
        return ERROR;
      }
      rc := IncrLive(entry, delta, now, hit);
    }

    /** The rest of incr, once a live entry is found. */
    method IncrLive(entry: Node<Slot>, delta: int, now: nat, ghost hit: Option<nat>) returns (rc: int)
      requires Valid() && hit == Hit(entry.tag.key) && Int32(delta)
      requires hit.Some? && view[hit.value] == Entry(entry.tag.key, entry.data.value, entry.data.expires)
      requires !Expired(view[hit.value], now)
      modifies Repr()
      ensures Valid() && fresh(index.nodes - old(index.nodes))
      ensures Outcome(view, rc) == IncrSpec(old(view), now, hit, entry.tag.key, delta, slab, old(tick))
    {
      hide Pending, SetSpec, Without, Denotes, Canonical, Kept;
      var ok, current := ParseI32(entry.data.value);
      if !ok {
        return ERROR;
      }
      var sum := current + delta;
      if sum < INT32_MIN || sum > INT32_MAX {
        return ERROR;
      }
      var text := Render(sum);
      rc := SetLocked(entry.tag.key, text, entry.data.expires, Present, now);
      if rc != OK {
        return rc;
      }
      return sum;
    }

    lemma EntryShown(entry: Node<Slot>, i: nat)
      requires Valid() && i < |queue.items| && queue.items[i] == entry
      ensures i < |view| && view[i] == Entry(entry.tag.key, entry.data.value, entry.data.expires)
    {
    }

    method Render(v: int) returns (text: bytes)
      requires Valid() && Int32(v)
      ensures Valid() && text == Canonical(v)
    {
      var buf := new byte[INT_T_LEN];
      var len := FormatI32(v, buf);
      text := buf[..len];
    }

    method Set(key: bytes, value: bytes, now: nat) returns (rc: int)
      requires Valid()
      modifies Repr()
      ensures Valid() && fresh(index.nodes - old(index.nodes))
      ensures !ValidWrite(key, value) ==> rc == ERROR && view == old(view)
      ensures ValidWrite(key, value) ==>
        Outcome(view, rc) == SetSpec(old(view), now, old(Hit(key)), Entry(key, value, 0), Anything, slab, old(tick))
    {
      if !ValidWrite(key, value) {
        return ERROR;
      }
      rc := SetLocked(key, value, 0, Anything, now);
    }

    method SetEx(key: bytes, value: bytes, ttl: nat, now: nat) returns (rc: int)
      requires Valid() && now < U64 && ttl < U64
      modifies Repr()
      ensures Valid() && fresh(index.nodes - old(index.nodes))
      ensures !ValidWrite(key, value) ==> rc == ERROR && view == old(view)
      ensures ValidWrite(key, value) ==>
        Outcome(view, rc) == SetSpec(old(view), now, old(Hit(key)), Entry(key, value, ExpiryOf(now, ttl)), Anything, slab, old(tick))
    {
      if !ValidWrite(key, value) {
        return ERROR;
      }
      var expires := 0;
      if ttl != 0 {
        expires := (now + ttl) % U64;
        if expires == 0 {
          expires := 1;
        }
      }
      rc := SetLocked(key, value, expires, Anything, now);
    }

    method Add(key: bytes, value: bytes, now: nat) returns (rc: int)
      requires Valid()
      modifies Repr()
      ensures Valid() && fresh(index.nodes - old(index.nodes))
      ensures !ValidWrite(key, value) ==> rc == ERROR && view == old(view)
      ensures ValidWrite(key, value) ==>
        Outcome(view, rc) == SetSpec(old(view), now, old(Hit(key)), Entry(key, value, 0), Absent, slab, old(tick))
    {
      if !ValidWrite(key, value) {
        return ERROR;
      }
      rc := SetLocked(key, value, 0, Absent, now);
    }

    method Replace(key: bytes, value: bytes, now: nat) returns (rc: int)
      requires Valid()
      modifies Repr()
      ensures Valid() && fresh(index.nodes - old(index.nodes))
      ensures !ValidWrite(key, value) ==> rc == ERROR && view == old(view)
      ensures ValidWrite(key, value) ==>
        Outcome(view, rc) == SetSpec(old(view), now, old(Hit(key)), Entry(key, value, 0), Present, slab, old(tick))
    {
      if !ValidWrite(key, value) {
        return ERROR;
      }
      rc := SetLocked(key, value, 0, Present, now);
    }

    method Delete(key: bytes) returns (rc: int)
      requires Valid()
      modifies Repr()
      ensures Valid() && index.nodes <= old(index.nodes)
      ensures !ValidKey(key) ==> rc == ERROR && view == old(view)
      ensures ValidKey(key) ==> Outcome(view, rc) == DeleteSpec(old(view), old(Hit(key)))
    {
      if !ValidKey(key) {
        return ERROR;
      }
      ghost var hit := Hit(key);
      var entry := Lookup(key);
      if entry != null {
        DeleteLocked(entry, hit.value);
      }
      return OK;
    }
  }
}
