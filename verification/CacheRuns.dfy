/** Whole runs of the store: recency order, expiry, and chains of increments. */
module CacheRuns {
  import opened Basics
  import opened Order
  import opened Decimal
  import opened Cache
  import opened CacheLaws

  datatype Op =
    | Get(key: bytes, bufLen: nat)
    | Exists(key: bytes)
    | Delete(key: bytes)
    | Incr(key: bytes, delta: int)
    | Write(key: bytes, value: bytes, ttl: nat, need: Need)

  /** One call: what, at which clock reading, and how many slab calls came before it. */
  datatype Event = Event(op: Op, now: nat, tick: nat)

  /** What a call leaves and gives back: the list, the return code, and the bytes a get has copied. */
  datatype Reply = Reply(entries: seq<Entry>, rc: int, data: bytes)

  function Call(es: seq<Entry>, ev: Event, slab: Slab): Reply {
    var o := Effect(es, ev, slab);
    Reply(o.entries, o.rc,
          if ev.op.Get? && ValidKey(ev.op.key) then GetData(es, ev.now, IndexOf(es, ev.op.key), ev.op.bufLen) else [])
  }

  function Effect(es: seq<Entry>, ev: Event, slab: Slab): Outcome {
    var hit := IndexOf(es, ev.op.key);
    if !ValidKey(ev.op.key) then Outcome(es, ERROR)
    else match ev.op
      case Get(_, _) => GetSpec(es, ev.now, hit)
      case Exists(_) => ExistsSpec(es, ev.now, hit)
      case Delete(_) => DeleteSpec(es, hit)
      case Incr(key, delta) => IncrSpec(es, ev.now, hit, key, delta, slab, ev.tick)
      case Write(key, value, ttl, need) =>
        if ValidWrite(key, value) then
          SetSpec(es, ev.now, hit, Entry(key, value, ExpiryOf(ev.now, ttl)), need, slab, ev.tick)
        else Outcome(es, ERROR)
  }

  /** The entry a call tries to write, if it gets that far. */
  ghost function Written(es: seq<Entry>, ev: Event): Option<Entry>
    requires Unique(es)
  {
    if !ValidKey(ev.op.key) then None
    else match ev.op
      case Incr(key, delta) => IncrEntry(es, ev.now, key, delta)
      case Write(key, value, ttl, need) =>
        if ValidWrite(key, value) then Some(Entry(key, value, ExpiryOf(ev.now, ttl))) else None
      case _ => None
  }

  function NeedOf(op: Op): Need { match op case Incr(_, _) => Present case Write(_, _, _, need) => need case _ => Anything }

  ghost predicate Stores(es: seq<Entry>, ev: Event, slab: Slab)
    requires Unique(es)
  {
    var e := Written(es, ev);
    e.Some? && SetSpec(es, ev.now, IndexOf(es, ev.op.key), e.value, NeedOf(ev.op), slab, ev.tick).rc == OK
  }

  /** A successful access: a read that found its key, or a write that stored. */
  ghost predicate Accesses(es: seq<Entry>, ev: Event, slab: Slab)
    requires Unique(es)
  {
    Stores(es, ev, slab) || (ValidKey(ev.op.key) && (ev.op.Get? || ev.op.Exists?) && ev.op.key in Live(es, ev.now))
  }

  /** The keys a call evicts to make room. */
  ghost function Evicted(es: seq<Entry>, ev: Event, slab: Slab): set<bytes>
    requires Unique(es)
  {
    var e := Written(es, ev);
    if e.None? then {} else KeysOf(SetVictims(es, ev.now, e.value, NeedOf(ev.op), slab, ev.tick))
  }

  /** One call on the visible map, at any time from then on. */
  lemma CallOnMap(es: seq<Entry>, ev: Event, slab: Slab, t: nat)
    requires Unique(es) && ev.now <= t
    ensures var es', gone, m := Call(es, ev, slab).entries, Evicted(es, ev, slab), Live(es, t);
      Unique(es') && ev.op.key !in gone
      && Live(es', t) ==
        if Stores(es, ev, slab) then Put(m - gone, Written(es, ev).value, t)
        else if ev.op.Delete? && ValidKey(ev.op.key) then m - {ev.op.key}
        else m - gone
  {
    hide GetSpec, ExistsSpec, DeleteSpec, IncrSpec, SetSpec, Put, SetVictims, IncrEntry, Unique, IndexOf, Live, KeysOf;
    assert Live(es, t) - {} == Live(es, t);
    if ValidKey(ev.op.key) {
      match ev.op
      case Get(key, bufLen) => ReadOnMap(es, key, bufLen, ev.now, t);
      case Exists(key) => ReadOnMap(es, key, 0, ev.now, t);
      case Delete(key) => DeleteOnMap(es, key, t);
      case Incr(key, delta) => IncrOnMap(es, ev.now, key, delta, slab, ev.tick, t);
      case Write(key, value, ttl, need) =>
        if ValidWrite(key, value) {
          WriteOnMap(es, ev.now, Entry(key, value, ExpiryOf(ev.now, ttl)), need, slab, ev.tick, t);
        }
    }
  }

  /** The answer of a read is what the map holds: the length and the bytes of the value, or that there is none. */
  ghost predicate Reads(es: seq<Entry>, ev: Event, rc: int, data: bytes)
    requires Unique(es)
  {
    var m := Live(es, ev.now);
    ValidKey(ev.op.key) ==>
      && (ev.op.Get? ==> (rc, data) == ReadMap(m, ev.op.key, ev.op.bufLen))
      && (ev.op.Exists? ==> rc == if ev.op.key in m then 1 else 0)
  }

  lemma CallReads(es: seq<Entry>, ev: Event, slab: Slab)
    requires Unique(es)
    ensures var r := Call(es, ev, slab); Reads(es, ev, r.rc, r.data) && (!ev.op.Get? ==> r.data == [])
  {
    hide GetSpec, GetData, ExistsSpec, DeleteSpec, IncrSpec, SetSpec, Live, Unique, IndexOf, ReadMap;
    ReadOnMap(es, ev.op.key, if ev.op.Get? then ev.op.bufLen else 0, ev.now, ev.now);
  }

  /** Whether incr can compute a sum for what the map holds. */
  ghost predicate CanAdd(m: map<bytes, Item>, key: bytes, delta: int) {
    && -0x8000_0000 <= delta <= 0x7FFF_FFFF && key in m && Denotes(m[key].value).Some?
    && -0x8000_0000 <= Denotes(m[key].value).value + delta <= 0x7FFF_FFFF
  }

  /** The return code of every call, from its arguments, the map and the slab. */
  lemma CallCode(es: seq<Entry>, ev: Event, slab: Slab)
    requires Unique(es)
    ensures var r, m, key := Call(es, ev, slab), Live(es, ev.now), ev.op.key;
      var unserved := NeverServes(slab, ev.tick, Others(es, key));
      if |key| == 0 || |key| > 256 then r == Reply(es, ERROR, [])
      else match ev.op
        case Get(_, _) => r.rc == if key in m then |m[key].value| else NOT_FOUND
        case Exists(_) => r.rc == if key in m then 1 else 0
        case Delete(_) => r.rc == OK
        case Incr(_, delta) =>
          if !CanAdd(m, key, delta) then r.rc == ERROR
          else
            var sum := Denotes(m[key].value).value + delta;
            r.rc == if |Canonical(sum)| == |m[key].value| || !unserved then sum else ERROR
        case Write(_, value, _, need) =>
          if |value| > 65535 then r == Reply(es, ERROR, [])
          else
            r.rc == if (need == Present && key !in m) || (need == Absent && key in m) then NOT_FOUND
                    else if key in m && |m[key].value| == |value| then OK
                    else if unserved then ERROR else OK
  {
    hide GetSpec, GetData, ExistsSpec, IncrSpec, SetSpec, Live, Unique, IndexOf, Denotes, Canonical, NeverServes, Others;
    var key, now := ev.op.key, ev.now;
    CallReads(es, ev, slab);
    match ev.op
    case Incr(_, delta) =>
      IncrIsWrite(es, now, key, delta, slab, ev.tick);
      var e := IncrEntry(es, now, key, delta);
      if e.Some? {
        RoundTrip(Denotes(Live(es, now)[key].value).value + delta);
        WriteCode(es, now, e.value, Present, slab, ev.tick);
      }
    case Write(_, value, ttl, need) => WriteCode(es, now, Entry(key, value, ExpiryOf(now, ttl)), need, slab, ev.tick);
    case _ =>
  }

  /** An incr of a value that is no number fails, and nothing a caller can see changes, then or later. */
  lemma IncrRefuses(es: seq<Entry>, ev: Event, slab: Slab, t: nat)
    requires Unique(es) && ev.now <= t && ev.op.Incr? && ev.op.key in Live(es, ev.now)
    requires var s := Live(es, ev.now)[ev.op.key].value;
      s == [] || s == [45] || exists i :: 0 <= i < |s| && !(48 <= s[i] <= 57) && !(i == 0 && s[0] == 45)
    ensures var r := Call(es, ev, slab); Unique(r.entries) && r.rc == ERROR && Live(r.entries, t) == Live(es, t)
  {
    hide Live, Unique, IncrSpec, Call, Denotes;
    Refused(Live(es, ev.now)[ev.op.key].value);
    CallCode(es, ev, slab);
    CallOnMap(es, ev, slab, t);
    assert Live(es, t) - {} == Live(es, t);
  }

  /** No call brings in a key of its own making. */
  lemma CallKeys(es: seq<Entry>, ev: Event, slab: Slab)
    requires Unique(es)
    ensures KeysOf(Call(es, ev, slab).entries) <= KeysOf(es) + {ev.op.key}
  {
    hide Canonical, Denotes, Live, SetVictims;
    var hit := IndexOf(es, ev.op.key);
    if hit.Some? { WithoutMembers(es, hit.value); TouchedMembers(es, hit.value); }
    if ValidKey(ev.op.key) && ev.op.Incr? { IncrIsWrite(es, ev.now, ev.op.key, ev.op.delta, slab, ev.tick); }
    var e := Written(es, ev);
    if e.Some? { SetKeys(es, ev.now, e.value, NeedOf(ev.op), slab, ev.tick); }
  }

  lemma SetKeys(es: seq<Entry>, now: nat, e: Entry, need: Need, slab: Slab, tick: nat)
    requires Unique(es)
    ensures KeysOf(SetSpec(es, now, IndexOf(es, e.key), e, need, slab, tick).entries) <= KeysOf(es) + {e.key}
  {
    hide StoreSpec, Without, Unique, IndexOf, Live;
    var hit := IndexOf(es, e.key);
    var (live, prior) := Purge(es, now, hit);
    PurgeUnseen(es, e.key, now, now);
    if hit.Some? { WithoutMembers(es, hit.value); }
    StoreKeys(live, e, slab, tick);
  }

  lemma StoreKeys(es: seq<Entry>, e: Entry, slab: Slab, tick: nat)
    requires Unique(es)
    ensures KeysOf(StoreSpec(es, IndexOf(es, e.key), e, slab, tick).entries) <= KeysOf(es) + {e.key}
  {
    hide Kept, Without, Spare, Victims;
    var prior := IndexOf(es, e.key);
    var spare := Spare(es, prior);
    EvictionBounds(slab, tick, |spare|, ALLOC_ATTEMPTS);
    var n := Evictions(slab, tick, |spare|, ALLOC_ATTEMPTS);
    KeptMembers(es, prior, n);
    SurvivorMembers(es, prior, n);
    SpareMembers(es, prior);
  }

  lemma SpareMembers(es: seq<Entry>, prior: Option<nat>)
    requires InRange(es, prior)
    ensures forall x :: x in Spare(es, prior) ==> x in es
  {
  }

  function Run(es: seq<Entry>, events: seq<Event>, slab: Slab): seq<Entry> {
    if events == [] then es
    else Call(Run(es, events[..|events| - 1], slab), events[|events| - 1], slab).entries
  }

  lemma {:induction false} RunUnique(es: seq<Entry>, events: seq<Event>, slab: Slab)
    requires Unique(es)
    ensures Unique(Run(es, events, slab))
  {
    if events != [] {
      var before, ev := events[..|events| - 1], events[|events| - 1];
      RunUnique(es, before, slab);
      CallOnMap(Run(es, before, slab), ev, slab, ev.now);
    }
  }

  // ---- What nobody disturbs stays

  /** This call neither writes, deletes nor evicts the key. */
  ghost predicate Spares(es: seq<Entry>, ev: Event, slab: Slab, key: bytes)
    requires Unique(es)
  {
    key !in Evicted(es, ev, slab) && (ev.op.key == key ==> !Stores(es, ev, slab) && !ev.op.Delete?)
  }

  ghost predicate AllSpare(es: seq<Entry>, events: seq<Event>, slab: Slab, key: bytes, t: nat)
    requires Unique(es)
  {
    events == [] ||
    var before, ev := events[..|events| - 1], events[|events| - 1];
    AllSpare(es, before, slab, key, t) && ev.now <= t
    && (RunUnique(es, before, slab); Spares(Run(es, before, slab), ev, slab, key))
  }

  lemma SparedKey(es: seq<Entry>, ev: Event, slab: Slab, key: bytes, t: nat)
    requires Unique(es) && Spares(es, ev, slab, key) && ev.now <= t
    ensures Unique(Call(es, ev, slab).entries)
    ensures var m, m' := Live(es, t), Live(Call(es, ev, slab).entries, t);
      (key in m' <==> key in m) && (key in m ==> m'[key] == m[key])
  {
    hide Call, Live, Evicted;
    CallOnMap(es, ev, slab, t);
  }

  /** Whatever else happens up to time `t`, an undisturbed key reads the same at `t` as it would have without it. */
  lemma {:induction false} UndisturbedKey(es: seq<Entry>, events: seq<Event>, slab: Slab, key: bytes, t: nat)
    requires Unique(es) && AllSpare(es, events, slab, key, t)
    ensures Unique(Run(es, events, slab))
    ensures var m, m' := Live(es, t), Live(Run(es, events, slab), t);
      (key in m' <==> key in m) && (key in m ==> m'[key] == m[key])
  {
    if events != [] {
      var before, ev := events[..|events| - 1], events[|events| - 1];
      hide Call, Live, Evicted, Stores, Spares;
      UndisturbedKey(es, before, slab, key, t);
      SparedKey(Run(es, before, slab), ev, slab, key, t);
    }
  }

  /** A value stored with a positive ttl is visible exactly until its expiry, as long as nobody disturbs it. */
  lemma WrittenUntilExpiry(es: seq<Entry>, ev: Event, events: seq<Event>, slab: Slab, t: nat)
    requires Unique(es) && ev.op.Write? && 0 < ev.op.ttl && ev.now + ev.op.ttl < U64 && ev.now <= t
    requires Stores(es, ev, slab)
    requires Unique(Call(es, ev, slab).entries) && AllSpare(Call(es, ev, slab).entries, events, slab, ev.op.key, t)
    ensures var es' := Run(Call(es, ev, slab).entries, events, slab);
      Unique(es')
      && (ev.op.key in Live(es', t) <==> t < ev.now + ev.op.ttl)
      && (t < ev.now + ev.op.ttl ==> Live(es', t)[ev.op.key].value == ev.op.value)
  {
    UndisturbedKey(Call(es, ev, slab).entries, events, slab, ev.op.key, t);
    CallOnMap(es, ev, slab, t);
    ExpiryVisible(ev.op.key, ev.op.value, ev.now, ev.op.ttl, t);
  }

  /**
   * What was stored is what a later get reads, for as long as it has not expired and nobody has disturbed it: all its
   * length, and as many of its bytes as the buffer takes. After the expiry the get finds nothing.
   */
  lemma ReadsWhatWasWritten(es: seq<Entry>, ev: Event, events: seq<Event>, slab: Slab, get: Event)
    requires Unique(es) && ev.op.Write? && Stores(es, ev, slab) && ev.now + ev.op.ttl < U64
    requires Unique(Call(es, ev, slab).entries) && AllSpare(Call(es, ev, slab).entries, events, slab, ev.op.key, get.now)
    requires get.op.Get? && get.op.key == ev.op.key && ev.now <= get.now
    ensures var r := Call(Run(Call(es, ev, slab).entries, events, slab), get, slab);
      (r.rc, r.data) ==
        if ev.op.ttl == 0 || get.now < ev.now + ev.op.ttl then
          (|ev.op.value|, ev.op.value[..Min(|ev.op.value|, get.op.bufLen)])
        else (NOT_FOUND, [])
  {
    var es1, t := Call(es, ev, slab).entries, get.now;
    UndisturbedKey(es1, events, slab, ev.op.key, t);
    CallOnMap(es, ev, slab, t);
    CallReads(Run(es1, events, slab), get, slab);
    if 0 < ev.op.ttl { ExpiryVisible(ev.op.key, ev.op.value, ev.now, ev.op.ttl, t); }
    hide Call, Run, Live, Unique, AllSpare, SetSpec;
  }

  // ---- Chains of increments

  /** The sum of the deltas that the incr calls of this key have stored. */
  ghost function StoredSum(es: seq<Entry>, events: seq<Event>, slab: Slab, key: bytes): int
    requires Unique(es)
  {
    if events == [] then 0
    else
      var before, ev := events[..|events| - 1], events[|events| - 1];
      RunUnique(es, before, slab);
      StoredSum(es, before, slab, key)
        + if ev.op.Incr? && ev.op.key == key && Stores(Run(es, before, slab), ev, slab) then ev.op.delta else 0
  }

  /** Up to time `t`, every call is an incr of the key or spares it. */
  ghost predicate AllSpareOrIncr(es: seq<Entry>, events: seq<Event>, slab: Slab, key: bytes, t: nat)
    requires Unique(es)
  {
    events == [] ||
    var before, ev := events[..|events| - 1], events[|events| - 1];
    AllSpareOrIncr(es, before, slab, key, t) && ev.now <= t
    && ((ev.op.Incr? && ev.op.key == key) || (RunUnique(es, before, slab); Spares(Run(es, before, slab), ev, slab, key)))
  }

  /** The key holds a text for `v`, its start value or the canonical one, under the start's expiry. */
  ghost predicate Holds(es: seq<Entry>, key: bytes, t: nat, start: Item, v: int) {
    Unique(es) && key in Live(es, t)
    && var item := Live(es, t)[key];
    Denotes(item.value) == Some(v) && item.expires == start.expires && (item.value == start.value || item.value == Canonical(v))
  }

  /**
   * However many increments of a key succeed or fail, and whatever other calls come between that spare the key, its text
   * denotes the start plus the stored deltas, its expiry never moves, and the text is the untouched start or canonical.
   */
  lemma {:induction false} IncrementsAddUp(es: seq<Entry>, events: seq<Event>, slab: Slab, key: bytes, t: nat)
    requires Unique(es) && key in Live(es, t) && Denotes(Live(es, t)[key].value).Some?
    requires AllSpareOrIncr(es, events, slab, key, t)
    ensures var start := Live(es, t)[key];
      Holds(Run(es, events, slab), key, t, start, Denotes(start.value).value + StoredSum(es, events, slab, key))
  {
    hide Canonical, Denotes, Live, Call, Stores, Unique, Spares;
    if events != [] {
      var before, ev := events[..|events| - 1], events[|events| - 1];
      IncrementsAddUp(es, before, slab, key, t);
      var start := Live(es, t)[key];
      var v := Denotes(start.value).value + StoredSum(es, before, slab, key);
      RunUnique(es, before, slab);
      var mid := Run(es, before, slab);
      if ev.op.Incr? && ev.op.key == key {
        IncrStep(mid, ev, slab, key, t, start, v);
      } else {
        SparedKey(mid, ev, slab, key, t);
      }
    }
  }

  /** One increment: the sum in canonical form under the same expiry, or the same bytes. */
  lemma IncrStep(es: seq<Entry>, ev: Event, slab: Slab, key: bytes, t: nat, start: Item, v: int)
    requires Holds(es, key, t, start, v)
    requires ev.op.Incr? && ev.op.key == key && ev.now <= t
    ensures var o := Call(es, ev, slab);
      if Stores(es, ev, slab) then
        Holds(o.entries, key, t, start, v + ev.op.delta) && Live(o.entries, t)[key].value == Canonical(v + ev.op.delta)
        && o.rc == v + ev.op.delta
      else
        Holds(o.entries, key, t, start, v) && Live(o.entries, t)[key] == Live(es, t)[key] && o.rc == ERROR
  {
    hide Canonical, Denotes, SetSpec, SetVictims, Live, IncrSpec, Unique, IndexOf, KeysOf;
    CallOnMap(es, ev, slab, t);
    LiveAt(es, key, t);
    LiveAt(es, key, ev.now);
    if Int32(v + ev.op.delta) { RoundTrip(v + ev.op.delta); }
    if ValidKey(key) { IncrOnMap(es, ev.now, key, ev.op.delta, slab, ev.tick, t); }
  }
}
