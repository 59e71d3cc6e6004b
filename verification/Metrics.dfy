/** The metrics zone: a linked tree of named values. */
module MetricsZone {
  import opened Order
  import opened Shapes
  import opened Indexes
  import opened Registry

  class Zone {
    const hash: bytes -> nat
    const slab: nat -> bool
    const index: Index<Metric>
    var tick: nat
    ghost var view: Metrics

    ghost function Repr(): set<object>
      reads this, index
    {
      {this, index} + index.nodes
    }

    function TagOf(name: bytes): Tag { Tag(hash(name), name) }

    /** One node for each metric and no other node. */
    ghost predicate Valid()
      reads Repr()
    {
      && index.Valid() && index.rule == BytesFirst
      && (forall n :: n in index.nodes ==> n.tag == TagOf(n.tag.key) && n.tag.key in view && view[n.tag.key] == n.data)
      && (forall m, n :: m in index.nodes && n in index.nodes && m.tag.key == n.tag.key ==> m == n)
      && (forall k :: k in view ==> exists n :: n in index.nodes && n.tag.key == k)
    }

    constructor (hash: bytes -> nat, slab: nat -> bool)
      ensures Valid() && view == map[] && fresh(Repr()) && this.hash == hash && this.slab == slab
    {
      this.hash, this.slab, tick, view := hash, slab, 0, map[];
      index := new Index(BytesFirst);
    }

    method Lookup(name: bytes) returns (entry: Node?<Metric>)
      requires Valid()
      ensures Valid() && (entry == null <==> name !in view)
      ensures entry != null ==> entry in index.nodes && entry.tag.key == name && view[name] == entry.data
    {
      entry := index.Lookup(TagOf(name));
      if name in view {
        ghost var n :| n in index.nodes && n.tag.key == name;
        TagsOrdered(BytesFirst, index.shape);
        MemberIsFound(BytesFirst, Tags(index.shape), TagOf(name));
      }
    }

    method SetValue(entry: Node<Metric>, value: int)
      requires Valid() && entry in index.nodes
      modifies this`view, entry`data
      ensures Valid() && view == old(view)[entry.tag.key := Metric(old(entry.data.kind), value)]
    {
      entry.data := entry.data.(value := value);
      view := view[entry.tag.key := entry.data];
    }

    method NewNode(name: bytes, kind: Kind) returns (entry: Node<Metric>)
      requires Valid() && name !in view
      ensures Valid() && fresh(entry) && entry.tag == TagOf(name) && entry.data == Metric(kind, 0)
    {
      entry := new Node(TagOf(name), Metric(kind, 0));
    }

    method Plant(entry: Node<Metric>)
      requires Valid() && entry !in index.nodes && entry.tag == TagOf(entry.tag.key) && entry.tag.key !in view
      modifies this`view, index`root, index`shape, index`nodes, index.nodes`left, index.nodes`right, index.nodes`parent
      modifies entry`left, entry`right, entry`parent
      ensures Valid() && view == old(view)[entry.tag.key := entry.data] && index.nodes == old(index.nodes) + {entry}
    {
      index.Insert(entry);
      view := view[entry.tag.key := entry.data];
    }

    method AddMetric(name: bytes, kind: Kind)
      requires Valid() && name !in view
      modifies this`view, index`root, index`shape, index`nodes, index.nodes`left, index.nodes`right, index.nodes`parent
      ensures Valid() && view == old(view)[name := Metric(kind, 0)] && fresh(index.nodes - old(index.nodes))
    {
      var node := NewNode(name, kind);
      Plant(node);
    }

    method SlabAlloc() returns (ok: bool)
      requires Valid()
      modifies this`tick
      ensures Valid() && ok == slab(old(tick)) && tick == old(tick) + 1
    {
      ok := slab(tick);
      tick := tick + 1;
    }

    method EnsureDefinitions(defs: seq<Definition>) returns (rc: int)
      requires Valid()
      modifies Repr()
      ensures Valid() && fresh(index.nodes - old(index.nodes))
      ensures (view, rc) == Ensured(old(view), defs, slab, old(tick))
    {
      hide Valid;
      for i := 0 to |defs|
        invariant Valid() && fresh(index.nodes - old(index.nodes))
        invariant Ensured(old(view), defs, slab, old(tick)) == Ensured(view, defs[i..], slab, tick)
      {
        var d := defs[i];
        assert defs[i..][0] == d && defs[i..][1..] == defs[i + 1..];
        var node := Lookup(d.name);
        if node != null {
          if node.data.kind != d.kind {
            return ERROR;
          }
          continue;
        }
        var ok := SlabAlloc();
        if !ok {
          return ERROR;
        }
        AddMetric(d.name, d.kind);
      }
      return OK;
    }

    method CounterInc(name: bytes, delta: int) returns (rc: int)
      requires Valid() && delta <= MAX
      modifies Repr()
      ensures Valid() && index.nodes == old(index.nodes)
      ensures (view, rc) == Apply(old(view), Inc(name, delta), slab)
    {
      if |name| == 0 || |name| > MAX_NAME || delta < 0 {
        return ERROR;
      }
      var entry := Lookup(name);
      if entry == null || entry.data.kind != Counter {
        return ERROR;
      }
      Bump(entry, delta);
      return OK;
    }

    /** Saturates at the maximum instead of wrapping. */
    method Bump(entry: Node<Metric>, delta: nat)
      requires Valid() && entry in index.nodes
      modifies this`view, entry`data
      ensures Valid() && entry.tag.key in old(view)
      ensures view == old(view)[entry.tag.key := Metric(old(entry.data.kind), Bumped(old(view)[entry.tag.key].value, delta))]
    {
      if entry.data.value > MAX - delta {
        SetValue(entry, MAX);
      } else {
        var next := entry.data.value + delta;
        SetValue(entry, next);
      }
    }

    method GaugeSet(name: bytes, value: int) returns (rc: int)
      requires Valid()
      modifies Repr()
      ensures Valid() && index.nodes == old(index.nodes)
      ensures (view, rc) == Apply(old(view), Set(name, value), slab)
    {
      if |name| == 0 || |name| > MAX_NAME {
        return ERROR;
      }
      var entry := Lookup(name);
      if entry == null || entry.data.kind != Gauge {
        return ERROR;
      }
      SetValue(entry, value);
      return OK;
    }

    method Get(name: bytes) returns (rc: int, kind: Kind, value: int)
      requires Valid()
      ensures !GoodName(name) ==> rc == ERROR
      ensures GoodName(name) && name !in view ==> rc == NOT_FOUND
      ensures GoodName(name) && name in view ==> rc == OK && view[name] == Metric(kind, value)
    {
      kind, value := Counter, 0;
      if |name| == 0 || |name| > MAX_NAME {
        return ERROR, kind, value;
      }
      var entry := Lookup(name);
      if entry == null {
        return NOT_FOUND, kind, value;
      }
      return OK, entry.data.kind, entry.data.value;
    }
  }
}
