/** Declared metrics as a map: what a reload ensures and what increments add up to. */
module Registry {
  import opened Order

  const OK := 0
  const NOT_FOUND := -1
  const ERROR := -2

  /** LLONG_MAX */
  const MAX: int := 0x7FFF_FFFF_FFFF_FFFF
  const MAX_NAME := 256

  datatype Kind = Counter | Gauge

  datatype Metric = Metric(kind: Kind, value: int)

  datatype Definition = Definition(name: bytes, kind: Kind)

  type Metrics = map<bytes, Metric>

  /** ensure_definitions: create what is missing; stop at a kind that differs or a failed allocation. */
  function Ensured(m: Metrics, defs: seq<Definition>, slab: nat -> bool, tick: nat): (Metrics, int)
    decreases |defs|
  {
    if defs == [] then (m, OK)
    else
      var d := defs[0];
      if d.name in m then (if m[d.name].kind != d.kind then (m, ERROR) else Ensured(m, defs[1..], slab, tick))
      else if !slab(tick) then (m, ERROR)
      else Ensured(m[d.name := Metric(d.kind, 0)], defs[1..], slab, tick + 1)
  }

  /** The definitions agree with each other and with the metrics at hand. */
  ghost predicate Compatible(m: Metrics, defs: seq<Definition>) {
    && (forall d :: d in defs && d.name in m ==> m[d.name].kind == d.kind)
    && (forall d, e :: d in defs && e in defs && d.name == e.name ==> d.kind == e.kind)
  }

  predicate Declared(m: Metrics, d: Definition) { d.name in m && m[d.name].kind == d.kind }

  /** A reload loses nothing, creates declared metrics at zero, and if it succeeds all of them. */
  lemma {:induction false} EnsuredDeclares(m: Metrics, defs: seq<Definition>, slab: nat -> bool, tick: nat)
    ensures var (r, rc) := Ensured(m, defs, slab, tick);
      && rc in {OK, ERROR}
      && (forall k :: k in m ==> k in r && r[k] == m[k])
      && (forall k :: k in r && k !in m ==> exists d :: d in defs && d.name == k && r[k] == Metric(d.kind, 0))
      && (rc == OK ==> forall d :: d in defs ==> Declared(r, d))
    decreases |defs|
  {
    if defs != [] {
      var d := defs[0];
      var n := if d.name in m then m else m[d.name := Metric(d.kind, 0)];
      var t := if d.name in m then tick else tick + 1;
      EnsuredDeclares(n, defs[1..], slab, t);
      assert forall e :: e in defs <==> e == d || e in defs[1..];
      var (r, rc) := Ensured(m, defs, slab, tick);
      forall k | k in r && k !in m ensures exists d :: d in defs && d.name == k && r[k] == Metric(d.kind, 0) {
        if k != d.name {
          var e :| e in defs[1..] && e.name == k && r[k] == Metric(e.kind, 0);
          assert e in defs;
        }
      }
    }
  }

  /** How many names the metrics lack. */
  function Missing(m: Metrics, defs: seq<Definition>): nat
    decreases |defs|
  {
    if defs == [] then 0
    else if defs[0].name in m then Missing(m, defs[1..])
    else 1 + Missing(m[defs[0].name := Metric(defs[0].kind, 0)], defs[1..])
  }

  /** A reload succeeds exactly if no kind is contradicted and there is memory for every name that is missing. */
  lemma {:induction false} EnsuredSucceeds(m: Metrics, defs: seq<Definition>, slab: nat -> bool, tick: nat)
    ensures Ensured(m, defs, slab, tick).1 == OK <==>
      Compatible(m, defs) && forall i :: tick <= i < tick + Missing(m, defs) ==> slab(i)
    decreases |defs|
  {
    if defs != [] {
      var d := defs[0];
      var n := if d.name in m then m else m[d.name := Metric(d.kind, 0)];
      var t := if d.name in m then tick else tick + 1;
      EnsuredSucceeds(n, defs[1..], slab, t);
      assert d in defs && forall e :: e in defs <==> e == d || e in defs[1..];
      if Ensured(n, defs[1..], slab, t).1 == OK && (d.name in m ==> m[d.name].kind == d.kind) {
        EnsuredDeclares(n, defs[1..], slab, t);
        assert Compatible(m, defs);
      }
      if Compatible(m, defs) { assert Compatible(n, defs[1..]); }
    }
  }

  /** A second reload with the same definitions changes nothing. */
  lemma {:induction false} EnsuredTwice(m: Metrics, defs: seq<Definition>, slab: nat -> bool, tick: nat)
    requires forall d :: d in defs ==> Declared(m, d)
    ensures Ensured(m, defs, slab, tick) == (m, OK)
    decreases |defs|
  {
    if defs != [] {
      assert Declared(m, defs[0]) && forall e :: e in defs[1..] ==> e in defs;
      EnsuredTwice(m, defs[1..], slab, tick);
    }
  }

  /** The saturating step of a counter. */
  function Bumped(v: int, delta: nat): int { if v > MAX - delta then MAX else v + delta }

  predicate GoodName(name: bytes) { 0 < |name| <= MAX_NAME }

  datatype Op = Inc(name: bytes, delta: int) | Set(name: bytes, value: int) | Reload(defs: seq<Definition>, tick: nat)

  /** What one operation makes of the metrics. */
  function Apply(m: Metrics, op: Op, slab: nat -> bool): (Metrics, int) {
    match op
    case Inc(name, delta) =>
      if GoodName(name) && delta >= 0 && Declared(m, Definition(name, Counter))
      then (m[name := Metric(Counter, Bumped(m[name].value, delta))], OK) else (m, ERROR)
    case Set(name, value) =>
      if GoodName(name) && Declared(m, Definition(name, Gauge))
      then (m[name := Metric(Gauge, value)], OK) else (m, ERROR)
    case Reload(defs, tick) => Ensured(m, defs, slab, tick)
  }

  function ApplyAll(m: Metrics, ops: seq<Op>, slab: nat -> bool): Metrics {
    if ops == [] then m else Apply(ApplyAll(m, ops[..|ops| - 1], slab), ops[|ops| - 1], slab).0
  }

  /** The sum of the increments of one counter, the refused negative ones left out. */
  function Added(ops: seq<Op>, name: bytes): nat {
    if ops == [] then 0
    else
      var last := ops[|ops| - 1];
      Added(ops[..|ops| - 1], name) + (if last.Inc? && last.name == name && last.delta >= 0 then last.delta else 0)
  }

  /** A counter is its start plus all that was ever added, cut at the maximum, whatever happens in between. */
  lemma {:induction false} CounterAddsUp(m: Metrics, ops: seq<Op>, slab: nat -> bool, name: bytes)
    requires GoodName(name) && Declared(m, Definition(name, Counter)) && m[name].value <= MAX
    ensures var r := ApplyAll(m, ops, slab);
      && Declared(r, Definition(name, Counter))
      && r[name].value == if m[name].value + Added(ops, name) > MAX then MAX else m[name].value + Added(ops, name)
  {
    if ops != [] {
      var before, last := ops[..|ops| - 1], ops[|ops| - 1];
      CounterAddsUp(m, before, slab, name);
      if last.Reload? {
        EnsuredDeclares(ApplyAll(m, before, slab), last.defs, slab, last.tick);
      }
    }
  }

  /** When a call is accepted, and what it changes: that one value, and no other metric. */
  lemma ApplyMeans(m: Metrics, op: Op, slab: nat -> bool)
    requires !op.Reload?
    ensures var (r, rc) := Apply(m, op, slab);
      var kind := if op.Inc? then Counter else Gauge;
      && (rc == 0 <==> 1 <= |op.name| <= 256 && op.name in m && m[op.name].kind == kind && (op.Inc? ==> op.delta >= 0))
      && (rc != 0 ==> rc == -2 && r == m)
      && (rc == 0 ==> r.Keys == m.Keys && r[op.name].kind == kind && forall k :: k in m && k != op.name ==> r[k] == m[k])
      && (rc == 0 && op.Set? ==> r[op.name].value == op.value)
      && (rc == 0 && op.Inc? ==>
        var sum := m[op.name].value + op.delta;
        r[op.name].value == if sum > 0x7FFF_FFFF_FFFF_FFFF then 0x7FFF_FFFF_FFFF_FFFF else sum)
  {
  }

  /** The value last set for a gauge, or the one it began with. */
  function LastSet(ops: seq<Op>, name: bytes, start: int): int {
    if ops == [] then start
    else
      var last := ops[|ops| - 1];
      if last.Set? && last.name == name then last.value else LastSet(ops[..|ops| - 1], name, start)
  }

  /** A gauge has the value that was set last, whatever happens in between. */
  lemma {:induction false} GaugeKeepsLast(m: Metrics, ops: seq<Op>, slab: nat -> bool, name: bytes)
    requires 1 <= |name| <= 256 && name in m && m[name].kind == Gauge
    ensures var r := ApplyAll(m, ops, slab); name in r && r[name] == Metric(Gauge, LastSet(ops, name, m[name].value))
  {
    if ops != [] {
      var before, last := ops[..|ops| - 1], ops[|ops| - 1];
      GaugeKeepsLast(m, before, slab, name);
      if last.Reload? {
        EnsuredDeclares(ApplyAll(m, before, slab), last.defs, slab, last.tick);
      }
    }
  }
}
