/** Header lists as values: what a lookup finds after overriding headers. */
module Headers {
  import opened Basics
  import opened Order

  datatype Header = Header(name: bytes, value: bytes)

  function Lower(c: byte): byte { if 65 <= c <= 90 then c + 32 else c }

  /** ngx_strncasecmp finds no difference; it stops at a zero byte. */
  predicate SameBytes(a: bytes, b: bytes)
    requires |a| == |b|
  {
    a == [] || (Lower(a[0]) == Lower(b[0]) && (Lower(a[0]) == 0 || SameBytes(a[1..], b[1..])))
  }

  predicate SameName(a: bytes, b: bytes) { |a| == |b| && SameBytes(a, b) }

  lemma {:induction false} SameBytesEquivalence(a: bytes, b: bytes, c: bytes)
    requires |a| == |b| == |c|
    ensures SameBytes(a, a) && (SameBytes(a, b) ==> SameBytes(b, a))
    ensures SameBytes(a, b) && SameBytes(b, c) ==> SameBytes(a, c)
  {
    if a != [] {
      SameBytesEquivalence(a[1..], b[1..], c[1..]);
    }
  }

  /** Names are equal up to case: an equivalence. */
  lemma SameNameEquivalence(a: bytes, b: bytes, c: bytes)
    ensures SameName(a, a) && (SameName(a, b) ==> SameName(b, a))
    ensures SameName(a, b) && SameName(b, c) ==> SameName(a, c)
  {
    SameBytesEquivalence(a, a, a);
    if |a| == |b| {
      SameBytesEquivalence(a, b, a);
      if |b| == |c| {
        SameBytesEquivalence(a, b, c);
      }
    }
  }

  /** The same byte, or the two cases of one letter. */
  predicate SameLetter(c: byte, d: byte) { c == d || (65 <= c <= 90 && d == c + 32) || (65 <= d <= 90 && c == d + 32) }

  /** The same letters up to `n`, where the names end or have a zero byte. */
  predicate AlikeUpTo(a: bytes, b: bytes, n: nat)
    requires |a| == |b|
  {
    n <= |a| && (n == |a| || (n > 0 && a[n - 1] == 0)) && forall i :: 0 <= i < n ==> SameLetter(a[i], b[i])
  }

  /** The comparison looks at the letters of both, up to a zero byte. */
  lemma {:induction false} SameBytesMean(a: bytes, b: bytes)
    requires |a| == |b|
    ensures SameBytes(a, b) <==> exists n: nat :: AlikeUpTo(a, b, n)
  {
    if a == [] {
      assert AlikeUpTo(a, b, 0);
    } else {
      var c, d := a[1..], b[1..];
      SameBytesMean(c, d);
      if n: nat :| AlikeUpTo(a, b, n) {
        assert forall i :: 0 <= i < n - 1 ==> c[i] == a[i + 1] && d[i] == b[i + 1];
        assert a[0] != 0 ==> AlikeUpTo(c, d, n - 1);
      }
      if SameBytes(a, b) {
        if a[0] == 0 {
          assert AlikeUpTo(a, b, 1);
        } else {
          var n: nat :| AlikeUpTo(c, d, n);
          assert forall i :: 1 <= i <= n ==> a[i] == c[i - 1] && b[i] == d[i - 1];
          assert AlikeUpTo(a, b, n + 1);
        }
      }
    }
  }

  /** Names without a zero byte: equal up to the case of their letters, and only that. */
  lemma SameNameMeans(a: bytes, b: bytes)
    requires 0 !in a
    ensures SameName(a, b) <==> |a| == |b| && forall i :: 0 <= i < |a| ==> SameLetter(a[i], b[i])
  {
    if |a| == |b| {
      SameBytesMean(a, b);
      assert forall i :: 0 <= i < |a| ==> a[i] in a;
      assert (forall i :: 0 <= i < |a| ==> SameLetter(a[i], b[i])) ==> AlikeUpTo(a, b, |a|);
    }
  }

  /** The first header of that name. */
  function Find(hs: seq<Header>, name: bytes): (at: Option<nat>)
    ensures at.Some? ==> at.value < |hs| && SameName(hs[at.value].name, name)
    ensures forall i :: 0 <= i < (if at.Some? then at.value else |hs|) ==> !SameName(hs[i].name, name)
  {
    if hs == [] then None
    else if SameName(hs[0].name, name) then Some(0)
    else
      var rest := Find(hs[1..], name);
      assert forall i :: 1 <= i < |hs| ==> hs[i] == hs[1..][i - 1];
      if rest.Some? then Some(rest.value + 1) else None
  }

  function Value(hs: seq<Header>, name: bytes): Option<bytes> {
    var at := Find(hs, name);
    if at.Some? then Some(hs[at.value].value) else None
  }

  /** set_runtime_header */
  function Override(hs: seq<Header>, h: Header): seq<Header> {
    var at := Find(hs, h.name);
    if at.Some? then hs[at.value := hs[at.value].(value := h.value)] else hs + [h]
  }

  function Overridden(hs: seq<Header>, staged: seq<Header>): seq<Header> {
    if staged == [] then hs else Override(Overridden(hs, staged[..|staged| - 1]), staged[|staged| - 1])
  }

  /** The position of a first match is determined by what comes before it. */
  lemma FindIs(hs: seq<Header>, name: bytes, i: nat)
    requires i < |hs| && SameName(hs[i].name, name) && forall j :: 0 <= j < i ==> !SameName(hs[j].name, name)
    ensures Find(hs, name) == Some(i)
  {
  }

  lemma OverrideMeans(hs: seq<Header>, h: Header, name: bytes)
    ensures Value(Override(hs, h), name) == if SameName(h.name, name) then Some(h.value) else Value(hs, name)
  {
    var at, out := Find(hs, h.name), Override(hs, h);
    SameNameEquivalence(h.name, name, name);
    SameNameEquivalence(name, h.name, h.name);
    if at.Some? {
      var own := hs[at.value].name;
      SameNameEquivalence(own, h.name, name);
      SameNameEquivalence(h.name, own, name);
      SameNameEquivalence(own, h.name, h.name);
      forall i | 0 <= i < at.value ensures SameName(h.name, name) ==> !SameName(hs[i].name, name) {
        SameNameEquivalence(hs[i].name, name, h.name);
      }
    } else {
      forall i | 0 <= i < |hs| ensures SameName(h.name, name) ==> !SameName(hs[i].name, name) {
        SameNameEquivalence(hs[i].name, name, h.name);
      }
    }
    var f := Find(hs, name);
    if SameName(h.name, name) {
      FindIs(out, name, if at.Some? then at.value else |hs|);
    } else if f.Some? {
      FindIs(out, name, f.value);
    }
  }

  /** The value staged last for a name. */
  function LastStaged(staged: seq<Header>, name: bytes): Option<bytes> {
    if staged == [] then None
    else
      var last := staged[|staged| - 1];
      if SameName(last.name, name) then Some(last.value) else LastStaged(staged[..|staged| - 1], name)
  }

  /** Looking a name up after all overrides: the last staged value, or else what the first match had before. */
  lemma {:induction false} OverriddenMeans(hs: seq<Header>, staged: seq<Header>, name: bytes)
    ensures Value(Overridden(hs, staged), name) ==
      if LastStaged(staged, name).Some? then LastStaged(staged, name) else Value(hs, name)
  {
    if staged != [] {
      var before := staged[..|staged| - 1];
      OverriddenMeans(hs, before, name);
      OverrideMeans(Overridden(hs, before), staged[|staged| - 1], name);
    }
  }

  /** The staged headers, if the list exists yet, the next outside call, and whether staging succeeded. */
  datatype Staging = Staging(list: seq<Header>, hasList: bool, tick: nat, ok: bool)

  /** Where in the outside calls the push of a new element comes. */
  function PushCall(s: Staging): nat { if s.hasList then s.tick else s.tick + 1 }

  /** Staging a header: create the list if there is none, push an empty element, copy the name, copy the value. */
  function Stage(s: Staging, fails: nat -> bool, h: Header): Staging {
    var p := PushCall(s);
    if !s.hasList && fails(s.tick) then Staging(s.list, false, s.tick + 1, false)
    else if fails(p) then Staging(s.list, true, p + 1, false)
    else if fails(p + 1) then Staging(s.list + [Header([], [])], true, p + 2, false)
    else if fails(p + 2) then Staging(s.list + [Header(h.name, [])], true, p + 3, false)
    else Staging(s.list + [h], true, p + 3, true)
  }

  /**
   * What is staged tells how far staging came, and no call is made after the one that failed. A failed copy of the name
   * leaves a nameless header, a failed copy of the value a header with no value.
   */
  lemma StageExactly(s: Staging, fails: nat -> bool, h: Header)
    requires h.name != []
    ensures var r, p := Stage(s, fails, h), PushCall(s);
      var listed := s.hasList || !fails(s.tick);
      && (r.ok <==> forall k :: s.tick <= k < p + 3 ==> !fails(k)) && (r.hasList <==> listed)
      && (r.list == s.list <==> !listed || fails(p))
      && (r.list == s.list + [Header([], [])] <==> listed && !fails(p) && fails(p + 1))
      && (r.list == s.list + [Header(h.name, [])] <==> listed && !fails(p) && !fails(p + 1) && (fails(p + 2) || h.value == []))
      && (!r.ok <==> fails(r.tick - 1)) && (forall k :: s.tick <= k < r.tick - 1 ==> !fails(k))
  {
    var r, n := Stage(s, fails, h), |s.list|;
    assert |r.list| == n + 1 ==> r.list[n] in {h, Header([], []), Header(h.name, [])};
    assert (s.list + [Header([], [])])[n] == Header([], []) && (s.list + [Header(h.name, [])])[n] == Header(h.name, []);
  }

  /** A header whose staging failed at its value still overrides: a launch gives the name an empty value. */
  lemma UnfinishedOverrides(hs: seq<Header>, s: Staging, fails: nat -> bool, h: Header, name: bytes)
    requires h.name != [] && name != []
    ensures var r, p := Stage(s, fails, h), PushCall(s);
      !r.ok ==>
        Value(Overridden(hs, r.list), name) ==
          if SameName(h.name, name) && r.tick == p + 3 then Some([]) else Value(Overridden(hs, s.list), name)
  {
    var r := Stage(s, fails, h);
    OverriddenMeans(hs, r.list, name);
    OverriddenMeans(hs, s.list, name);
    if r.list != s.list {
      assert r.list[..|r.list| - 1] == s.list;
    }
  }

  /** The fourth outside call fails: staging reports the failure, and a launch takes the value of the parent's header away. */
  lemma UnfinishedExample()
    ensures var hs, h := [Header([120], [49])], Header([120], [50]);
      var r := Stage(Staging([], false, 0, true), k => k == 3, h);
      !r.ok && r.list == [Header([120], [])] && Value(hs, [120]) == Some([49]) && Value(Overridden(hs, r.list), [120]) == Some([])
  {
    var hs, h, s := [Header([120], [49])], Header([120], [50]), Staging([], false, 0, true);
    UnfinishedOverrides(hs, s, k => k == 3, h, [120]);
    SameNameEquivalence([120], [120], [120]);
  }

  /** Overrides rename nothing, and touch only the first header of a name. */
  lemma {:induction false} OverriddenKeeps(hs: seq<Header>, staged: seq<Header>, i: nat)
    requires i < |hs|
    ensures var out := Overridden(hs, staged);
      && |hs| <= |out| <= |hs| + |staged| && out[i].name == hs[i].name
      && (LastStaged(staged, hs[i].name).None? || Find(hs, hs[i].name) != Some(i) ==> out[i] == hs[i])
  {
    if staged != [] {
      var before, h := staged[..|staged| - 1], staged[|staged| - 1];
      OverriddenKeeps(hs, before, i);
      var mid := Overridden(hs, before);
      SameNameEquivalence(hs[i].name, h.name, hs[i].name);
      if Find(mid, h.name) == Some(i) {
        forall j | 0 <= j < i ensures !SameName(hs[j].name, hs[i].name) {
          OverriddenKeeps(hs, before, j);
          SameNameEquivalence(hs[j].name, hs[i].name, h.name);
        }
        FindSelf(hs, i);
      }
    }
  }

  lemma FindSelf(hs: seq<Header>, i: nat)
    requires i < |hs| && forall j :: 0 <= j < i ==> !SameName(hs[j].name, hs[i].name)
    ensures Find(hs, hs[i].name) == Some(i)
  {
    SameNameEquivalence(hs[i].name, hs[i].name, hs[i].name);
    FindIs(hs, hs[i].name, i);
  }
}
