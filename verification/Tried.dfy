/** The bitmap of tried peers: 64 to a word. */
module Tried {

  const OK := 0
  const ERROR := -1
  const BUSY := -3

  /** One bit, moved `k` places up. */
  function Mask(k: nat): bv64 { if k == 0 then 1 else Mask(k - 1) << 1 }

  predicate TriedAt(words: seq<bv64>, i: nat) { i / 64 < |words| && Has(words[i / 64], i % 64) }

  function Mark(words: seq<bv64>, i: nat): seq<bv64>
    requires i / 64 < |words|
  {
    words[i / 64 := With(words[i / 64], i % 64)]
  }

  lemma ShiftAnd(a: bv64, b: bv64)
    ensures (a << 1) & (b << 1) == (a & b) << 1 && (a << 1) & 1 == 0 && 1 & (a << 1) == 0
  {
  }

  lemma {:induction false} MasksDisjoint(j: nat, k: nat)
    requires j != k
    ensures Meet(Mask(j), Mask(k)) == 0
  {
    if j == 0 {
      ShiftAnd(Mask(k - 1), 0);
    } else if k == 0 {
      ShiftAnd(Mask(j - 1), 0);
    } else {
      MasksDisjoint(j - 1, k - 1);
      ShiftAnd(Mask(j - 1), Mask(k - 1));
    }
  }

  lemma TwoShifts(a: bv64)
    ensures (a << 1) << 1 == a << 2 && (a << 2) << 2 == a << 4 && (a << 4) << 4 == a << 8
  {
  }

  lemma MaskTwo(k: nat)
    ensures Mask(k + 2) == Mask(k) << 2
  {
    MaskNext(k);
    MaskNext(k + 1);
    hide Mask;
    TwoShifts(Mask(k));
  }

  lemma MaskFour(k: nat)
    ensures Mask(k + 4) == Mask(k) << 4
  {
    MaskTwo(k);
    MaskTwo(k + 2);
    hide Mask;
    TwoShifts(Mask(k));
  }

  lemma MaskEight(k: nat)
    ensures Mask(k + 8) == Mask(k) << 8
  {
    MaskFour(k);
    MaskFour(k + 4);
    hide Mask;
    TwoShifts(Mask(k));
  }

  lemma MaskNext(k: nat)
    ensures Mask(k + 1) == Mask(k) << 1
  {
  }

  lemma {:induction false} MaskNonZero(k: nat)
    requires k < 64
    ensures Mask(k) != 0
    decreases 64 - k
  {
    if k < 63 {
      MaskNonZero(k + 1);
    } else {
      assert Mask(7) == 128;
      MaskEight(7);
      MaskEight(15);
      MaskEight(23);
      MaskEight(31);
      MaskEight(39);
      MaskEight(47);
      MaskEight(55);
    }
  }

  function Meet(w: bv64, m: bv64): bv64 { w & m }

  function Join(w: bv64, m: bv64): bv64 { w | m }

  predicate Has(w: bv64, k: nat) { Meet(w, Mask(k)) != 0 }

  function With(w: bv64, k: nat): bv64 { Join(w, Mask(k)) }

  lemma MeetJoin(w: bv64, m: bv64)
    ensures Meet(Join(w, m), m) == m
  {
  }

  lemma MeetJoinOther(w: bv64, m: bv64, o: bv64)
    requires Meet(o, m) == 0
    ensures Meet(Join(w, m), o) == Meet(w, o)
  {
  }

  lemma HasItself(w: bv64, k: nat)
    requires k < 64
    ensures Has(With(w, k), k)
  {
    hide Meet, Join;
    MaskNonZero(k);
    hide Mask;
    MeetJoin(w, Mask(k));
  }

  lemma HasOther(w: bv64, a: nat, b: nat)
    requires a != b
    ensures Has(With(w, a), b) == Has(w, b)
  {
    hide Meet, Join;
    MasksDisjoint(b, a);
    hide Mask;
    MeetJoinOther(w, Mask(a), Mask(b));
  }

  /** Marking a peer marks that peer alone. */
  lemma MarkMeans(words: seq<bv64>, i: nat, j: nat)
    requires i / 64 < |words|
    ensures TriedAt(Mark(words, i), j) <==> TriedAt(words, j) || j == i
  {
    hide Has, With;
    if j == i {
      HasItself(words[i / 64], i % 64);
    } else if j / 64 == i / 64 {
      HasOther(words[i / 64], i % 64, j % 64);
    }
  }

  datatype Peer = Peer(down: bool, maxFails: nat, fails: nat, checked: int, failTimeout: int, maxConns: nat, conns: nat, refs: nat)
  {
    /** Enough failures, and too recently. */
    predicate Barred(now: int) { maxFails != 0 && fails >= maxFails && now - checked <= failTimeout }

    predicate Saturated() { maxConns != 0 && conns >= maxConns }

    function Taken(now: int): Peer {
      this.(refs := refs + 1, conns := conns + 1, checked := if now - checked > failTimeout then now else checked)
    }
  }

  /** The peers at one selection, and the request's own bitmap. */
  datatype Balance = Balance(peers: seq<Peer>, tried: seq<bv64>, current: int)

  predicate Fits(b: Balance) { |b.peers| <= 64 * |b.tried| }

  predicate Selectable(b: Balance, i: nat, now: int) {
    i < |b.peers| && !TriedAt(b.tried, i) && !b.peers[i].down && !b.peers[i].Barred(now) && !b.peers[i].Saturated()
  }

  /** balancer_select_peer; `stale` says that the configuration changed under the request. */
  function Select(b: Balance, i: nat, now: int, stale: bool): (Balance, int)
    requires stale || Fits(b)
  {
    if stale then (b, BUSY)
    else if i >= |b.peers| then (b, ERROR)
    else if Selectable(b, i, now) then
      (Balance(b.peers[i := b.peers[i].Taken(now)], Mark(b.tried, i), i), OK)
    else (b, BUSY)
  }

  /** One selection of a request: the peers as it finds them, which other requests may have changed. */
  datatype Attempt = Attempt(peers: seq<Peer>, index: nat, now: int, stale: bool)

  function AttemptOn(words: seq<bv64>, a: Attempt): (Balance, int)
    requires a.stale || |a.peers| <= 64 * |words|
  {
    Select(Balance(a.peers, words, -1), a.index, a.now, a.stale)
  }

  /** The request's bitmap covers the `n` peers it began with; only a changed configuration can show it another number. */
  ghost predicate Sized(words: seq<bv64>, n: nat, attempts: seq<Attempt>) {
    n <= 64 * |words| && forall a :: a in attempts && !a.stale ==> |a.peers| == n
  }

  /** The bitmap after a request's selections, and the peers it got. */
  function Selections(words: seq<bv64>, n: nat, attempts: seq<Attempt>): (r: (seq<bv64>, seq<nat>))
    requires Sized(words, n, attempts)
    ensures |r.0| == |words|
  {
    if attempts == [] then (words, [])
    else
      var last := attempts[|attempts| - 1];
      var (w, chosen) := Selections(words, n, attempts[..|attempts| - 1]);
      var (b, rc) := AttemptOn(w, last);
      (b.tried, if rc == OK then chosen + [last.index] else chosen)
  }

  ghost predicate NoRepeats(s: seq<nat>) { forall i, j :: 0 <= i < j < |s| ==> s[i] != s[j] }

  /** The words denote what was tried before plus what was chosen, and nothing is chosen twice. */
  lemma {:induction false} TriedIsChosen(words: seq<bv64>, n: nat, attempts: seq<Attempt>)
    requires Sized(words, n, attempts)
    ensures var (w, chosen) := Selections(words, n, attempts);
      && (forall j: nat :: TriedAt(w, j) <==> TriedAt(words, j) || j in chosen)
      && NoRepeats(chosen)
      && (forall c :: c in chosen ==> c < n && !TriedAt(words, c))
  {
    if attempts != [] {
      var before, last := attempts[..|attempts| - 1], attempts[|attempts| - 1];
      assert last in attempts;
      TriedIsChosen(words, n, before);
      var (w, chosen) := Selections(words, n, before);
      if AttemptOn(w, last).1 == OK {
        forall j: nat ensures TriedAt(Mark(w, last.index), j) <==> TriedAt(w, j) || j == last.index {
          MarkMeans(w, last.index, j);
        }
        assert last.index !in chosen;
        hide TriedAt, Mark;
      }
    }
  }

  lemma {:induction false} Pigeonhole(s: seq<nat>, n: nat, out: set<nat>)
    requires NoRepeats(s) && out <= UpTo(n) && forall c :: c in s ==> c < n && c !in out
    ensures |s| + |out| <= n
    decreases |s|
  {
    UpToCounts(n);
    if s == [] {
      Within(out, UpTo(n));
    } else {
      var rest, last := s[..|s| - 1], s[|s| - 1];
      assert last in s;
      forall c | c in rest ensures c < n && c !in out + {last} {
        var k :| 0 <= k < |rest| && rest[k] == c;
        assert s[k] in s;
      }
      Pigeonhole(rest, n, out + {last});
    }
  }

  function UpTo(n: nat): set<nat> { if n == 0 then {} else UpTo(n - 1) + {n - 1} }

  lemma {:induction false} UpToCounts(n: nat)
    ensures |UpTo(n)| == n && forall i: nat :: i in UpTo(n) <==> i < n
  {
    if n > 0 {
      UpToCounts(n - 1);
    }
  }

  lemma {:induction false} Within(a: set<nat>, b: set<nat>)
    requires a <= b
    ensures |a| <= |b|
  {
    if a != {} {
      var x :| x in a;
      Within(a - {x}, b - {x});
    }
  }

  ghost function InitiallyTried(words: seq<bv64>, n: nat): set<nat> { set i | i in UpTo(n) && TriedAt(words, i) }

  /** A request gets each peer at most once, so at most as many as were untried. */
  lemma SelectionsBounded(words: seq<bv64>, n: nat, attempts: seq<Attempt>)
    requires Sized(words, n, attempts)
    ensures |Selections(words, n, attempts).1| + |InitiallyTried(words, n)| <= n
  {
    TriedIsChosen(words, n, attempts);
    UpToCounts(n);
    Pigeonhole(Selections(words, n, attempts).1, n, InitiallyTried(words, n));
  }

  /**
    * The same on the fields: a peer is refused if it is down, if it has failed as often as allowed and was last checked no
    * longer ago than its timeout, or if all its connections are taken. A peer that is taken gets one connection and one
    * reference more, and the time of its check if that was longer ago; nothing else of it changes.
    */
  lemma SelectOnFields(b: Balance, i: nat, now: int, stale: bool)
    requires stale || Fits(b)
    ensures var (c, rc) := Select(b, i, now, stale);
      if stale then rc == -3 && c == b
      else if i >= |b.peers| then rc == -1 && c == b
      else
        var p := b.peers[i];
        var barred := p.maxFails > 0 && p.fails >= p.maxFails && now <= p.checked + p.failTimeout;
        if TriedAt(b.tried, i) || p.down || barred || (p.maxConns > 0 && p.conns >= p.maxConns) then rc == -3 && c == b
        else
          && rc == 0 && |c.peers| == |b.peers|
          && c.peers[i] == Peer(p.down, p.maxFails, p.fails, if now > p.checked + p.failTimeout then now else p.checked,
                                p.failTimeout, p.maxConns, p.conns + 1, p.refs + 1)
  {
  }

  /** A selection succeeds exactly for a peer that is up, untried and below its limits; a refusal changes nothing. */
  lemma SelectMeans(b: Balance, i: nat, now: int, stale: bool)
    requires stale || Fits(b)
    ensures var (c, rc) := Select(b, i, now, stale);
      && (rc == OK <==> !stale && Selectable(b, i, now))
      && (rc == ERROR <==> !stale && i >= |b.peers|)
      && (rc != OK ==> rc in {BUSY, ERROR} && c == b)
      && (rc == OK ==> c.current == i && |c.peers| == |b.peers| && forall j :: 0 <= j < |b.peers| && j != i ==> c.peers[j] == b.peers[j])
      && (rc == OK ==> forall j: nat :: TriedAt(c.tried, j) <==> TriedAt(b.tried, j) || j == i)
      && (rc == OK ==> c.peers[i].conns == b.peers[i].conns + 1)
      && (rc == OK && c.peers[i].maxConns != 0 ==> c.peers[i].conns <= c.peers[i].maxConns)
  {
    if !stale && Selectable(b, i, now) {
      forall j: nat ensures TriedAt(Mark(b.tried, i), j) <==> TriedAt(b.tried, j) || j == i {
        MarkMeans(b.tried, i, j);
      }
    }
  }
}
