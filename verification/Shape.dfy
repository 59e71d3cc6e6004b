/** Search trees as values: the shape of a linked tree, and what lookup finds in it. */
module Shapes {
  import opened Basics
  import opened Order

  datatype Shape<N> = Leaf | Branch(left: Shape<N>, node: N, right: Shape<N>)

  function InOrder<N>(s: Shape<N>): seq<N> {
    match s
    case Leaf => []
    case Branch(l, n, r) => InOrder(l) + [n] + InOrder(r)
  }

  function Members<N(==)>(s: Shape<N>): set<N> {
    match s
    case Leaf => {}
    case Branch(l, n, r) => Members(l) + {n} + Members(r)
  }

  predicate Distinct<N(==)>(s: Shape<N>) {
    match s
    case Leaf => true
    case Branch(l, n, r) =>
      Distinct(l) && Distinct(r) && n !in Members(l) && n !in Members(r) && Members(l) !! Members(r)
  }

  /** The subtree whose root is `t`. */
  function At<N(==)>(s: Shape<N>, t: N): (sub: Shape<N>)
    requires t in Members(s)
    ensures sub.Branch? && sub.node == t && Members(sub) <= Members(s)
  {
    if s.node == t then s else if t in Members(s.left) then At(s.left, t) else At(s.right, t)
  }

  /** `s` with the subtree at `t` replaced by `u`. */
  function Splice<N(==)>(s: Shape<N>, t: N, u: Shape<N>): Shape<N>
    requires t in Members(s)
  {
    if s.node == t then u
    else if t in Members(s.left) then Branch(Splice(s.left, t, u), s.node, s.right)
    else Branch(s.left, s.node, Splice(s.right, t, u))
  }

  /** The nodes that come before, and after, the subtree at `t` in key order. */
  function Preceding<N(==)>(s: Shape<N>, t: N): seq<N>
    requires t in Members(s)
  {
    if s.node == t then []
    else if t in Members(s.left) then Preceding(s.left, t)
    else InOrder(s.left) + [s.node] + Preceding(s.right, t)
  }

  function Following<N(==)>(s: Shape<N>, t: N): seq<N>
    requires t in Members(s)
  {
    if s.node == t then []
    else if t in Members(s.left) then Following(s.left, t) + [s.node] + InOrder(s.right)
    else Following(s.right, t)
  }

  lemma Concat5<N>(a: seq<N>, b: seq<N>, c: seq<N>, d: seq<N>, e: seq<N>)
    ensures a + b + c + d + e == a + b + (c + d + e)
  {
  }

  lemma {:induction false} SpliceInOrder<N>(s: Shape<N>, t: N, u: Shape<N>)
    requires t in Members(s)
    ensures InOrder(s) == Preceding(s, t) + InOrder(At(s, t)) + Following(s, t)
    ensures InOrder(Splice(s, t, u)) == Preceding(s, t) + InOrder(u) + Following(s, t)
  {
    if s.node == t {
    } else if t in Members(s.left) {
      SpliceInOrder(s.left, t, u);
      var p, f := Preceding(s.left, t), Following(s.left, t);
      Concat5(p, InOrder(At(s, t)), f, [s.node], InOrder(s.right));
      Concat5(p, InOrder(u), f, [s.node], InOrder(s.right));
    } else {
      SpliceInOrder(s.right, t, u);
      var p, f := Preceding(s.right, t), Following(s.right, t);
      Concat5(InOrder(s.left), [s.node], p, InOrder(At(s, t)), f);
      Concat5(InOrder(s.left), [s.node], p, InOrder(u), f);
    }
  }

  /** Replacing a subtree by one over the same nodes, plus or minus some, does the same to the whole tree. */
  lemma {:induction false} SpliceMembers<N>(s: Shape<N>, t: N, u: Shape<N>)
    requires t in Members(s) && Distinct(s) && Distinct(u)
    requires Members(u) !! (Members(s) - Members(At(s, t)))
    ensures Members(Splice(s, t, u)) == Members(s) - Members(At(s, t)) + Members(u)
    ensures Distinct(Splice(s, t, u))
  {
    if s.node == t {
    } else if t in Members(s.left) {
      SpliceMembers(s.left, t, u);
    } else {
      SpliceMembers(s.right, t, u);
    }
  }

  lemma {:induction false} DistinctAt<N>(s: Shape<N>, t: N)
    requires t in Members(s) && Distinct(s)
    ensures Distinct(At(s, t))
  {
    if s.node == t {
    } else if t in Members(s.left) {
      DistinctAt(s.left, t);
    } else {
      DistinctAt(s.right, t);
    }
  }

  /** Descending one step from `t` to a child. */
  lemma {:induction false} ChildAt<N>(s: Shape<N>, t: N)
    requires t in Members(s) && Distinct(s)
    ensures var l := At(s, t).left; l.Branch? ==> l.node in Members(s) && At(s, l.node) == l
    ensures var r := At(s, t).right; r.Branch? ==> r.node in Members(s) && At(s, r.node) == r
  {
    ChildInside(s, t);
    if s.node == t {
    } else if t in Members(s.left) {
      ChildAt(s.left, t);
    } else {
      ChildAt(s.right, t);
    }
  }

  lemma {:induction false} MembersInOrder<N>(s: Shape<N>, n: N)
    ensures n in Members(s) <==> n in InOrder(s)
  {
    match s
    case Leaf =>
    case Branch(l, _, r) =>
      MembersInOrder(l, n);
      MembersInOrder(r, n);
  }

  lemma ChildInside<N>(s: Shape<N>, t: N)
    requires t in Members(s)
    ensures Top(At(s, t).left).Some? ==> Top(At(s, t).left).value in Members(s)
    ensures Top(At(s, t).right).Some? ==> Top(At(s, t).right).value in Members(s)
  {
    var sub := At(s, t);
    assert Top(sub.left).Some? ==> Top(sub.left).value in Members(sub);
    assert Top(sub.right).Some? ==> Top(sub.right).value in Members(sub);
  }

  function Top<N>(s: Shape<N>): Option<N> {
    if s.Leaf? then None else Some(s.node)
  }

  function ParentOf<N(==)>(s: Shape<N>, n: N): Option<N>
    requires n in Members(s)
  {
    if s.node == n then None
    else if Some(n) in {Top(s.left), Top(s.right)} then Some(s.node)
    else if n in Members(s.left) then ParentOf(s.left, n)
    else ParentOf(s.right, n)
  }

  /** Replacing the subtree at `t` by `u`: the nodes of `u` keep the links they have in `u`. */
  lemma {:induction false} SpliceInside<N>(s: Shape<N>, t: N, u: Shape<N>, n: N)
    requires t in Members(s) && Distinct(s) && n in Members(u)
    requires Members(u) !! (Members(s) - Members(At(s, t)))
    ensures n in Members(Splice(s, t, u)) && At(Splice(s, t, u), n) == At(u, n)
    ensures ParentOf(Splice(s, t, u), n) == if Top(u) == Some(n) then ParentOf(s, t) else ParentOf(u, n)
  {
    if s.node == t {
    } else if t in Members(s.left) {
      SpliceInside(s.left, t, u, n);
    } else {
      SpliceInside(s.right, t, u, n);
    }
  }

  /** ... and every other node keeps its own, except that a child link to `t` now leads to the root of `u`. */
  lemma {:induction false} SpliceOutside<N>(s: Shape<N>, t: N, u: Shape<N>, n: N)
    requires t in Members(s) && Distinct(s) && n in Members(s) - Members(At(s, t)) && n !in Members(u)
    ensures n in Members(Splice(s, t, u))
    ensures Top(At(Splice(s, t, u), n).left) == (if Top(At(s, n).left) == Some(t) then Top(u) else Top(At(s, n).left))
    ensures Top(At(Splice(s, t, u), n).right) == (if Top(At(s, n).right) == Some(t) then Top(u) else Top(At(s, n).right))
  {
    if n == s.node {
    } else if t in Members(s.left) {
      if n in Members(s.right) { ChildInside(s.right, n); }
      if n in Members(s.left) { SpliceOutside(s.left, t, u, n); } else { NotSpliced(s.left, t, u, n); }
    } else if n in Members(s.right) {
      SpliceOutside(s.right, t, u, n);
    } else {
      ChildInside(s.left, n);
    }
  }

  lemma {:induction false} SpliceParent<N>(s: Shape<N>, t: N, u: Shape<N>, n: N)
    requires t in Members(s) && Distinct(s) && n in Members(s) - Members(At(s, t)) && n !in Members(u)
    ensures n in Members(Splice(s, t, u))
    ensures ParentOf(Splice(s, t, u), n) == ParentOf(s, n)
  {
    if n == s.node {
    } else if t in Members(s.left) {
      if n in Members(s.left) { SpliceParent(s.left, t, u, n); } else { NotSpliced(s.left, t, u, n); }
    } else if n in Members(s.right) {
      SpliceParent(s.right, t, u, n);
    }
  }

  /** The parent of `t` is the one node outside the subtree at `t` with a link into it. */
  lemma {:induction false} OnlyParentLinks<N>(s: Shape<N>, t: N)
    requires t in Members(s) && Distinct(s)
    ensures ParentOf(s, t).None? <==> Top(s) == Some(t)
    ensures ParentOf(s, t).Some? ==> ParentOf(s, t).value in Members(s) - Members(At(s, t))
    ensures forall n :: n in Members(s) ==>
      (ParentOf(s, t) == Some(n) <==> Some(t) in {Top(At(s, n).left), Top(At(s, n).right)})
      && (Top(At(s, n).left) == Some(t) ==> Top(At(s, n).right) != Some(t))
  {
    if s.Branch? {
      if t in Members(s.left) { OnlyParentLinks(s.left, t); }
      if t in Members(s.right) { OnlyParentLinks(s.right, t); }
      forall n | n in Members(s) && n != s.node { ChildInside(if n in Members(s.left) then s.left else s.right, n); }
      if t == s.node { assert forall n :: n in Members(s) ==> At(s, n).left != s && At(s, n).right != s; }
    }
  }

  lemma {:induction false} SpliceTop<N>(s: Shape<N>, t: N)
    requires t in Members(s)
    ensures Splice(s, t, At(s, t)) == s
  {
    if s.node == t {
    } else if t in Members(s.left) {
      SpliceTop(s.left, t);
    } else {
      SpliceTop(s.right, t);
    }
  }

  lemma {:induction false} NotSpliced<N>(s: Shape<N>, t: N, u: Shape<N>, n: N)
    requires t in Members(s) && n !in Members(s) && n !in Members(u)
    ensures n !in Members(Splice(s, t, u))
  {
    if s.node == t {
    } else if t in Members(s.left) {
      NotSpliced(s.left, t, u, n);
    } else {
      NotSpliced(s.right, t, u, n);
    }
  }

  // ---- Rotations

  function RotateLeft<N>(s: Shape<N>): (r: Shape<N>)
    requires s.Branch? && s.right.Branch?
  {
    Branch(Branch(s.left, s.node, s.right.left), s.right.node, s.right.right)
  }

  function RotateRight<N>(s: Shape<N>): (r: Shape<N>)
    requires s.Branch? && s.left.Branch?
  {
    Branch(s.left.left, s.left.node, Branch(s.left.right, s.node, s.right))
  }

  /** A rotation keeps the key order, and undoes the opposite one. */
  lemma RotationsKeepOrder<N>(s: Shape<N>)
    requires s.Branch?
    ensures s.right.Branch? ==> InOrder(RotateLeft(s)) == InOrder(s) && RotateRight(RotateLeft(s)) == s
    ensures s.left.Branch? ==> InOrder(RotateRight(s)) == InOrder(s) && RotateLeft(RotateRight(s)) == s
  {
    match s
    case Branch(l, n, r) =>
      if r.Branch? {
        Concat5(InOrder(l), [n], InOrder(r.left), [r.node], InOrder(r.right));
      }
      if l.Branch? {
        Concat5(InOrder(l.left), [l.node], InOrder(l.right), [n], InOrder(r));
      }
  }

  /** The links of a node are the same seen from any subtree that holds it. */
  lemma LinksWithin<N>(s: Shape<N>, t: N, n: N)
    requires t in Members(s) && Distinct(s) && n in Members(At(s, t))
    ensures n in Members(s) && At(s, n) == At(At(s, t), n)
    ensures ParentOf(s, n) == if n == t then ParentOf(s, t) else ParentOf(At(s, t), n)
  {
    SpliceTop(s, t);
    SpliceInside(s, t, At(s, t), n);
  }

  /** A left rotation at the root: exactly three links and their reverses change. */
  lemma LeftTurnAtRoot<N>(s: Shape<N>, n: N)
    requires Distinct(s) && s.Branch? && s.right.Branch? && n in Members(s)
    ensures var x, y, b, u := s.node, s.right.node, Top(s.right.left), RotateLeft(s);
      n in Members(u)
      && Top(At(u, n).left) == (if n == y then Some(x) else Top(At(s, n).left))
      && Top(At(u, n).right) == (if n == x then b else Top(At(s, n).right))
      && ParentOf(u, n) == (if n == x then Some(y) else if n == y then None else if b == Some(n) then Some(x) else ParentOf(s, n))
  {
  }

  lemma RightTurnAtRoot<N>(s: Shape<N>, n: N)
    requires Distinct(s) && s.Branch? && s.left.Branch? && n in Members(s)
    ensures var x, y, b, u := s.node, s.left.node, Top(s.left.right), RotateRight(s);
      n in Members(u)
      && Top(At(u, n).left) == (if n == x then b else Top(At(s, n).left))
      && Top(At(u, n).right) == (if n == y then Some(x) else Top(At(s, n).right))
      && ParentOf(u, n) == (if n == x then Some(y) else if n == y then None else if b == Some(n) then Some(x) else ParentOf(s, n))
  {
  }

  /** A left rotation at `x` inside a tree, link by link. */
  lemma LeftTurnLinks<N>(s: Shape<N>, x: N, n: N)
    requires x in Members(s) && Distinct(s) && At(s, x).right.Branch? && n in Members(s)
    ensures var sub := At(s, x);
      var y, b, s' := sub.right.node, Top(sub.right.left), Splice(s, x, RotateLeft(sub));
      n in Members(s')
      && Top(At(s', n).left) == (if n == y then Some(x) else if Top(At(s, n).left) == Some(x) then Some(y) else Top(At(s, n).left))
      && Top(At(s', n).right) == (if n == x then b else if Top(At(s, n).right) == Some(x) then Some(y) else Top(At(s, n).right))
      && ParentOf(s', n) == (if n == x then Some(y) else if n == y then ParentOf(s, x) else if b == Some(n) then Some(x) else ParentOf(s, n))
  {
    var sub := At(s, x);
    DistinctAt(s, x);
    TurnedLinks(s, x, RotateLeft(sub), n);
    if n in Members(sub) { LeftTurnAtRoot(sub, n); }
  }

  lemma RightTurnLinks<N>(s: Shape<N>, x: N, n: N)
    requires x in Members(s) && Distinct(s) && At(s, x).left.Branch? && n in Members(s)
    ensures var sub := At(s, x);
      var y, b, s' := sub.left.node, Top(sub.left.right), Splice(s, x, RotateRight(sub));
      n in Members(s')
      && Top(At(s', n).left) == (if n == x then b else if Top(At(s, n).left) == Some(x) then Some(y) else Top(At(s, n).left))
      && Top(At(s', n).right) == (if n == y then Some(x) else if Top(At(s, n).right) == Some(x) then Some(y) else Top(At(s, n).right))
      && ParentOf(s', n) == (if n == x then Some(y) else if n == y then ParentOf(s, x) else if b == Some(n) then Some(x) else ParentOf(s, n))
  {
    var sub := At(s, x);
    DistinctAt(s, x);
    TurnedLinks(s, x, RotateRight(sub), n);
    if n in Members(sub) { RightTurnAtRoot(sub, n); }
  }

  /** The links of `n` once the subtree at `x` is rearranged into `u`. */
  lemma TurnedLinks<N>(s: Shape<N>, x: N, u: Shape<N>, n: N)
    requires x in Members(s) && Distinct(s) && Members(u) == Members(At(s, x)) && n in Members(s)
    ensures var s', sub := Splice(s, x, u), At(s, x);
      if n in Members(sub) then
        n in Members(s') && At(s', n) == At(u, n) && At(s, n) == At(sub, n)
        && ParentOf(s', n) == (if Top(u) == Some(n) then ParentOf(s, x) else ParentOf(u, n))
        && (n != x ==> ParentOf(s, n) == ParentOf(sub, n) && Top(At(s, n).left) != Some(x) && Top(At(s, n).right) != Some(x))
      else
        n in Members(s')
        && Top(At(s', n).left) == (if Top(At(s, n).left) == Some(x) then Top(u) else Top(At(s, n).left))
        && Top(At(s', n).right) == (if Top(At(s, n).right) == Some(x) then Top(u) else Top(At(s, n).right))
        && ParentOf(s', n) == ParentOf(s, n) && Top(u) != Some(n)
  {
    var sub := At(s, x);
    if n in Members(sub) {
      SpliceInside(s, x, u, n);
      LinksWithin(s, x, n);
      OnlyParentLinks(s, x);
    } else {
      SpliceOutside(s, x, u, n);
      SpliceParent(s, x, u, n);
    }
  }

  /** Taking out a node `x` with at most one child, whose subtree is `u`. */
  lemma RemovalLinks<N>(s: Shape<N>, x: N, u: Shape<N>, n: N)
    requires x in Members(s) && Distinct(s) && n in Members(s) && n != x
    requires var sub := At(s, x); (sub.left.Leaf? && u == sub.right) || (sub.right.Leaf? && u == sub.left)
    ensures var s' := Splice(s, x, u);
      n in Members(s')
      && Top(At(s', n).left) == (if Top(At(s, n).left) == Some(x) then Top(u) else Top(At(s, n).left))
      && Top(At(s', n).right) == (if Top(At(s, n).right) == Some(x) then Top(u) else Top(At(s, n).right))
      && ParentOf(s', n) == (if Top(u) == Some(n) then ParentOf(s, x) else ParentOf(s, n))
  {
    var sub := At(s, x);
    DistinctAt(s, x);
    OnlyParentLinks(s, x);
    if n in Members(sub) {
      SpliceInside(s, x, u, n);
      LinksWithin(s, x, n);
    } else {
      SpliceOutside(s, x, u, n);
      SpliceParent(s, x, u, n);
    }
  }

  // ---- Ordered trees and lookup

  /** Nothing on the left sorts after the root, nothing on the right before it. */
  ghost predicate Ordered(rule: Rule, s: Shape<Tag>) {
    s.Branch? ==>
      && Ordered(rule, s.left) && Ordered(rule, s.right)
      && (forall x :: x in Members(s.left) ==> !Before(rule, s.node, x))
      && (forall x :: x in Members(s.right) ==> !Before(rule, x, s.node))
  }

  ghost predicate Sorted(rule: Rule, tags: seq<Tag>) {
    forall i, j :: 0 <= i < j < |tags| ==> !Before(rule, tags[j], tags[i])
  }

  lemma SortedAround(rule: Rule, L: seq<Tag>, n: Tag, R: seq<Tag>)
    ensures Sorted(rule, L + [n] + R) <==>
      Sorted(rule, L) && Sorted(rule, R)
      && (forall x :: x in L ==> !Before(rule, n, x)) && (forall x :: x in R ==> !Before(rule, x, n))
  {
    var all := L + [n] + R;
    if Sorted(rule, all) {
      assert forall i :: 0 <= i < |L| ==> L[i] == all[i];
      assert forall i :: 0 <= i < |R| ==> R[i] == all[|L| + 1 + i];
      assert all[|L|] == n;
    }
    if (forall x :: x in L ==> !Before(rule, n, x)) && (forall x :: x in R ==> !Before(rule, x, n)) {
      forall x, y | x in L && y in R ensures !Before(rule, y, x) {
        TagsTransitive(rule, x, n, y);
      }
    }
  }

  /** So being ordered is a property of the in-order sequence, which no rebalancing changes. */
  lemma {:induction false} OrderedIffSorted(rule: Rule, s: Shape<Tag>)
    ensures Ordered(rule, s) <==> Sorted(rule, InOrder(s))
  {
    if s.Branch? {
      OrderedIffSorted(rule, s.left);
      OrderedIffSorted(rule, s.right);
      SortedAround(rule, InOrder(s.left), s.node, InOrder(s.right));
      forall x ensures (x in Members(s.left) <==> x in InOrder(s.left)) && (x in Members(s.right) <==> x in InOrder(s.right)) {
        MembersInOrder(s.left, x);
        MembersInOrder(s.right, x);
      }
    }
  }

  /** Whether the lookup loop, which always compares bytes first, reaches a node tagged `t`. */
  predicate Found(s: Shape<Tag>, t: Tag) {
    s.Branch? &&
    var c := CompareTags(BytesFirst, t, s.node);
    if c == 0 then true else if c < 0 then Found(s.left, t) else Found(s.right, t)
  }

  /** Lookup never invents a key. */
  lemma {:induction false} FoundIsMember(s: Shape<Tag>, t: Tag)
    requires Found(s, t)
    ensures t in Members(s)
  {
    TagsTotal(BytesFirst, t, s.node);
    var c := CompareTags(BytesFirst, t, s.node);
    if c < 0 {
      FoundIsMember(s.left, t);
    } else if c > 0 {
      FoundIsMember(s.right, t);
    }
  }

  /** In a tree kept sorted by either rule, lookup finds every key as long as the rules agree on its keys. */
  lemma {:induction false} MemberIsFound(rule: Rule, s: Shape<Tag>, t: Tag)
    requires Ordered(rule, s) && t in Members(s)
    requires rule == BytesFirst || RulesAgree(Members(s))
    ensures Found(s, t)
  {
    TagsTotal(BytesFirst, t, s.node);
    TagsTotal(rule, t, s.node);
    if t != s.node {
      if Before(BytesFirst, t, s.node) {
        MemberIsFound(rule, s.left, t);
      } else {
        MemberIsFound(rule, s.right, t);
      }
    }
  }

  /** Lookup finds every key of this tree. */
  ghost predicate FindsAll(s: Shape<Tag>) {
    forall t :: t in Members(s) ==> Found(s, t)
  }

  /** A tree over these keys that length-first insertion and rebalancing can produce. */
  ghost predicate Reachable(tags: set<Tag>, s: Shape<Tag>) {
    Members(s) <= tags && Distinct(s) && Ordered(LengthFirst, s)
  }

  /** Lookup is complete on every tree over a set of keys if and only if the two orders agree on that set. */
  lemma CompleteIffRulesAgree(tags: set<Tag>)
    ensures (forall s :: Reachable(tags, s) ==> FindsAll(s)) <==> RulesAgree(tags)
  {
    if RulesAgree(tags) {
      forall s, t | Reachable(tags, s) && t in Members(s)
        ensures Found(s, t)
      {
        MemberIsFound(LengthFirst, s, t);
      }
    } else {
      var a, b :| a in tags && b in tags && Before(LengthFirst, a, b) != Before(BytesFirst, a, b);
      TagsTotal(LengthFirst, a, b);
      TagsTotal(BytesFirst, a, b);
      var lo, hi := if Before(LengthFirst, a, b) then a else b, if Before(LengthFirst, a, b) then b else a;
      LostKey(lo, hi);
      assert Reachable(tags, Branch(Leaf, lo, Branch(Leaf, hi, Leaf)));
    }
  }

  /** Two keys on which the orders disagree: the one inserted second is never found again. */
  lemma LostKey(lo: Tag, hi: Tag)
    requires Before(LengthFirst, lo, hi) && !Before(BytesFirst, lo, hi)
    ensures var s := Branch(Leaf, lo, Branch(Leaf, hi, Leaf));
      Reachable({lo, hi}, s) && hi in Members(s) && !Found(s, hi)
  {
    TagsTotal(LengthFirst, lo, hi);
    TagsTotal(BytesFirst, lo, hi);
  }

  /** However a tree over such a pair has been built and rebalanced, lookup finds one of the two keys and not the other. */
  lemma OneIsLost(s: Shape<Tag>, lo: Tag, hi: Tag)
    requires Ordered(LengthFirst, s) && Members(s) == {lo, hi}
    requires Before(LengthFirst, lo, hi) && !Before(BytesFirst, lo, hi)
    ensures Found(s, lo) != Found(s, hi)
  {
    TagsTotal(LengthFirst, lo, hi);
    TagsTotal(BytesFirst, lo, hi);
    TagsTotal(BytesFirst, s.node, s.node);
    var other, side := if s.node == lo then hi else lo, if s.node == lo then s.left else s.right;
    if Found(side, other) {
      FoundIsMember(side, other);
      assert false;
    }
  }
}
