/** The binary search tree shared by the key-value store and the metrics, relinked in place. */
module Indexes {
  import opened Basics
  import opened Order
  import opened Shapes

  /** A shared-memory node: tree links, queue links (used by the store only), tag and payload. */
  class Node<D> {
    const tag: Tag
    var data: D
    var left: Node?<D>
    var right: Node?<D>
    var parent: Node?<D>
    var prev: Node?<D>
    var next: Node?<D>

    constructor (tag: Tag, data: D)
      ensures this.tag == tag && this.data == data
    {
      this.tag, this.data := tag, data;
      left, right, parent, prev, next := null, null, null, null, null;
    }
  }

  function Ref<D>(p: Node?<D>): Option<Node<D>> {
    if p == null then None else Some(p)
  }

  /** The links stored in `n` are those of its place in the shape. */
  ghost predicate InPlace<D>(s: Shape<Node<D>>, n: Node<D>)
    requires n in Members(s)
    reads n`left, n`right, n`parent
  {
    Ref(n.left) == Top(At(s, n).left) && Ref(n.right) == Top(At(s, n).right) && Ref(n.parent) == ParentOf(s, n)
  }

  /** The heap below `root` consists of `nodes` and has exactly the shape `s`. */
  ghost predicate Linked<D>(nodes: set<Node<D>>, s: Shape<Node<D>>, root: Node?<D>)
    reads nodes`left, nodes`right, nodes`parent
  {
    Ref(root) == Top(s) && nodes == Members(s) && forall n {:trigger InPlace(s, n)} :: n in nodes ==> InPlace(s, n)
  }

  ghost function Tags<D>(s: Shape<Node<D>>): Shape<Tag> {
    match s
    case Leaf => Leaf
    case Branch(l, n, r) => Branch(Tags(l), n.tag, Tags(r))
  }

  /** What lookup returns in a tree of this shape. */
  ghost function Find<D>(s: Shape<Node<D>>, t: Tag): (r: Option<Node<D>>)
    ensures r.Some? ==> r.value in Members(s) && r.value.tag == t
    ensures r.Some? <==> Found(Tags(s), t)
  {
    if s.Leaf? then None
    else
      TagsTotal(BytesFirst, t, s.node.tag);
      var c := CompareTags(BytesFirst, t, s.node.tag);
      if c == 0 then Some(s.node) else if c < 0 then Find(s.left, t) else Find(s.right, t)
  }

  /** A search tree for this rule: nothing on the left sorts after the root, nothing on the right before it. */
  ghost predicate SearchTree<D>(rule: Rule, s: Shape<Node<D>>) {
    s.Branch? ==>
      && SearchTree(rule, s.left) && SearchTree(rule, s.right)
      && (forall x :: x in Members(s.left) ==> !Before(rule, s.node.tag, x.tag))
      && (forall x :: x in Members(s.right) ==> !Before(rule, x.tag, s.node.tag))
  }

  lemma {:induction false} TagsOrdered<D>(rule: Rule, s: Shape<Node<D>>)
    requires SearchTree(rule, s)
    ensures Ordered(rule, Tags(s))
    ensures forall t :: t in Members(Tags(s)) <==> exists n :: n in Members(s) && n.tag == t
  {
    if s.Branch? {
      TagsOrdered(rule, s.left);
      TagsOrdered(rule, s.right);
    }
  }

  class Index<D> {
    const rule: Rule
    var root: Node?<D>
    ghost var shape: Shape<Node<D>>
    ghost var nodes: set<Node<D>>

    ghost predicate Valid()
      reads this, nodes`left, nodes`right, nodes`parent
    {
      Linked(nodes, shape, root) && Distinct(shape) && SearchTree(rule, shape)
    }

    constructor (rule: Rule)
      ensures Valid() && nodes == {} && this.rule == rule
    {
      this.rule, root, shape, nodes := rule, null, Leaf, {};
    }

    /** The descent of the lookup functions: hash first, then bytes. */
    method Lookup(t: Tag) returns (entry: Node?<D>)
      requires Valid()
      ensures Ref(entry) == Find(shape, t)
    {
      var node := root;
      ghost var sub := shape;
      while node != null
        invariant Ref(node) == Top(sub) && Members(sub) <= nodes
        invariant sub.Branch? ==> sub == At(shape, sub.node)
        invariant Find(shape, t) == Find(sub, t)
        decreases sub
      {
        assert InPlace(shape, node);
        if t.hash < node.tag.hash {
          sub, node := DescendLeft(shape, sub), node.left;
        } else if t.hash > node.tag.hash {
          sub, node := DescendRight(shape, sub), node.right;
        } else {
          var rc := Compare(t.key, node.tag.key);
          if rc == 0 {
            return node;
          }
          if rc < 0 {
            sub, node := DescendLeft(shape, sub), node.left;
          } else {
            sub, node := DescendRight(shape, sub), node.right;
          }
        }
      }
      return null;
    }

    /** ngx_rbtree_insert: the hook below, then rebalancing. */
    method Insert(node: Node<D>)
      requires Valid() && node !in nodes
      modifies this`root, this`shape, this`nodes, node`left, node`right, node`parent
      modifies nodes`left, nodes`right, nodes`parent
      ensures Valid() && nodes == old(nodes) + {node}
    {
      if root == null {
        root := node;
        node.left, node.right, node.parent := null, null, null;
        shape, nodes := Branch(Leaf, node, Leaf), {node};
      } else {
        InsertValue(root, node);
      }
      Rebalance();
    }

    /** The insert_value hooks: walk down by this tree's rule, equal keys to the right, and attach a leaf. */
    method InsertValue(start: Node<D>, node: Node<D>)
      requires Valid() && root == start && node !in nodes
      modifies this`shape, this`nodes, node`left, node`right, node`parent
      modifies nodes`left, nodes`right, nodes`parent
      ensures Valid() && nodes == old(nodes) + {node}
    {
      var temp, onLeft := Slot(start, node);
      Attach(temp, node, onLeft);
    }

    method Slot(start: Node<D>, node: Node<D>) returns (temp: Node<D>, onLeft: bool)
      requires Valid() && root == start
      ensures temp in nodes && Fits(rule, shape, temp, node)
      ensures (if onLeft then temp.left else temp.right) == null
      ensures onLeft == Before(rule, node.tag, temp.tag)
    {
      temp := start;
      while true
        invariant temp in nodes && Fits(rule, shape, temp, node)
        decreases At(shape, temp)
      {
        var rc := HookCompare(rule, node.tag, temp.tag);
        assert InPlace(shape, temp);
        var p := if rc < 0 then temp.left else temp.right;
        if p == null {
          return temp, rc < 0;
        }
        FitsBelow(rule, shape, temp, node, p);
        temp := p;
      }
    }

    method Attach(temp: Node<D>, node: Node<D>, onLeft: bool)
      requires Valid() && temp in nodes && node !in nodes
      requires (if onLeft then temp.left else temp.right) == null
      requires Fits(rule, shape, temp, node) && onLeft == Before(rule, node.tag, temp.tag)
      modifies this`shape, this`nodes, temp`left, temp`right, node`left, node`right, node`parent
      ensures Valid() && nodes == old(nodes) + {node}
    {
      hide SearchTree, Fits, Distinct, Splice, CompareTags, At, ParentOf;
      assert InPlace(shape, temp);
      ghost var u := WithLeaf(At(shape, temp), node, onLeft);
      AttachKeepsOrder(rule, shape, temp, node, onLeft);
      if onLeft {
        temp.left := node;
      } else {
        temp.right := node;
      }
      node.parent, node.left, node.right := temp, null, null;
      forall n | n in nodes - Members(At(shape, temp)) + Members(u)
        ensures Rehung(shape, temp, u, n)
      {
        assert n !in {node, temp} ==> n in nodes && old(InPlace(shape, n));
        LeafRehung(shape, temp, node, onLeft, n);
      }
      SpliceLinked(shape, temp, u, root);
      shape, nodes := Splice(shape, temp, u), nodes + {node};
    }

    // ---- nginx core: rotations, rebalancing and removal

    /** The node that `x.parent` names, if any, is the one node with a link to `x`. */
    ghost predicate SoleParent(x: Node<D>)
      reads this, nodes`left, nodes`right, x`parent
    {
      && (x.parent != null ==> x.parent in nodes && (x.parent.left == x) != (x.parent.right == x))
      && forall n :: n in nodes && n != x.parent ==> n.left != x && n.right != x
    }

    /** Who is linked to whom around `x`. */
    lemma Surroundings(x: Node<D>)
      requires Valid() && x in nodes
      ensures SoleParent(x) && (x.parent == null <==> root == x) && x.parent != x
      ensures var sub := At(shape, x);
        InPlace(shape, x)
        && (x.left != null ==>
              x.left in nodes && Some(x.left) == Top(sub.left) && x.left !in {x, x.parent, x.right}
              && InPlace(shape, x.left) && Ref(x.left.right) == Top(sub.left.right)
              && (x.left.right != null ==> x.left.right in nodes && x.left.right !in {x, x.left, x.parent}))
        && (x.right != null ==>
              x.right in nodes && Some(x.right) == Top(sub.right) && x.right !in {x, x.parent}
              && InPlace(shape, x.right) && Ref(x.right.left) == Top(sub.right.left)
              && (x.right.left != null ==> x.right.left in nodes && x.right.left !in {x, x.right, x.parent}))
    {
      assert InPlace(shape, x);
      RotationContext(shape, x);
      if x.left != null { assert InPlace(shape, x.left); }
      if x.right != null { assert InPlace(shape, x.right); }
      forall n | n in nodes && n != x.parent
        ensures n.left != x && n.right != x
      {
        assert InPlace(shape, n);
      }
      if x.parent != null { assert InPlace(shape, x.parent); }
    }

    /** Hang `c` where `x` hung below `p`, or make it the root. */
    method ReplaceChild(p: Node?<D>, x: Node<D>, c: Node?<D>)
      modifies this`root, (if p == null then {} else {p})`left, (if p == null then {} else {p})`right
      ensures root == if p == null then c else old(root)
      ensures p != null ==> p.left == if old(p.left) == x then c else old(p.left)
      ensures p != null ==> p.right == if old(p.left) == x then old(p.right) else c
    {
      if p == null {
        root := c;
      } else if p.left == x {
        p.left := c;
      } else {
        p.right := c;
      }
    }

    /** The pointer writes of a left rotation, seen from every node. */
    method TurnLeft(x: Node<D>, y: Node<D>, b: Node?<D>)
      requires SoleParent(x) && y == x.right && b == y.left && {x, y} <= nodes && (b != null ==> b in nodes)
      requires x != y && x.parent !in {x, y} && b !in {x, y} && (b != null ==> b != x.parent)
      modifies this`root, nodes`left, nodes`right, nodes`parent
      ensures root == if old(x.parent) == null then y else old(root)
      ensures forall n :: n in nodes ==>
        n.left == (if n == y then x else if old(n.left) == x then y else old(n.left))
        && n.right == (if n == x then b else if old(n.right) == x then y else old(n.right))
        && n.parent == (if n == x then y else if n == y then old(x.parent) else if n == b then x else old(n.parent))
    {
      x.right := b;
      if b != null {
        b.parent := x;
      }
      y.parent := x.parent;
      ReplaceChild(x.parent, x, y);
      y.left := x;
      x.parent := y;
    }

    method LeftRotate(x: Node<D>)
      requires Valid() && x in nodes && x.right != null
      modifies this`root, this`shape, nodes`left, nodes`right, nodes`parent
      ensures Valid() && InOrder(shape) == old(InOrder(shape))
    {
      hide SearchTree, Distinct, Splice, At, Members;
      Surroundings(x);
      TurnLeft(x, x.right, x.right.left);
      forall n | n in nodes
        ensures LeftTurned(shape, x, n)
      {
        assert old(InPlace(shape, n));
      }
      LeftTurnedLinked(rule, nodes, shape, x, root);
      shape := Splice(shape, x, RotateLeft(At(shape, x)));
    }

    /** The pointer writes of a right rotation, seen from every node. */
    method TurnRight(x: Node<D>, y: Node<D>, b: Node?<D>)
      requires SoleParent(x) && y == x.left && b == y.right && {x, y} <= nodes && (b != null ==> b in nodes)
      requires x != y && x.parent !in {x, y} && b !in {x, y} && (b != null ==> b != x.parent)
      modifies this`root, nodes`left, nodes`right, nodes`parent
      ensures root == if old(x.parent) == null then y else old(root)
      ensures forall n :: n in nodes ==>
        n.right == (if n == y then x else if old(n.right) == x then y else old(n.right))
        && n.left == (if n == x then b else if old(n.left) == x then y else old(n.left))
        && n.parent == (if n == x then y else if n == y then old(x.parent) else if n == b then x else old(n.parent))
    {
      x.left := b;
      if b != null {
        b.parent := x;
      }
      y.parent := x.parent;
      ReplaceChild(x.parent, x, y);
      y.right := x;
      x.parent := y;
    }

    method RightRotate(x: Node<D>)
      requires Valid() && x in nodes && x.left != null
      modifies this`root, this`shape, nodes`left, nodes`right, nodes`parent
      ensures Valid() && InOrder(shape) == old(InOrder(shape))
      ensures At(shape, x).left < old(At(shape, x).left)
    {
      hide SearchTree, Distinct, Splice, At, Members;
      Surroundings(x);
      TurnRight(x, x.left, x.left.right);
      forall n | n in nodes
        ensures RightTurned(shape, x, n)
      {
        assert old(InPlace(shape, n));
      }
      RightTurnedLinked(rule, nodes, shape, x, root);
      shape := Splice(shape, x, RotateRight(At(shape, x)));
    }

    /** Rebalancing, whatever its colours: any number of rotations anywhere. */
    method Rebalance()
      requires Valid()
      modifies this`root, this`shape, nodes`left, nodes`right, nodes`parent
      ensures Valid() && InOrder(shape) == old(InOrder(shape))
    {
      var turns: nat := *;
      while turns > 0
        invariant Valid() && nodes == old(nodes) && InOrder(shape) == old(InOrder(shape))
      {
        var path: seq<bool> := *;
        var leftwards: bool := *;
        var x := Walk(path);
        if x != null && leftwards && x.right != null {
          LeftRotate(x);
        } else if x != null && !leftwards && x.left != null {
          RightRotate(x);
        }
        turns := turns - 1;
      }
    }

    method Walk(path: seq<bool>) returns (x: Node?<D>)
      requires Valid()
      ensures x != null ==> x in nodes
    {
      x := root;
      for i := 0 to |path|
        invariant x != null ==> x in nodes
      {
        if x == null {
          return;
        }
        assert InPlace(shape, x);
        RotationContext(shape, x);
        x := if path[i] then x.left else x.right;
      }
    }

    /** The contract of ngx_rbtree_delete: exactly this node leaves the tree. */
    method Delete(x: Node<D>)
      requires Valid() && x in nodes
      modifies this`root, this`shape, this`nodes, nodes`left, nodes`right, nodes`parent
      ensures Valid() && nodes == old(nodes) - {x}
    {
      assert InPlace(shape, x);
      while x.left != null && x.right != null
        invariant Valid() && nodes == old(nodes)
        decreases At(shape, x).left
      {
        RightRotate(x);
      }
      Unlink(x);
      Rebalance();
    }

    /** The pointer writes that take out a node with at most one child `c`, seen from every other node. */
    method Bypass(x: Node<D>, c: Node?<D>)
      requires SoleParent(x) && x in nodes && (c != null ==> c in nodes) && (c != null ==> c !in {x, x.parent}) && x.parent != x
      modifies this`root, nodes`left, nodes`right, nodes`parent
      ensures root == if old(x.parent) == null then c else old(root)
      ensures forall n :: n in nodes && n != x ==>
        n.left == (if old(n.left) == x then c else old(n.left))
        && n.right == (if old(n.right) == x then c else old(n.right))
        && n.parent == (if n == c then old(x.parent) else old(n.parent))
    {
      ReplaceChild(x.parent, x, c);
      if c != null {
        c.parent := x.parent;
      }
    }

    method Unlink(x: Node<D>)
      requires Valid() && x in nodes && (x.left == null || x.right == null)
      modifies this`root, this`shape, this`nodes, nodes`left, nodes`right, nodes`parent
      ensures Valid() && nodes == old(nodes) - {x}
    {
      hide SearchTree, Distinct, Splice, At, Members;
      Surroundings(x);
      ghost var u := if x.left == null then At(shape, x).right else At(shape, x).left;
      ghost var s' := Splice(shape, x, u);
      RemovalKeepsTree(rule, shape, x, u);
      Bypass(x, if x.left == null then x.right else x.left);
      forall n | n in nodes - {x}
        ensures InPlace(s', n)
      {
        assert old(InPlace(shape, n));
        RemovalLinks(shape, x, u, n);
      }
      assert Linked(nodes - {x}, s', root);
      shape, nodes := s', nodes - {x};
    }
  }

  // ---- Where a new node belongs

  /** The comparison of the insert_value hooks; only the store's hook looks at the key lengths. */
  function HookCompare(rule: Rule, n: Tag, t: Tag): (rc: int)
    ensures rc == CompareTags(rule, n, t)
  {
    if n.hash < t.hash then -1
    else if n.hash > t.hash then 1
    else if rule == LengthFirst && |n.key| < |t.key| then -1
    else if rule == LengthFirst && |n.key| > |t.key| then 1
    else Compare(n.key, t.key)
  }

  /** `x` may stand below `t`: it is on the right side of every node on the way down. */
  ghost predicate Fits<D>(rule: Rule, s: Shape<Node<D>>, t: Node<D>, x: Node<D>)
    requires t in Members(s)
  {
    if s.node == t then true
    else if t in Members(s.left) then !Before(rule, s.node.tag, x.tag) && Fits(rule, s.left, t, x)
    else !Before(rule, x.tag, s.node.tag) && Fits(rule, s.right, t, x)
  }

  lemma {:induction false} FitsBelow<D>(rule: Rule, s: Shape<Node<D>>, t: Node<D>, x: Node<D>, c: Node<D>)
    requires t in Members(s) && Distinct(s) && Fits(rule, s, t, x)
    requires Some(c) == Top(if Before(rule, x.tag, t.tag) then At(s, t).left else At(s, t).right)
    ensures c in Members(s) && Fits(rule, s, c, x) && (At(s, t) decreases to At(s, c))
  {
    if s.node == t {
      TagsTotal(rule, x.tag, t.tag);
    } else if t in Members(s.left) {
      FitsBelow(rule, s.left, t, x, c);
    } else {
      FitsBelow(rule, s.right, t, x, c);
    }
  }

  /** A search tree stays one when the subtree at `t` is replaced by another whose nodes belong there. */
  lemma {:induction false} SpliceOrdered<D>(rule: Rule, s: Shape<Node<D>>, t: Node<D>, u: Shape<Node<D>>)
    requires t in Members(s) && Distinct(s) && SearchTree(rule, s) && SearchTree(rule, u) && Distinct(u)
    requires Members(u) !! (Members(s) - Members(At(s, t)))
    requires forall x :: x in Members(u) ==> x in Members(At(s, t)) || Fits(rule, s, t, x)
    ensures SearchTree(rule, Splice(s, t, u))
  {
    if s.node == t {
    } else if t in Members(s.left) {
      SpliceOrdered(rule, s.left, t, u);
      SpliceMembers(s.left, t, u);
    } else {
      SpliceOrdered(rule, s.right, t, u);
      SpliceMembers(s.right, t, u);
    }
  }

  lemma {:induction false} SearchTreeAt<D>(rule: Rule, s: Shape<Node<D>>, t: Node<D>)
    requires t in Members(s) && SearchTree(rule, s)
    ensures SearchTree(rule, At(s, t))
  {
    if s.node == t {
    } else if t in Members(s.left) {
      SearchTreeAt(rule, s.left, t);
    } else {
      SearchTreeAt(rule, s.right, t);
    }
  }

  /** Who is linked to whom around `x`, before a rotation. */
  lemma RotationContext<D>(s: Shape<Node<D>>, x: Node<D>)
    requires x in Members(s) && Distinct(s)
    ensures Members(At(s, x)) <= Members(s) && Distinct(At(s, x))
    ensures ParentOf(s, x).None? <==> Top(s) == Some(x)
    ensures ParentOf(s, x).Some? ==> ParentOf(s, x).value in Members(s) - Members(At(s, x))
    ensures forall n :: n in Members(s) ==>
      (ParentOf(s, x) == Some(n) <==> Some(x) in {Top(At(s, n).left), Top(At(s, n).right)})
      && (Top(At(s, n).left) == Some(x) ==> Top(At(s, n).right) != Some(x))
    ensures var l := At(s, x).left; l.Branch? ==> l.node in Members(s) && At(s, l.node) == l
    ensures var r := At(s, x).right; r.Branch? ==> r.node in Members(s) && At(s, r.node) == r
  {
    DistinctAt(s, x);
    OnlyParentLinks(s, x);
    ChildAt(s, x);
  }

  lemma RotationKeepsTree<D>(rule: Rule, s: Shape<Node<D>>, x: Node<D>, u: Shape<Node<D>>)
    requires x in Members(s) && Distinct(s) && SearchTree(rule, s)
    requires var sub := At(s, x);
      (sub.right.Branch? && u == RotateLeft(sub)) || (sub.left.Branch? && u == RotateRight(sub))
    ensures Distinct(u) && Members(u) == Members(At(s, x))
    ensures Distinct(Splice(s, x, u)) && Members(Splice(s, x, u)) == Members(s)
    ensures SearchTree(rule, Splice(s, x, u)) && InOrder(Splice(s, x, u)) == InOrder(s)
    ensures At(Splice(s, x, u), x) == At(u, x)
    ensures Top(Splice(s, x, u)) == if Top(s) == Some(x) then Top(u) else Top(s)
  {
    var sub := At(s, x);
    DistinctAt(s, x);
    SearchTreeAt(rule, s, x);
    RotatedTree(rule, sub, u);
    RotationsKeepOrder(sub);
    SpliceMembers(s, x, u);
    SpliceOrdered(rule, s, x, u);
    SpliceInOrder(s, x, u);
    SpliceInside(s, x, u, x);
  }

  lemma RotatedTree<D>(rule: Rule, sub: Shape<Node<D>>, u: Shape<Node<D>>)
    requires sub.Branch? && Distinct(sub) && SearchTree(rule, sub)
    requires (sub.right.Branch? && u == RotateLeft(sub)) || (sub.left.Branch? && u == RotateRight(sub))
    ensures Distinct(u) && Members(u) == Members(sub) && SearchTree(rule, u)
  {
    var x, y := sub.node, u.node;
    if sub.right.Branch? && u == RotateLeft(sub) {
      forall n | n in Members(sub.left) ensures !Before(rule, y.tag, n.tag) {
        TagsTransitive(rule, n.tag, x.tag, y.tag);
      }
    } else {
      forall n | n in Members(sub.right) ensures !Before(rule, n.tag, y.tag) {
        TagsTransitive(rule, y.tag, x.tag, n.tag);
      }
    }
  }

  lemma RemovalKeepsTree<D>(rule: Rule, s: Shape<Node<D>>, x: Node<D>, u: Shape<Node<D>>)
    requires x in Members(s) && Distinct(s) && SearchTree(rule, s)
    requires var sub := At(s, x); (sub.left.Leaf? && u == sub.right) || (sub.right.Leaf? && u == sub.left)
    ensures Distinct(Splice(s, x, u)) && Members(Splice(s, x, u)) == Members(s) - {x}
    ensures SearchTree(rule, Splice(s, x, u)) && Top(Splice(s, x, u)) == if Top(s) == Some(x) then Top(u) else Top(s)
  {
    DistinctAt(s, x);
    SearchTreeAt(rule, s, x);
    SpliceMembers(s, x, u);
    SpliceOrdered(rule, s, x, u);
    forall n | n in Members(Splice(s, x, u)) ensures n in Members(s) - {x} {}
  }

  /** The links of `n` after a left rotation at `x` in a heap of shape `s`. */
  ghost predicate LeftTurned<D>(s: Shape<Node<D>>, x: Node<D>, n: Node<D>)
    requires x in Members(s) && n in Members(s) && At(s, x).right.Branch?
    reads n`left, n`right, n`parent
  {
    var sub := At(s, x);
    var y, b := sub.right.node, Top(sub.right.left);
    && Ref(n.left) == (if n == y then Some(x) else if Top(At(s, n).left) == Some(x) then Some(y) else Top(At(s, n).left))
    && Ref(n.right) == (if n == x then b else if Top(At(s, n).right) == Some(x) then Some(y) else Top(At(s, n).right))
    && Ref(n.parent) == (if n == x then Some(y) else if n == y then ParentOf(s, x) else if b == Some(n) then Some(x) else ParentOf(s, n))
  }

  lemma LeftTurnedLinked<D>(rule: Rule, nodes: set<Node<D>>, s: Shape<Node<D>>, x: Node<D>, root: Node?<D>)
    requires nodes == Members(s) && Distinct(s) && SearchTree(rule, s) && x in nodes && At(s, x).right.Branch?
    requires Ref(root) == if Top(s) == Some(x) then Top(At(s, x).right) else Top(s)
    requires forall n {:trigger LeftTurned(s, x, n)} :: n in nodes ==> LeftTurned(s, x, n)
    ensures var s' := Splice(s, x, RotateLeft(At(s, x)));
      Linked(nodes, s', root) && Distinct(s') && SearchTree(rule, s') && InOrder(s') == InOrder(s)
  {
    var s' := Splice(s, x, RotateLeft(At(s, x)));
    RotationKeepsTree(rule, s, x, RotateLeft(At(s, x)));
    forall n | n in nodes
      ensures InPlace(s', n)
    {
      assert LeftTurned(s, x, n);
      LeftTurnLinks(s, x, n);
    }
  }

  /** The links of `n` after a right rotation at `x` in a heap of shape `s`. */
  ghost predicate RightTurned<D>(s: Shape<Node<D>>, x: Node<D>, n: Node<D>)
    requires x in Members(s) && n in Members(s) && At(s, x).left.Branch?
    reads n`left, n`right, n`parent
  {
    var sub := At(s, x);
    var y, b := sub.left.node, Top(sub.left.right);
    && Ref(n.right) == (if n == y then Some(x) else if Top(At(s, n).right) == Some(x) then Some(y) else Top(At(s, n).right))
    && Ref(n.left) == (if n == x then b else if Top(At(s, n).left) == Some(x) then Some(y) else Top(At(s, n).left))
    && Ref(n.parent) == (if n == x then Some(y) else if n == y then ParentOf(s, x) else if b == Some(n) then Some(x) else ParentOf(s, n))
  }

  lemma RightTurnedLinked<D>(rule: Rule, nodes: set<Node<D>>, s: Shape<Node<D>>, x: Node<D>, root: Node?<D>)
    requires nodes == Members(s) && Distinct(s) && SearchTree(rule, s) && x in nodes && At(s, x).left.Branch?
    requires Ref(root) == if Top(s) == Some(x) then Top(At(s, x).left) else Top(s)
    requires forall n {:trigger RightTurned(s, x, n)} :: n in nodes ==> RightTurned(s, x, n)
    ensures var s' := Splice(s, x, RotateRight(At(s, x)));
      Linked(nodes, s', root) && Distinct(s') && SearchTree(rule, s') && InOrder(s') == InOrder(s)
      && At(s', x).left == At(s, x).left.right
  {
    var s' := Splice(s, x, RotateRight(At(s, x)));
    RotationKeepsTree(rule, s, x, RotateRight(At(s, x)));
    forall n | n in nodes
      ensures InPlace(s', n)
    {
      assert RightTurned(s, x, n);
      RightTurnLinks(s, x, n);
    }
  }

  ghost function WithLeaf<D>(s: Shape<Node<D>>, node: Node<D>, onLeft: bool): Shape<Node<D>>
    requires s.Branch?
  {
    var leaf := Branch(Leaf, node, Leaf);
    if onLeft then Branch(leaf, s.node, s.right) else Branch(s.left, s.node, leaf)
  }

  /** `node` hangs below `t` on one side; the other links of `t` are still those of the shape. */
  ghost predicate Leafed<D>(s: Shape<Node<D>>, t: Node<D>, node: Node<D>, onLeft: bool)
    requires t in Members(s)
    reads t`left, t`right, t`parent, node`left, node`right, node`parent
  {
    && node.left == null && node.right == null && node.parent == t && Ref(t.parent) == ParentOf(s, t)
    && Ref(t.left) == (if onLeft then Some(node) else Top(At(s, t).left))
    && Ref(t.right) == (if onLeft then Top(At(s, t).right) else Some(node))
  }

  lemma LeafRehung<D>(s: Shape<Node<D>>, t: Node<D>, node: Node<D>, onLeft: bool, n: Node<D>)
    requires t in Members(s) && node !in Members(s) && Distinct(s) && Leafed(s, t, node, onLeft)
    requires (if onLeft then At(s, t).left else At(s, t).right).Leaf?
    requires n in Members(s) - Members(At(s, t)) + Members(WithLeaf(At(s, t), node, onLeft))
    requires n != node ==> n in Members(s) && (n != t ==> InPlace(s, n))
    ensures Rehung(s, t, WithLeaf(At(s, t), node, onLeft), n)
  {
    DistinctAt(s, t);
    if n in Members(At(s, t)) {
      LinksWithin(s, t, n);
    }
  }

  lemma AttachKeepsOrder<D>(rule: Rule, s: Shape<Node<D>>, t: Node<D>, node: Node<D>, onLeft: bool)
    requires t in Members(s) && Distinct(s) && SearchTree(rule, s) && node !in Members(s)
    requires Fits(rule, s, t, node) && onLeft == Before(rule, node.tag, t.tag)
    requires (if onLeft then At(s, t).left else At(s, t).right).Leaf?
    ensures var u := WithLeaf(At(s, t), node, onLeft);
      Distinct(u) && Members(u) == Members(At(s, t)) + {node}
      && Distinct(Splice(s, t, u)) && Members(Splice(s, t, u)) == Members(s) + {node}
      && SearchTree(rule, Splice(s, t, u))
  {
    var u := WithLeaf(At(s, t), node, onLeft);
    DistinctAt(s, t);
    SearchTreeAt(rule, s, t);
    SpliceMembers(s, t, u);
    TagsTotal(rule, node.tag, t.tag);
    SpliceOrdered(rule, s, t, u);
  }

  // ---- Surgery on a linked tree

  /** What the heap must look like around the place where the subtree at `t` gave way to `u`. */
  ghost predicate Rehung<D>(s: Shape<Node<D>>, t: Node<D>, u: Shape<Node<D>>, n: Node<D>)
    requires t in Members(s) && n in Members(s) - Members(At(s, t)) + Members(u)
    reads n`left, n`right, n`parent
  {
    if n in Members(u) then
      Ref(n.left) == Top(At(u, n).left) && Ref(n.right) == Top(At(u, n).right)
      && Ref(n.parent) == if Top(u) == Some(n) then ParentOf(s, t) else ParentOf(u, n)
    else
      Ref(n.left) == (if Top(At(s, n).left) == Some(t) then Top(u) else Top(At(s, n).left))
      && Ref(n.right) == (if Top(At(s, n).right) == Some(t) then Top(u) else Top(At(s, n).right))
      && Ref(n.parent) == ParentOf(s, n)
  }

  lemma SpliceLinked<D>(s: Shape<Node<D>>, t: Node<D>, u: Shape<Node<D>>, root: Node?<D>)
    requires t in Members(s) && Distinct(s) && Distinct(u)
    requires Members(u) !! (Members(s) - Members(At(s, t)))
    requires Ref(root) == if Top(s) == Some(t) then Top(u) else Top(s)
    requires forall n {:trigger Rehung(s, t, u, n)} :: n in Members(s) - Members(At(s, t)) + Members(u) ==> Rehung(s, t, u, n)
    ensures Linked(Members(Splice(s, t, u)), Splice(s, t, u), root)
  {
    SpliceMembers(s, t, u);
    forall n | n in Members(Splice(s, t, u))
      ensures InPlace(Splice(s, t, u), n)
    {
      assert Rehung(s, t, u, n);
      if n in Members(u) {
        SpliceInside(s, t, u, n);
      } else {
        SpliceOutside(s, t, u, n);
        SpliceParent(s, t, u, n);
      }
    }
  }

  ghost function DescendLeft<D>(s: Shape<Node<D>>, sub: Shape<Node<D>>): (l: Shape<Node<D>>)
    requires sub.Branch? && sub.node in Members(s) && sub == At(s, sub.node) && Distinct(s)
    ensures l == sub.left && Members(l) <= Members(s) && (l.Branch? ==> l == At(s, l.node))
  {
    ChildAt(s, sub.node);
    sub.left
  }

  ghost function DescendRight<D>(s: Shape<Node<D>>, sub: Shape<Node<D>>): (r: Shape<Node<D>>)
    requires sub.Branch? && sub.node in Members(s) && sub == At(s, sub.node) && Distinct(s)
    ensures r == sub.right && Members(r) <= Members(s) && (r.Branch? ==> r == At(s, r.node))
  {
    ChildAt(s, sub.node);
    sub.right
  }
}
