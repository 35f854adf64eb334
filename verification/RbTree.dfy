/** nginx/src/core/ngx_rbtree.c: the red-black tree with parent pointers and one shared
    sentinel in place of every leaf; rotations and insertion. */
module RbTree {
  import opened RbShape
  import opened RbRules

  class Tree {
    var root: Node
    const sentinel: Node
    ghost var shape: Shape
    ghost var repr: set<Node>     // the nodes in the tree
    ghost var above: Node?        // what the parent field of the root holds

    constructor (s: Node)
      modifies s
      ensures sentinel == s && shape == Leaf && Valid()
    {
      sentinel := s;
      root := s;
      shape := Leaf;
      repr := {};
      above := null;
      new;
      s.red := false;
      assert Balanced(Leaf, 0);
    }

    /** Memory holds subtree t in the hole of path p, and together they are the
        whole tree. */
    ghost predicate Located(t: Shape, p: Path)
      reads `root, `repr, `above, repr
    {
      LocatedIn(t, p, sentinel, View(repr)) && root == TopOf(p, RootOf(t, sentinel)) && Crowned()
    }

    ghost predicate Crowned()
      reads `root, `repr, `above, repr
    {
      root in repr ==> root.parent == above
    }

    /** There is nothing above the root, as its parent field says. */
    ghost predicate RootFree()
      reads `root, root
    {
      root == sentinel || root.parent == null
    }

    ghost predicate Valid()
      reads this, sentinel, repr
    {
      && Located(shape, Top)
      && RedBlack(shape)
      && Sorted(Order(shape), KeysOf(repr))
      && !sentinel.red
    }

    // ----- moving the point of view -----

    lemma ZoomLeft(t: Shape, p: Path)
      requires Located(t, p) && t.Bin?
      ensures Located(t.l, Lft(p, t.n, t.red, t.r))
    {
    }

    lemma ZoomRight(t: Shape, p: Path)
      requires Located(t, p) && t.Bin?
      ensures Located(t.r, Rgt(p, t.l, t.n, t.red))
    {
    }

    lemma ZoomOut(t: Shape, p: Path)
      requires Located(t, p) && p != Top
      ensures Located(Up(t, p), p.up)
    {
    }

    lemma {:induction false} ZoomAllOut(t: Shape, p: Path)
      requires Located(t, p)
      ensures Located(Plug(p, t), Top)
      decreases p
    {
      if p != Top {
        ZoomOut(t, p);
        ZoomAllOut(Up(t, p), p.up);
      }
    }

    /** The root of the whole tree is not further down. */
    lemma RootApart(t: Shape, p: Path)
      requires Located(t, p) && p != Top
      ensures root in repr && root in PathNodes(p) && root !in Nodes(t)
    {
      TopOfPath(p, RootOf(t, sentinel));
    }

    lemma RootAbove(t: Shape, p: Path)
      requires Located(t, p) && p != Top && t.Bin?
      ensures t.r.Bin? ==> root != t.r.n && root != RootOf(t.r.l, sentinel)
      ensures t.l.Bin? ==> root != t.l.n && root != RootOf(t.l.r, sentinel)
    {
      RootApart(t, p);
      assert t.r.Bin? && t.r.l.Bin? ==> t.r.l.n in Nodes(t.r.l) && t.r.l.n in Nodes(t.r) && t.r.l.n in Nodes(t);
      assert t.l.Bin? && t.l.r.Bin? ==> t.l.r.n in Nodes(t.l.r) && t.l.r.n in Nodes(t.l) && t.l.r.n in Nodes(t);
    }

    // ----- primitive updates -----

    /** ngx_rbt_red and ngx_rbt_black */
    method Paint(node: Node, red: bool, ghost t: Shape, ghost p: Path)
      requires Located(t, p) && t.Bin? && t.n == node
      modifies node`red
      ensures Located(t.(red := red), p)
    {
      ghost var m := View(repr);
      Painted(t, p, sentinel, red, m);
      node.red := red;
      assert View(repr) == m[node := m[node].(red := red)];
    }

    method PaintLeft(node: Node, red: bool, ghost t: Shape, ghost p: Path)
      requires Located(t, p) && t.Bin? && t.l.Bin? && t.l.n == node
      modifies node`red
      ensures Located(t.(l := t.l.(red := red)), p)
    {
      ghost var q := Lft(p, t.n, t.red, t.r);
      ZoomLeft(t, p);
      Paint(node, red, t.l, q);
      ZoomOut(t.l.(red := red), q);
    }

    method PaintRight(node: Node, red: bool, ghost t: Shape, ghost p: Path)
      requires Located(t, p) && t.Bin? && t.r.Bin? && t.r.n == node
      modifies node`red
      ensures Located(t.(r := t.r.(red := red)), p)
    {
      ghost var q := Rgt(p, t.l, t.n, t.red);
      ZoomRight(t, p);
      Paint(node, red, t.r, q);
      ZoomOut(t.r.(red := red), q);
    }

    method LeftTurn(node: Node)
      requires node in repr && sentinel !in repr
      requires node.right != null && node.right in repr && node.right != node
      requires node.right.left != null && node.right.left != node && node.right.left != node.right
      requires node.right.left == sentinel || node.right.left in repr
      requires node != root ==> node.parent != null && node.parent in repr
      requires node != root ==> node.parent != node && node.parent != node.right && node.parent != node.right.left
      requires node != root ==> root != node.right && root != node.right.left
      modifies this`root, repr`left, repr`right, repr`parent
      ensures TurnedLeft(old(View(repr)), View(repr), node, old(node.right), old(node.right.left), old(node.parent), sentinel, node == old(root))
      ensures root == (if node == old(root) then old(node.right) else old(root)) && root.parent == old(root.parent)
    {
      var temp := node.right;
      node.right := temp.left;
      if temp.left != sentinel {
        temp.left.parent := node;
      }
      temp.parent := node.parent;
      if node == root {
        root := temp;
      } else if node == node.parent.left {
        node.parent.left := temp;
      } else {
        node.parent.right := temp;
      }
      temp.left := node;
      node.parent := temp;
    }

    method LeftRotate(node: Node, ghost t: Shape, ghost p: Path)
      requires Located(t, p) && t.Bin? && t.n == node && t.r.Bin?
      modifies this`root, repr`left, repr`right, repr`parent
      ensures Located(RotatedLeft(t), p)
    {
      ghost var m := View(repr);
      LeftReady(t, p, sentinel, m);
      if p != Top {
        RootApart(t, p);
        RootAbove(t, p);
      }
      assert Linked(t.r, node, sentinel, m);
      LeftTurn(node);
      LeftRotated(t, p, sentinel, m, View(repr));
    }

    method RightTurn(node: Node)
      requires node in repr && sentinel !in repr
      requires node.left != null && node.left in repr && node.left != node
      requires node.left.right != null && node.left.right != node && node.left.right != node.left
      requires node.left.right == sentinel || node.left.right in repr
      requires node != root ==> node.parent != null && node.parent in repr
      requires node != root ==> node.parent != node && node.parent != node.left && node.parent != node.left.right
      requires node != root ==> root != node.left && root != node.left.right
      modifies this`root, repr`right, repr`left, repr`parent
      ensures TurnedRight(old(View(repr)), View(repr), node, old(node.left), old(node.left.right), old(node.parent), sentinel, node == old(root))
      ensures root == (if node == old(root) then old(node.left) else old(root)) && root.parent == old(root.parent)
    {
      var temp := node.left;
      node.left := temp.right;
      if temp.right != sentinel {
        temp.right.parent := node;
      }
      temp.parent := node.parent;
      if node == root {
        root := temp;
      } else if node == node.parent.right {
        node.parent.right := temp;
      } else {
        node.parent.left := temp;
      }
      temp.right := node;
      node.parent := temp;
    }

    method RightRotate(node: Node, ghost t: Shape, ghost p: Path)
      requires Located(t, p) && t.Bin? && t.n == node && t.l.Bin?
      modifies this`root, repr`right, repr`left, repr`parent
      ensures Located(RotatedRight(t), p)
    {
      ghost var m := View(repr);
      RightReady(t, p, sentinel, m);
      if p != Top {
        RootApart(t, p);
        RootAbove(t, p);
      }
      assert Linked(t.l, node, sentinel, m);
      RightTurn(node);
      RightRotated(t, p, sentinel, m, View(repr));
    }

    // ----- insertion -----

    /** One step down, towards the place after every key that is not greater. */
    lemma StepDown(t: Shape, p: Path, key: nat) returns (t': Shape, p': Path)
      requires Located(t, p) && t.Bin? && Plug(p, t) == shape
      requires Sorted(Order(shape), KeysOf(repr)) && Between(p, key, KeysOf(repr))
      ensures p' == if key < t.n.key then Lft(p, t.n, t.red, t.r) else Rgt(p, t.l, t.n, t.red)
      ensures t' == if key < t.n.key then t.l else t.r
      ensures Located(t', p') && Plug(p', t') == shape && Between(p', key, KeysOf(repr))
    {
      StepBetween(t, p, key, KeysOf(repr));
      if key < t.n.key {
        ZoomLeft(t, p);
        t', p' := t.l, Lft(p, t.n, t.red, t.r);
      } else {
        ZoomRight(t, p);
        t', p' := t.r, Rgt(p, t.l, t.n, t.red);
      }
    }

    /** The search loop of ngx_rbtree_insert_value. */
    method FindPlace(key: nat) returns (temp: Node, goLeft: bool, ghost p: Path)
      requires Valid() && shape.Bin?
      ensures Valid() && Located(Leaf, p) && Plug(p, Leaf) == shape && Between(p, key, KeysOf(repr))
      ensures p != Top && temp == p.n && goLeft == p.Lft?
    {
      temp := root;
      ghost var t := shape;
      p := Top;
      while true
        invariant Located(t, p) && t.Bin? && t.n == temp
        invariant Plug(p, t) == shape && Between(p, key, KeysOf(repr)) && Valid()
        decreases t
      {
        goLeft := key < temp.key;
        var next := if goLeft then temp.left else temp.right;
        t, p := StepDown(t, p, key);
        if next == sentinel {
          break;
        }
        temp := next;
      }
    }

    method HangWrites(node: Node, temp: Node, goLeft: bool)
      requires temp in repr && node !in repr && root in repr
      modifies this`repr, temp`left, temp`right, node`left, node`right, node`parent, node`red
      ensures repr == old(repr) + {node} && root.parent == old(root.parent)
      ensures var m, m' := old(View(repr)), View(repr);
        && m'.Keys == m.Keys + {node} && m'[node] == Cell(sentinel, sentinel, temp, true)
        && m'[temp] == (if goLeft then m[temp].(left := node) else m[temp].(right := node))
        && forall x <- m :: x != temp ==> m'[x] == m[x]
    {
      if goLeft {
        temp.left := node;
      } else {
        temp.right := node;
      }
      node.parent := temp;
      node.left := sentinel;
      node.right := sentinel;
      node.red := true;
      repr := repr + {node};
    }

    /** The rest of ngx_rbtree_insert_value. */
    method Hang(node: Node, temp: Node, goLeft: bool, ghost p: Path)
      requires Located(Leaf, p) && p != Top && temp == p.n && goLeft == p.Lft?
      requires node !in repr && node != sentinel
      modifies this`repr, temp`left, temp`right, node`left, node`right, node`parent, node`red
      ensures repr == old(repr) + {node}
      ensures Located(Bin(Leaf, node, true, Leaf), p)
    {
      ghost var m := View(repr);
      RootApart(Leaf, p);
      HangWrites(node, temp, goLeft);
      Attached(p, node, sentinel, m, View(repr));
    }
  
    // ----- rebalancing after an insertion -----

    /** Parent and uncle red: push the redness up to the grandparent. */
    method Recolor(left: Node, right: Node, grand: Node, ghost t: Shape, ghost p: Path)
      requires Located(t, p) && t.Bin? && t.n == grand
      requires t.l.Bin? && t.l.n == left && t.r.Bin? && t.r.n == right
      modifies left`red, right`red, grand`red
      ensures Located(Bin(t.l.(red := false), t.n, true, t.r.(red := false)), p)
    {
      PaintLeft(left, false, t, p);
      PaintRight(right, false, t.(l := t.l.(red := false)), p);
      Paint(grand, true, Bin(t.l.(red := false), t.n, t.red, t.r.(red := false)), p);
    }

    /** The last rotation of the left-hand case. */
    method SpinRight(parent: Node, grand: Node, ghost t: Shape, ghost p: Path)
      requires Located(t, p) && t.Bin? && t.n == grand && t.l.Bin? && t.l.n == parent
      modifies this`root, repr`left, repr`right, repr`parent, parent`red, grand`red
      ensures Located(t.l.l, Lft(p, t.l.n, false, Bin(t.l.r, t.n, true, t.r)))
    {
      ghost var u := Bin(t.l.(red := false), t.n, true, t.r);
      PaintLeft(parent, false, t, p);
      Paint(grand, true, t.(l := t.l.(red := false)), p);
      RightRotate(grand, u, p);
      ZoomLeft(RotatedRight(u), p);
    }

    method SpinLeft(parent: Node, grand: Node, ghost t: Shape, ghost p: Path)
      requires Located(t, p) && t.Bin? && t.n == grand && t.r.Bin? && t.r.n == parent
      modifies this`root, repr`left, repr`right, repr`parent, parent`red, grand`red
      ensures Located(t.r.r, Rgt(p, Bin(t.l, t.n, true, t.r.l), t.r.n, false))
    {
      ghost var u := Bin(t.l, t.n, true, t.r.(red := false));
      PaintRight(parent, false, t, p);
      Paint(grand, true, t.(r := t.r.(red := false)), p);
      LeftRotate(grand, u, p);
      ZoomRight(RotatedLeft(u), p);
    }
  
    /** What the fields around the node at t say. */
    lemma Kin(t: Shape, p: Path)
      requires Located(t, p) && t.Bin? && p != Top
      ensures t.n != root && t.n.parent == p.n && p.n.red == p.red && p.n in repr
      ensures p.n.left == (if p.Lft? then t.n else RootOf(p.l, sentinel))
      ensures p.n.right == (if p.Lft? then RootOf(p.r, sentinel) else t.n)
      ensures p.Lft? <==> p.n.left == t.n
      ensures Sibling(p).Bin? ==> Sibling(p).n in repr && Sibling(p).n.red == Sibling(p).red
      ensures t.n != sentinel && p.n != sentinel
    {
      TopOfPath(p, t.n);
      assert t.n in Nodes(t) && p.n in PathNodes(p);
      var q := Sibling(p);
      assert Linked(q, p.n, sentinel, View(repr));
      assert q.Bin? ==> q.n in Nodes(q) && q.n in PathNodes(p);
    }

    /** The inner case: a right child of a left child becomes a left child. */
    method StraightenLeft(node: Node, ghost t: Shape, ghost p: Path, ghost h: int)
        returns (node': Node, ghost t': Shape, ghost p': Path)
      requires Located(t, p) && Rising(t, p, h) && t.n == node && PathIsRed(p) && p.up.Lft?
      modifies this`root, repr`left, repr`right, repr`parent
      ensures Located(t', p') && Rising(t', p', h) && t'.n == node' && Whole(t', p') == Whole(t, p)
      ensures p'.Lft? && p'.red && p'.up == p.up
    {
      node', t', p' := node, t, p;
      Kin(t, p);
      if node == node.parent.right {
        InnerLeftRises(t, p, h);
        ZoomOut(t, p);
        node' := node.parent;
        LeftRotate(node', Up(t, p), p.up);
        t', p' := Bin(p.l, p.n, true, t.l), Lft(p.up, t.n, true, t.r);
        ZoomLeft(Up(t', p'), p'.up);
      }
    }

    /** Red parent and red uncle. */
    method PushUpLeft(node: Node, temp: Node, ghost t: Shape, ghost p: Path, ghost h: int)
        returns (node': Node, ghost t': Shape, ghost p': Path, ghost h': int)
      requires Located(t, p) && Rising(t, p, h) && t.n == node && PathIsRed(p)
      requires p.up.Lft? && IsRed(p.up.r) && p.up.r.n == temp
      modifies repr`red
      ensures Located(t', p') && Rising(t', p', h') && t'.n == node'
      ensures Whole(t', p') == Whole(t, p) && Depth(p') < Depth(p)
    {
      ZoomOut(t, p);
      ZoomOut(Up(t, p), p.up);
      Kin(t, p);
      Kin(Up(t, p), p.up);
      ghost var g := Up(Up(t, p), p.up);
      RecolorRises(t, p, h);
      node' := node.parent.parent;
      t', p', h' := Bin(Blackened(g.l), g.n, true, Blackened(g.r)), p.up.up, h + 1;
      Recolor(node.parent, temp, node.parent.parent, g, p.up.up);
    }

    /** Red left child of a red left child, black uncle. */
    method FinishLeft(node: Node, ghost t: Shape, ghost p: Path, ghost h: int) returns (ghost p': Path)
      requires Located(t, p) && Rising(t, p, h) && t.n == node
      requires p.Lft? && p.red && p.up.Lft? && !IsRed(p.up.r)
      modifies this`root, repr`left, repr`right, repr`parent, repr`red
      ensures Located(t, p') && Rising(t, p', h)
      ensures Whole(t, p') == Whole(t, p) && Depth(p') < Depth(p)
    {
      ZoomOut(t, p);
      ZoomOut(Up(t, p), p.up);
      Kin(t, p);
      Kin(Up(t, p), p.up);
      OuterLeftRises(t, p, h);
      SpinRight(node.parent, node.parent.parent, Up(Up(t, p), p.up), p.up.up);
      p' := Lft(p.up.up, p.n, false, Bin(p.r, p.up.n, true, p.up.r));
    }

    /** One turn of the rebalancing loop, when the parent is a left child. */
    method RiseLeft(node: Node, ghost t: Shape, ghost p: Path, ghost h: int)
        returns (node': Node, ghost t': Shape, ghost p': Path, ghost h': int)
      requires Located(t, p) && !sentinel.red && Rising(t, p, h) && t.n == node
      requires PathIsRed(p) && p.up.Lft?
      modifies this`root, repr`left, repr`right, repr`parent, repr`red
      ensures Located(t', p') && Rising(t', p', h') && t'.n == node'
      ensures Whole(t', p') == Whole(t, p) && Depth(p') < Depth(p)
    {
      Kin(t, p);
      ZoomOut(t, p);
      Kin(Up(t, p), p.up);
      var temp := node.parent.parent.right;
      if temp.red {
        node', t', p', h' := PushUpLeft(node, temp, t, p, h);
      } else {
        node', t', p' := StraightenLeft(node, t, p, h);
        p' := FinishLeft(node', t', p', h);
        h' := h;
      }
    }

    /** The inner case: a left child of a right child becomes a right child. */
    method StraightenRight(node: Node, ghost t: Shape, ghost p: Path, ghost h: int)
        returns (node': Node, ghost t': Shape, ghost p': Path)
      requires Located(t, p) && Rising(t, p, h) && t.n == node && PathIsRed(p) && p.up.Rgt?
      modifies this`root, repr`right, repr`left, repr`parent
      ensures Located(t', p') && Rising(t', p', h) && t'.n == node' && Whole(t', p') == Whole(t, p)
      ensures p'.Rgt? && p'.red && p'.up == p.up
    {
      node', t', p' := node, t, p;
      Kin(t, p);
      if node == node.parent.left {
        InnerRightRises(t, p, h);
        ZoomOut(t, p);
        node' := node.parent;
        RightRotate(node', Up(t, p), p.up);
        t', p' := Bin(t.r, p.n, true, p.r), Rgt(p.up, t.l, t.n, true);
        ZoomRight(Up(t', p'), p'.up);
      }
    }

    /** Red parent and red uncle. */
    method PushUpRight(node: Node, temp: Node, ghost t: Shape, ghost p: Path, ghost h: int)
        returns (node': Node, ghost t': Shape, ghost p': Path, ghost h': int)
      requires Located(t, p) && Rising(t, p, h) && t.n == node && PathIsRed(p)
      requires p.up.Rgt? && IsRed(p.up.l) && p.up.l.n == temp
      modifies repr`red
      ensures Located(t', p') && Rising(t', p', h') && t'.n == node'
      ensures Whole(t', p') == Whole(t, p) && Depth(p') < Depth(p)
    {
      ZoomOut(t, p);
      ZoomOut(Up(t, p), p.up);
      Kin(t, p);
      Kin(Up(t, p), p.up);
      ghost var g := Up(Up(t, p), p.up);
      RecolorRises(t, p, h);
      node' := node.parent.parent;
      t', p', h' := Bin(Blackened(g.l), g.n, true, Blackened(g.r)), p.up.up, h + 1;
      Recolor(temp, node.parent, node.parent.parent, g, p.up.up);
    }

    /** Red right child of a red right child, black uncle. */
    method FinishRight(node: Node, ghost t: Shape, ghost p: Path, ghost h: int) returns (ghost p': Path)
      requires Located(t, p) && Rising(t, p, h) && t.n == node
      requires p.Rgt? && p.red && p.up.Rgt? && !IsRed(p.up.l)
      modifies this`root, repr`right, repr`left, repr`parent, repr`red
      ensures Located(t, p') && Rising(t, p', h)
      ensures Whole(t, p') == Whole(t, p) && Depth(p') < Depth(p)
    {
      ZoomOut(t, p);
      ZoomOut(Up(t, p), p.up);
      Kin(t, p);
      Kin(Up(t, p), p.up);
      OuterRightRises(t, p, h);
      SpinLeft(node.parent, node.parent.parent, Up(Up(t, p), p.up), p.up.up);
      p' := Rgt(p.up.up, Bin(p.up.l, p.up.n, true, p.l), p.n, false);
    }

    /** One turn of the rebalancing loop, when the parent is a right child. */
    method RiseRight(node: Node, ghost t: Shape, ghost p: Path, ghost h: int)
        returns (node': Node, ghost t': Shape, ghost p': Path, ghost h': int)
      requires Located(t, p) && !sentinel.red && Rising(t, p, h) && t.n == node
      requires PathIsRed(p) && p.up.Rgt?
      modifies this`root, repr`right, repr`left, repr`parent, repr`red
      ensures Located(t', p') && Rising(t', p', h') && t'.n == node'
      ensures Whole(t', p') == Whole(t, p) && Depth(p') < Depth(p)
    {
      Kin(t, p);
      ZoomOut(t, p);
      Kin(Up(t, p), p.up);
      var temp := node.parent.parent.left;
      if temp.red {
        node', t', p', h' := PushUpRight(node, temp, t, p, h);
      } else {
        node', t', p' := StraightenRight(node, t, p, h);
        p' := FinishRight(node', t', p', h);
        h' := h;
      }
    }

    /** One turn of the rebalancing loop. */
    method Rise(node: Node, ghost t: Shape, ghost p: Path, ghost h: int)
        returns (node': Node, ghost t': Shape, ghost p': Path, ghost h': int)
      requires Located(t, p) && !sentinel.red && Rising(t, p, h) && t.n == node && PathIsRed(p)
      modifies this`root, repr`left, repr`right, repr`parent, repr`red
      ensures Located(t', p') && Rising(t', p', h') && t'.n == node'
      ensures Whole(t', p') == Whole(t, p) && Depth(p') < Depth(p)
    {
      Kin(t, p);
      ZoomOut(t, p);
      Kin(Up(t, p), p.up);
      if node.parent == node.parent.parent.left {
        node', t', p', h' := RiseLeft(node, t, p, h);
      } else {
        node', t', p', h' := RiseRight(node, t, p, h);
      }
    }

    /** The blackening of the root that ends ngx_rbtree_insert. */
    method BlackenRoot(ghost t: Shape, ghost p: Path, ghost h: int)
      requires Located(t, p) && Rising(t, p, h) && !PathIsRed(p)
      modifies this`shape, repr`red
      ensures Located(shape, Top) && RedBlack(shape) && Order(shape) == Whole(t, p)
    {
      RisenDone(t, p, h);
      ZoomAllOut(t, p);
      PlugOrder(p, t);
      PlugBin(p, t);
      shape := Blackened(Plug(p, t));
      Paint(root, false, Plug(p, t), Top);
    }

    /** The rebalancing part of ngx_rbtree_insert. */
    method Rebalance(node: Node, ghost t0: Shape, ghost p0: Path, ghost h0: int)
      requires Located(t0, p0) && !sentinel.red && Rising(t0, p0, h0) && t0.n == node
      modifies this`root, this`shape, repr`left, repr`right, repr`parent, repr`red
      ensures Located(shape, Top) && RedBlack(shape) && Order(shape) == Whole(t0, p0)
    {
      var node := node;
      ghost var t, p, h := t0, p0, h0;
      if p != Top { Kin(t, p); }
      while node != root && node.parent.red
        invariant Located(t, p) && !sentinel.red && Rising(t, p, h) && t.n == node
        invariant Whole(t, p) == Whole(t0, p0)
        invariant if p == Top then node == root else node != root && node.parent == p.n && p.n.red == p.red
        decreases Depth(p)
      {
        node, t, p, h := Rise(node, t, p, h);
        if p != Top { Kin(t, p); }
      }
      BlackenRoot(t, p, h);
    }

    /** Everything ngx_rbtree_insert does in a tree that is not empty. */
    method Grow(node: Node, temp: Node, goLeft: bool, ghost p: Path)
      requires Located(Leaf, p) && p != Top && temp == p.n && goLeft == p.Lft?
      requires RedBlack(Plug(p, Leaf)) && !sentinel.red && node !in repr && node != sentinel
      modifies this`root, this`shape, this`repr, repr`left, repr`right, repr`parent, repr`red
      modifies node`left, node`right, node`parent, node`red
      ensures Located(shape, Top) && RedBlack(shape) && !sentinel.red
      ensures repr == old(repr) + {node} && Order(shape) == Whole(Bin(Leaf, node, true, Leaf), p)
    {
      ghost var t := Bin(Leaf, node, true, Leaf);
      assert Rising(t, p, 0) by { UnplugRedBlack(p, Leaf); }
      Hang(node, temp, goLeft, p);
      Rebalance(node, t, p, 0);
    }

    method InsertFirst(node: Node)
      requires Valid() && root == sentinel && node != sentinel
      modifies `root, `shape, `repr, `above, node`left, node`right, node`parent, node`red
      ensures Valid() && old(shape) == Leaf && repr == {node} && Order(shape) == [node] && above == null
    {
      assert shape == Leaf;
      node.parent := null;
      node.left := sentinel;
      node.right := sentinel;
      node.red := false;
      root := node;
      shape, repr, above := Bin(Leaf, node, false, Leaf), {node}, null;
      assert Balanced(shape, 1);
      assert View(repr)[node] == Cell(sentinel, sentinel, null, false);
      assert Linked(shape, null, sentinel, View(repr)) && Once(shape);
    }

    method InsertMore(node: Node) returns (ghost i: nat)
      requires Valid() && root != sentinel && node !in repr && node != sentinel
      modifies `root, `shape, `repr, repr`left, repr`right, repr`parent, repr`red
      modifies node`left, node`right, node`parent, node`red
      ensures Valid() && repr == old(repr) + {node}
      ensures var s, s', k := old(Order(shape)), Order(shape), KeysOf(repr);
              i <= |s| && s' == s[..i] + [node] + s[i..] && AtMost(s[..i], node.key, k) && Above(s[i..], node.key, k)
    {
      ghost var s, k, nodes := Order(shape), KeysOf(repr), repr + {node};
      assert KeysOf(nodes) == k[node := node.key];
      var temp, goLeft;
      ghost var p;
      temp, goLeft, p := FindPlace(node.key);
      Grow(node, temp, goLeft, p);
      assert repr == nodes;
      InsertOrder(p, node, s, node.key, k);
      i := |Before(p)|;
    }

    /** ngx_rbtree_insert; i is the place of the new node in the old sequence. */
    method Insert(node: Node) returns (ghost i: nat)
      requires Valid() && node !in repr && node != sentinel
      modifies `root, `shape, `repr, `above, repr`left, repr`right, repr`parent, repr`red
      modifies node`left, node`right, node`parent, node`red
      ensures Valid() && repr == old(repr) + {node}
      ensures root != sentinel && root.parent == if old(root) == sentinel then null else old(root.parent)
      ensures RootFree() <==> old(RootFree())
      ensures var s, s', k := old(Order(shape)), Order(shape), KeysOf(repr);
              i <= |s| && s' == s[..i] + [node] + s[i..] && AtMost(s[..i], node.key, k) && Above(s[i..], node.key, k)
    {
      if root == sentinel {
        InsertFirst(node);
        i := 0;
      } else {
        i := InsertMore(node);
      }
    }
  }
}
