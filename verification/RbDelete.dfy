/** ngx_rbtree_delete of nginx/src/core/ngx_rbtree.c. */
module RbDelete {
  import opened RbShape
  import opened RbRules
  import opened RbTree

  /** What the fields around the hole of p say. */
  lemma Around(tree: Tree, t: Shape, p: Path)
    requires tree.Located(t, p) && p != Top
    ensures p.n in tree.repr && p.n != tree.sentinel && p.n.red == p.red
    ensures tree.root != RootOf(t, tree.sentinel)
    ensures p.n.left == (if p.Lft? then RootOf(t, tree.sentinel) else RootOf(p.l, tree.sentinel))
    ensures p.n.right == (if p.Lft? then RootOf(p.r, tree.sentinel) else RootOf(t, tree.sentinel))
    ensures var w := Sibling(p); w.Bin? ==> AroundOk(tree, w)
  {
    TopOfPath(p, RootOf(t, tree.sentinel));
    assert t.Bin? ==> t.n in Nodes(t);
    var w, m := Sibling(p), View(tree.repr);
    assert Linked(w, p.n, tree.sentinel, m);
    if w.Bin? { AroundRoot(w, p.n, tree.sentinel, m); }
  }

  lemma AroundNode(tree: Tree, t: Shape, p: Path)
    requires tree.Located(t, p) && t.Bin?
    ensures AroundOk(tree, t)
  {
    AroundRoot(t, ParentOf(p), tree.sentinel, View(tree.repr));
  }

  /** The fields at the root of w, and the colours of its children. */
  ghost predicate AroundOk(tree: Tree, w: Shape)
    requires w.Bin?
    reads tree, tree.repr
  {
    && w.n in tree.repr && w.n.red == w.red
    && w.n.left == RootOf(w.l, tree.sentinel) && w.n.right == RootOf(w.r, tree.sentinel)
    && (w.l.Bin? ==> w.l.n in tree.repr && w.l.n.red == w.l.red)
    && (w.r.Bin? ==> w.r.n in tree.repr && w.r.n.red == w.r.red)
  }

  lemma AroundRoot(w: Shape, up: Node?, s: Node, m: Memory)
    requires Linked(w, up, s, m) && w.Bin?
    ensures w.l.Bin? ==> w.l.n in m && m[w.l.n].red == w.l.red
    ensures w.r.Bin? ==> w.r.n in m && m[w.r.n].red == w.r.red
  {
  }

  /** Bounds the remaining turns of the loop: a red subtree ends it. */
  ghost function Rank(t: Shape, p: Path): nat {
    if IsRed(t) then 0 else 1 + Depth(p)
  }

  ghost function HeightOf(t: Shape): int
    requires RedBlack(t)
    ensures Sinking(t, Top, HeightOf(t))
  {
    var h :| Balanced(t, h);
    h
  }

  // ----- the left-hand cases -----

  method RedSiblingLeft(tree: Tree, par: Node, w: Node, ghost t: Shape, ghost p: Path, ghost h: int)
      returns (w': Node, ghost p': Path)
    requires tree.Located(t, p) && Sinking(t, p, h) && p.Lft? && par == p.n && IsRed(p.r) && w == p.r.n
    modifies tree`root, tree.repr`left, tree.repr`right, tree.repr`parent, tree.repr`red
    ensures tree.Located(t, p') && Sinking(t, p', h) && Whole(t, p') == Whole(t, p)
    ensures p'.Lft? && p'.n == par && p'.red && Depth(p') == Depth(p) + 1
    ensures p'.r.Bin? && !p'.r.red && p'.r.n == w'
  {
    ghost var u := Up(t, p);
    LeftRedSibling(t, p, h);
    p' := Lft(Lft(p.up, p.r.n, false, p.r.r), p.n, true, p.r.l);
    tree.ZoomOut(t, p);
    tree.PaintRight(w, false, u, p.up);
    tree.Paint(par, true, u.(r := Blackened(p.r)), p.up);
    tree.LeftRotate(par, Bin(t, p.n, true, Blackened(p.r)), p.up);
    tree.ZoomLeft(Up(Up(t, p'), p'.up), p.up);
    tree.ZoomLeft(Up(t, p'), p'.up);
    Around(tree, t, p');
    w' := par.right;
  }

  method BlackNephewsLeft(tree: Tree, par: Node, w: Node, ghost t: Shape, ghost p: Path, ghost h: int)
      returns (ghost t': Shape, ghost h': int)
    requires tree.Located(t, p) && Sinking(t, p, h) && !IsRed(t) && p.Lft? && par == p.n
    requires p.r.Bin? && !p.r.red && w == p.r.n && !IsRed(p.r.l) && !IsRed(p.r.r)
    modifies tree.repr`red
    ensures tree.Located(t', p.up) && Sinking(t', p.up, h') && Whole(t', p.up) == Whole(t, p)
    ensures t'.Bin? && t'.n == par && t'.red == p.red
  {
    LeftBlackNephews(t, p, h);
    tree.ZoomOut(t, p);
    tree.PaintRight(w, true, Up(t, p), p.up);
    t', h' := Bin(t, p.n, p.red, p.r.(red := true)), if p.red then h else h + 1;
  }

  method InnerNephewLeft(tree: Tree, par: Node, w: Node, ghost t: Shape, ghost p: Path, ghost h: int)
      returns (w': Node, ghost p': Path)
    requires tree.Located(t, p) && Sinking(t, p, h) && p.Lft? && par == p.n
    requires p.r.Bin? && !p.r.red && w == p.r.n && IsRed(p.r.l) && !IsRed(p.r.r)
    modifies tree`root, tree.repr`left, tree.repr`right, tree.repr`parent, tree.repr`red
    ensures tree.Located(t, p') && Sinking(t, p', h) && Whole(t, p') == Whole(t, p)
    ensures p'.Lft? && p'.n == par && p'.up == p.up && p'.red == p.red
    ensures p'.r.Bin? && !p'.r.red && p'.r.n == w' && IsRed(p'.r.r)
  {
    ghost var u, q := Up(t, p), Rgt(p.up, t, p.n, p.red);
    ghost var v := p.r.(l := Blackened(p.r.l));
    LeftInnerNephew(t, p, h);
    Around(tree, t, p);
    tree.ZoomOut(t, p);
    tree.ZoomRight(u, p.up);
    tree.PaintLeft(w.left, false, p.r, q);
    tree.Paint(w, true, v, q);
    tree.RightRotate(w, v.(red := true), q);
    ghost var y := RotatedRight(v.(red := true));
    p' := p.(r := y);
    tree.ZoomOut(y, q);
    tree.ZoomLeft(Up(y, q), p.up);
    Around(tree, t, p');
    w' := par.right;
  }

  method OuterNephewLeft(tree: Tree, par: Node, w: Node, ghost t: Shape, ghost p: Path, ghost h: int)
      returns (ghost g: Shape)
    requires tree.Located(t, p) && Sinking(t, p, h) && !IsRed(t) && p.Lft? && par == p.n
    requires p.r.Bin? && !p.r.red && w == p.r.n && IsRed(p.r.r)
    modifies tree`root, tree.repr`left, tree.repr`right, tree.repr`parent, tree.repr`red
    ensures tree.Located(g, Top) && RedBlack(g) && Order(g) == Whole(t, p)
  {
    ghost var u := Up(t, p);
    LeftOuterNephew(t, p, h);
    Around(tree, t, p);
    tree.ZoomOut(t, p);
    ghost var w1 := p.r.(red := p.red);
    tree.PaintRight(w, par.red, u, p.up);
    tree.Paint(par, false, u.(r := w1), p.up);
    ghost var u2 := Bin(t, p.n, false, w1);
    ghost var q := Rgt(p.up, t, p.n, false);
    tree.ZoomRight(u2, p.up);
    AroundNode(tree, w1, q);
    tree.PaintRight(w.right, false, w1, q);
    ghost var w2 := w1.(r := Blackened(p.r.r));
    tree.ZoomOut(w2, q);
    tree.LeftRotate(par, Bin(t, p.n, false, w2), p.up);
    ghost var g0 := RotatedLeft(Bin(t, p.n, false, w2));
    tree.ZoomAllOut(g0, p.up);
    g := Plug(p.up, g0);
  }

  /** The sibling is black and has a red child: at most two rotations finish. */
  method RedNephewLeft(tree: Tree, par: Node, w: Node, ghost t: Shape, ghost p: Path, ghost h: int)
      returns (ghost g: Shape)
    requires tree.Located(t, p) && Sinking(t, p, h) && !IsRed(t) && p.Lft? && !tree.sentinel.red
    requires par == p.n && p.r.Bin? && !p.r.red && w == p.r.n && (IsRed(p.r.l) || IsRed(p.r.r))
    modifies tree`root, tree.repr`left, tree.repr`right, tree.repr`parent, tree.repr`red
    ensures tree.Located(g, Top) && RedBlack(g) && Whole(g, Top) == Whole(t, p)
  {
    Around(tree, t, p);
    var w := w;
    ghost var p' := p;
    if !w.right.red {
      w, p' := InnerNephewLeft(tree, par, w, t, p, h);
    }
    g := OuterNephewLeft(tree, par, w, t, p', h);
    PlugOrder(Top, g);
  }

  /** The sibling is black. */
  method SettleLeft(tree: Tree, par: Node, w: Node, ghost t: Shape, ghost p: Path, ghost h: int)
      returns (temp': Node, ghost t': Shape, ghost p': Path, ghost h': int)
    requires tree.Located(t, p) && Sinking(t, p, h) && !IsRed(t) && p.Lft? && !tree.sentinel.red
    requires par == p.n && p.r.Bin? && !p.r.red && w == p.r.n
    modifies tree`root, tree.repr`left, tree.repr`right, tree.repr`parent, tree.repr`red
    ensures tree.Located(t', p') && Sinking(t', p', h') && temp' == RootOf(t', tree.sentinel)
    ensures Whole(t', p') == Whole(t, p) && (p' == Top || (p' == p.up && t'.Bin? && t'.red == p.red))
  {
    Around(tree, t, p);
    if !w.left.red && !w.right.red {
      t', h' := BlackNephewsLeft(tree, par, w, t, p, h);
      temp', p' := par, p.up;
    } else {
      t' := RedNephewLeft(tree, par, w, t, p, h);
      p', h' := Top, HeightOf(t');
      temp' := tree.root;
    }
  }

  /** One turn of the loop when temp is a left child. */
  method SinkLeft(tree: Tree, temp: Node, ghost t: Shape, ghost p: Path, ghost h: int)
      returns (temp': Node, ghost t': Shape, ghost p': Path, ghost h': int)
    requires tree.Located(t, p) && Sinking(t, p, h) && !IsRed(t) && p.Lft? && !tree.sentinel.red
    requires temp == RootOf(t, tree.sentinel) && temp.parent == p.n
    modifies tree`root, tree.repr`left, tree.repr`right, tree.repr`parent, tree.repr`red
    ensures tree.Located(t', p') && Sinking(t', p', h') && temp' == RootOf(t', tree.sentinel)
    ensures Whole(t', p') == Whole(t, p) && Rank(t', p') < Rank(t, p) && (p' == Top || t'.Bin?)
  {
    SiblingExists(t, p, h);
    Around(tree, t, p);
    var par := temp.parent;
    var w := par.right;
    p' := p;
    if w.red {
      w, p' := RedSiblingLeft(tree, par, w, t, p, h);
    }
    temp', t', p', h' := SettleLeft(tree, par, w, t, p', h);
  }

  // ----- the right-hand cases -----

  method RedSiblingRight(tree: Tree, par: Node, w: Node, ghost t: Shape, ghost p: Path, ghost h: int)
      returns (w': Node, ghost p': Path)
    requires tree.Located(t, p) && Sinking(t, p, h) && p.Rgt? && par == p.n && IsRed(p.l) && w == p.l.n
    modifies tree`root, tree.repr`left, tree.repr`right, tree.repr`parent, tree.repr`red
    ensures tree.Located(t, p') && Sinking(t, p', h) && Whole(t, p') == Whole(t, p)
    ensures p'.Rgt? && p'.n == par && p'.red && Depth(p') == Depth(p) + 1
    ensures p'.l.Bin? && !p'.l.red && p'.l.n == w'
  {
    ghost var u := Up(t, p);
    RightRedSibling(t, p, h);
    p' := Rgt(Rgt(p.up, p.l.l, p.l.n, false), p.l.r, p.n, true);
    tree.ZoomOut(t, p);
    tree.PaintLeft(w, false, u, p.up);
    tree.Paint(par, true, u.(l := Blackened(p.l)), p.up);
    tree.RightRotate(par, Bin(Blackened(p.l), p.n, true, t), p.up);
    tree.ZoomRight(Up(Up(t, p'), p'.up), p.up);
    tree.ZoomRight(Up(t, p'), p'.up);
    Around(tree, t, p');
    w' := par.left;
  }

  method BlackNephewsRight(tree: Tree, par: Node, w: Node, ghost t: Shape, ghost p: Path, ghost h: int)
      returns (ghost t': Shape, ghost h': int)
    requires tree.Located(t, p) && Sinking(t, p, h) && !IsRed(t) && p.Rgt? && par == p.n
    requires p.l.Bin? && !p.l.red && w == p.l.n && !IsRed(p.l.r) && !IsRed(p.l.l)
    modifies tree.repr`red
    ensures tree.Located(t', p.up) && Sinking(t', p.up, h') && Whole(t', p.up) == Whole(t, p)
    ensures t'.Bin? && t'.n == par && t'.red == p.red
  {
    RightBlackNephews(t, p, h);
    tree.ZoomOut(t, p);
    tree.PaintLeft(w, true, Up(t, p), p.up);
    t', h' := Bin(p.l.(red := true), p.n, p.red, t), if p.red then h else h + 1;
  }

  method InnerNephewRight(tree: Tree, par: Node, w: Node, ghost t: Shape, ghost p: Path, ghost h: int)
      returns (w': Node, ghost p': Path)
    requires tree.Located(t, p) && Sinking(t, p, h) && p.Rgt? && par == p.n
    requires p.l.Bin? && !p.l.red && w == p.l.n && IsRed(p.l.r) && !IsRed(p.l.l)
    modifies tree`root, tree.repr`left, tree.repr`right, tree.repr`parent, tree.repr`red
    ensures tree.Located(t, p') && Sinking(t, p', h) && Whole(t, p') == Whole(t, p)
    ensures p'.Rgt? && p'.n == par && p'.up == p.up && p'.red == p.red
    ensures p'.l.Bin? && !p'.l.red && p'.l.n == w' && IsRed(p'.l.l)
  {
    ghost var u, q := Up(t, p), Lft(p.up, p.n, p.red, t);
    ghost var v := p.l.(r := Blackened(p.l.r));
    RightInnerNephew(t, p, h);
    Around(tree, t, p);
    tree.ZoomOut(t, p);
    tree.ZoomLeft(u, p.up);
    tree.PaintRight(w.right, false, p.l, q);
    tree.Paint(w, true, v, q);
    tree.LeftRotate(w, v.(red := true), q);
    ghost var y := RotatedLeft(v.(red := true));
    p' := p.(l := y);
    tree.ZoomOut(y, q);
    tree.ZoomRight(Up(y, q), p.up);
    Around(tree, t, p');
    w' := par.left;
  }

  method OuterNephewRight(tree: Tree, par: Node, w: Node, ghost t: Shape, ghost p: Path, ghost h: int)
      returns (ghost g: Shape)
    requires tree.Located(t, p) && Sinking(t, p, h) && !IsRed(t) && p.Rgt? && par == p.n
    requires p.l.Bin? && !p.l.red && w == p.l.n && IsRed(p.l.l)
    modifies tree`root, tree.repr`left, tree.repr`right, tree.repr`parent, tree.repr`red
    ensures tree.Located(g, Top) && RedBlack(g) && Order(g) == Whole(t, p)
  {
    ghost var u := Up(t, p);
    RightOuterNephew(t, p, h);
    Around(tree, t, p);
    tree.ZoomOut(t, p);
    ghost var w1 := p.l.(red := p.red);
    tree.PaintLeft(w, par.red, u, p.up);
    tree.Paint(par, false, u.(l := w1), p.up);
    ghost var u2 := Bin(w1, p.n, false, t);
    ghost var q := Lft(p.up, p.n, false, t);
    tree.ZoomLeft(u2, p.up);
    AroundNode(tree, w1, q);
    tree.PaintLeft(w.left, false, w1, q);
    ghost var w2 := w1.(l := Blackened(p.l.l));
    tree.ZoomOut(w2, q);
    tree.RightRotate(par, Bin(w2, p.n, false, t), p.up);
    ghost var g0 := RotatedRight(Bin(w2, p.n, false, t));
    tree.ZoomAllOut(g0, p.up);
    g := Plug(p.up, g0);
  }

  /** The sibling is black and has a red child: at most two rotations finish. */
  method RedNephewRight(tree: Tree, par: Node, w: Node, ghost t: Shape, ghost p: Path, ghost h: int)
      returns (ghost g: Shape)
    requires tree.Located(t, p) && Sinking(t, p, h) && !IsRed(t) && p.Rgt? && !tree.sentinel.red
    requires par == p.n && p.l.Bin? && !p.l.red && w == p.l.n && (IsRed(p.l.r) || IsRed(p.l.l))
    modifies tree`root, tree.repr`left, tree.repr`right, tree.repr`parent, tree.repr`red
    ensures tree.Located(g, Top) && RedBlack(g) && Whole(g, Top) == Whole(t, p)
  {
    Around(tree, t, p);
    var w := w;
    ghost var p' := p;
    if !w.left.red {
      w, p' := InnerNephewRight(tree, par, w, t, p, h);
    }
    g := OuterNephewRight(tree, par, w, t, p', h);
    PlugOrder(Top, g);
  }

  /** The sibling is black. */
  method SettleRight(tree: Tree, par: Node, w: Node, ghost t: Shape, ghost p: Path, ghost h: int)
      returns (temp': Node, ghost t': Shape, ghost p': Path, ghost h': int)
    requires tree.Located(t, p) && Sinking(t, p, h) && !IsRed(t) && p.Rgt? && !tree.sentinel.red
    requires par == p.n && p.l.Bin? && !p.l.red && w == p.l.n
    modifies tree`root, tree.repr`left, tree.repr`right, tree.repr`parent, tree.repr`red
    ensures tree.Located(t', p') && Sinking(t', p', h') && temp' == RootOf(t', tree.sentinel)
    ensures Whole(t', p') == Whole(t, p) && (p' == Top || (p' == p.up && t'.Bin? && t'.red == p.red))
  {
    Around(tree, t, p);
    if !w.right.red && !w.left.red {
      t', h' := BlackNephewsRight(tree, par, w, t, p, h);
      temp', p' := par, p.up;
    } else {
      t' := RedNephewRight(tree, par, w, t, p, h);
      p', h' := Top, HeightOf(t');
      temp' := tree.root;
    }
  }

  /** One turn of the loop when temp is a right child. */
  method SinkRight(tree: Tree, temp: Node, ghost t: Shape, ghost p: Path, ghost h: int)
      returns (temp': Node, ghost t': Shape, ghost p': Path, ghost h': int)
    requires tree.Located(t, p) && Sinking(t, p, h) && !IsRed(t) && p.Rgt? && !tree.sentinel.red
    requires temp == RootOf(t, tree.sentinel) && temp.parent == p.n
    modifies tree`root, tree.repr`left, tree.repr`right, tree.repr`parent, tree.repr`red
    ensures tree.Located(t', p') && Sinking(t', p', h') && temp' == RootOf(t', tree.sentinel)
    ensures Whole(t', p') == Whole(t, p) && Rank(t', p') < Rank(t, p) && (p' == Top || t'.Bin?)
  {
    SiblingExists(t, p, h);
    Around(tree, t, p);
    var par := temp.parent;
    var w := par.left;
    p' := p;
    if w.red {
      w, p' := RedSiblingRight(tree, par, w, t, p, h);
    }
    temp', t', p', h' := SettleRight(tree, par, w, t, p', h);
  }

  // ----- the fix-up loop -----

  method Sink(tree: Tree, temp: Node, ghost t: Shape, ghost p: Path, ghost h: int)
      returns (temp': Node, ghost t': Shape, ghost p': Path, ghost h': int)
    requires tree.Located(t, p) && Sinking(t, p, h) && !IsRed(t) && p != Top && !tree.sentinel.red
    requires temp == RootOf(t, tree.sentinel) && temp.parent == p.n
    modifies tree`root, tree.repr`left, tree.repr`right, tree.repr`parent, tree.repr`red
    ensures tree.Located(t', p') && Sinking(t', p', h') && temp' == RootOf(t', tree.sentinel)
    ensures Whole(t', p') == Whole(t, p) && Rank(t', p') < Rank(t, p) && (p' == Top || t'.Bin?)
  {
    SiblingExists(t, p, h);
    Around(tree, t, p);
    SiblingApart(t, p, tree.sentinel, View(tree.repr));
    if temp == temp.parent.left {
      temp', t', p', h' := SinkLeft(tree, temp, t, p, h);
    } else {
      temp', t', p', h' := SinkRight(tree, temp, t, p, h);
    }
  }

  lemma SiblingApart(t: Shape, p: Path, s: Node, m: Memory)
    requires LocatedIn(t, p, s, m) && p != Top && Sibling(p).Bin?
    ensures Sibling(p).n != RootOf(t, s)
  {
    var w := Sibling(p);
    assert w.n in Nodes(w) && w.n in PathNodes(p);
    assert t.Bin? ==> t.n in Nodes(t);
  }

  /** What the loop of ngx_rbtree_delete reads of temp. */
  lemma TempFields(tree: Tree, temp: Node, t: Shape, p: Path)
    requires tree.Located(t, p) && temp == RootOf(t, tree.sentinel) && !tree.sentinel.red
    ensures temp.red == IsRed(t) && (temp == tree.root <==> p == Top)
    ensures t.Bin? && p != Top ==> temp.parent == p.n
  {
    if t.Bin? { AroundNode(tree, t, p); }
    if p != Top { Around(tree, t, p); }
  }

  method Fixup(tree: Tree, temp: Node, ghost t0: Shape, ghost p0: Path, ghost h0: int)
    requires tree.Located(t0, p0) && Sinking(t0, p0, h0) && !tree.sentinel.red
    requires temp == RootOf(t0, tree.sentinel) && (p0 != Top ==> temp.parent == p0.n)
    modifies tree`root, tree`shape, tree.repr`left, tree.repr`right, tree.repr`parent, tree.repr`red, tree.sentinel`red
    ensures tree.Located(tree.shape, Top) && RedBlack(tree.shape) && !tree.sentinel.red
    ensures Order(tree.shape) == Whole(t0, p0)
  {
    var temp := temp;
    ghost var t, p, h := t0, p0, h0;
    TempFields(tree, temp, t, p);
    while temp != tree.root && !temp.red
      invariant tree.Located(t, p) && Sinking(t, p, h) && !tree.sentinel.red
      invariant temp == RootOf(t, tree.sentinel) && (p != Top ==> temp.parent == p.n)
      invariant temp.red == IsRed(t) && (temp == tree.root <==> p == Top)
      invariant Whole(t, p) == Whole(t0, p0)
      decreases Rank(t, p)
    {
      temp, t, p, h := Sink(tree, temp, t, p, h);
      TempFields(tree, temp, t, p);
    }
    BlackenTemp(tree, temp, t, p, h);
  }

  /** ngx_rbt_black(temp) at the end of ngx_rbtree_delete. */
  method BlackenTemp(tree: Tree, temp: Node, ghost t: Shape, ghost p: Path, ghost h: int)
    requires tree.Located(t, p) && Sinking(t, p, h) && !tree.sentinel.red
    requires temp == RootOf(t, tree.sentinel) && (p == Top || IsRed(t))
    modifies tree`shape, tree.repr`red, tree.sentinel`red
    ensures tree.Located(tree.shape, Top) && RedBlack(tree.shape) && !tree.sentinel.red
    ensures Order(tree.shape) == Whole(t, p)
  {
    SunkDone(t, p, h);
    ghost var t' := if t.Bin? then Blackened(t) else t;
    if temp == tree.sentinel {
      temp.red := false;
    } else {
      tree.Paint(temp, false, t, p);
    }
    tree.ZoomAllOut(t', p);
    tree.shape := Plug(p, t');
  }

  // ----- unlinking -----

  method BypassWrites(tree: Tree, x: Node, temp: Node, up: Node)
    requires x in tree.repr && tree.sentinel !in tree.repr && x.parent != null && x.parent in tree.repr
    requires x.parent != x && temp != x && temp != x.parent && (temp == tree.sentinel || temp in tree.repr)
    modifies tree`repr, x.parent`left, x.parent`right, temp`parent
    ensures tree.repr == old(tree.repr) - {x} && temp.parent == up
    ensures var m, m', par := old(View(tree.repr)), View(tree.repr), old(x.parent);
      && m'.Keys == m.Keys - {x}
      && m'[par] == (if m[par].left == x then m[par].(left := temp) else m[par].(right := temp))
      && (temp != tree.sentinel ==> m'[temp] == m[temp].(parent := up))
      && forall y <- m' :: y != par && y != temp ==> m'[y] == m[y]
  {
    if x == x.parent.left {
      x.parent.left := temp;
    } else {
      x.parent.right := temp;
    }
    temp.parent := up;
    tree.repr := tree.repr - {x};
  }

  /** Makes the parent of x point past it, to its only child temp. */
  method Bypass(tree: Tree, x: Node, temp: Node, up: Node, ghost t: Shape, ghost p: Path)
    requires tree.Located(t, p) && t.Bin? && t.n == x && (t.l.Leaf? || t.r.Leaf?) && p != Top
    requires temp == RootOf(OnlyChild(t), tree.sentinel) && x.parent == p.n
    modifies tree`repr, p.n`left, p.n`right, temp`parent
    ensures tree.repr == old(tree.repr) - {x} && temp.parent == up
    ensures HangsIn(OnlyChild(t), p, up, tree.sentinel, View(tree.repr)) && tree.root == TopOf(p, temp) && tree.Crowned()
  {
    tree.RootApart(t, p);
    ghost var m, c := View(tree.repr), OnlyChild(t);
    Around(tree, t, p);
    BypassReady(t, p, tree.sentinel, m);
    BypassWrites(tree, x, temp, up);
    Bypassed(t, p, up, tree.sentinel, m, View(tree.repr));
  }

  lemma BypassReady(t: Shape, p: Path, s: Node, m: Memory)
    requires LocatedIn(t, p, s, m) && t.Bin? && (t.l.Leaf? || t.r.Leaf?) && p != Top
    ensures var c := OnlyChild(t); c.Bin? ==> c.n in m && c.n != p.n && c.n != t.n && c.n != s
    ensures t.n != p.n && t.n != s && t.n in m && p.n in m && p.n != s
    ensures Sibling(p).Bin? ==> Sibling(p).n != t.n
  {
    var c, w := OnlyChild(t), Sibling(p);
    assert c.Bin? ==> c.n in Nodes(c) && c.n in Nodes(t);
    assert w.Bin? ==> w.n in Nodes(w) && w.n in PathNodes(p);
  }

  ghost predicate SeatMoved(node: Node, x: Node, up: Node?, m: Memory, m': Memory) {
    && m'.Keys == m.Keys && (up != null ==> up in m)
    && (up != null ==> m'[up] == if m[up].left == node then m[up].(left := x) else m[up].(right := x))
    && forall y <- m :: y != up ==> m'[y] == m[y]
  }

  ghost predicate Adopted(node: Node, x: Node, cell: Cell, s: Node, m: Memory, m': Memory) {
    && m'.Keys == m.Keys - {node} + {x} && m'[x] == cell
    && (cell.left != s ==> cell.left != null && cell.left in m && cell.left in m'
                           && m'[cell.left] == m[cell.left].(parent := x))
    && (cell.right != s ==> cell.right != null && cell.right in m && cell.right in m'
                            && m'[cell.right] == m[cell.right].(parent := x))
    && forall y <- m :: y != node && y != cell.left && y != cell.right ==> m'[y] == m[y]
  }

  lemma MovedAndAdopted(l: Shape, node: Node, red: bool, r: Shape, p: Path, x: Node, cell: Cell,
                        s: Node, m: Memory, m1: Memory, m2: Memory)
    requires Seated(l, node, red, r, p, s, m) && x !in m && x != s
    requires SeatMoved(node, x, ParentOf(p), m, m1) && Adopted(node, x, cell, s, m1, m2)
    requires cell == Cell(RootOf(l, s), RootOf(r, s), cell.parent, red) && (p != Top ==> cell.parent == p.n)
    ensures Unseated(l, node, red, r, p, x, s, m, m2)
  {
    SeatReady(l, node, red, r, p, s, m);
  }

  lemma SeatLocated(l: Shape, node: Node, red: bool, r: Shape, p: Path, x: Node, cell: Cell,
                    s: Node, m: Memory, m1: Memory, m2: Memory)
    requires Seated(l, node, red, r, p, s, m) && x !in m && x != s
    requires SeatMoved(node, x, ParentOf(p), m, m1) && Adopted(node, x, cell, s, m1, m2)
    requires cell == Cell(RootOf(l, s), RootOf(r, s), cell.parent, red) && (p != Top ==> cell.parent == p.n)
    ensures LocatedIn(Bin(l, x, red, r), p, s, m2)
  {
    MovedAndAdopted(l, node, red, r, p, x, cell, s, m, m1, m2);
    SeatTaken(l, node, red, r, p, x, s, m, m2);
    SeatSets(l, node, red, r, p, x);
    Assembled(l, x, red, r, p, s, m2);
  }

  /** Copies the fields of node and makes the tree point to subst instead. */
  method TakeSeat(tree: Tree, node: Node, subst: Node)
    requires node in tree.repr && subst !in tree.repr && tree.root in tree.repr
    requires node != tree.root ==> node.parent != null && node.parent in tree.repr && node.parent != node
    modifies tree`root, tree.repr`left, tree.repr`right, subst`left, subst`right, subst`parent, subst`red
    ensures tree.root == if node == old(tree.root) then subst else old(tree.root)
    ensures subst.left == node.left == old(node.left) && subst.right == node.right == old(node.right)
    ensures subst.parent == node.parent && subst.red == node.red && tree.root.parent == old(tree.root.parent)
    ensures SeatMoved(node, subst, if node == old(tree.root) then null else node.parent, old(View(tree.repr)), View(tree.repr))
  {
    subst.left := node.left;
    subst.right := node.right;
    subst.parent := node.parent;
    subst.red := node.red;
    if node == tree.root {
      tree.root := subst;
    } else {
      if node == node.parent.left {
        node.parent.left := subst;
      } else {
        node.parent.right := subst;
      }
    }
  }

  /** Makes the children of subst point back to it. */
  method Adopt(tree: Tree, node: Node, subst: Node)
    requires node in tree.repr && subst !in tree.repr && subst != tree.sentinel && tree.sentinel !in tree.repr
    requires subst.left != null && (subst.left == tree.sentinel || subst.left in tree.repr) && subst.left != node
    requires subst.right != null && (subst.right == tree.sentinel || subst.right in tree.repr) && subst.right != node
    requires subst.left == subst.right ==> subst.left == tree.sentinel
    requires tree.root != subst.left && tree.root != subst.right
    modifies tree`repr, tree.repr`parent
    ensures tree.repr == old(tree.repr) - {node} + {subst} && tree.root.parent == old(tree.root.parent)
    ensures Adopted(node, subst, old(Cell(subst.left, subst.right, subst.parent, subst.red)), tree.sentinel,
                    old(View(tree.repr)), View(tree.repr))
  {
    if subst.left != tree.sentinel {
      subst.left.parent := subst;
    }
    if subst.right != tree.sentinel {
      subst.right.parent := subst;
    }
    tree.repr := tree.repr - {node} + {subst};
  }

  /** Both steps, for a node with the children a and b. */
  method Replace(tree: Tree, node: Node, subst: Node, ghost a: Node, ghost b: Node) returns (ghost m1: Memory, ghost cell: Cell)
    requires node in tree.repr && subst !in tree.repr && subst != tree.sentinel && tree.sentinel !in tree.repr
    requires tree.root in tree.repr && tree.root != a && tree.root != b && tree.Crowned()
    requires node != tree.root ==> node.parent != null && node.parent in tree.repr && node.parent != node
    requires node.left == a && (a == tree.sentinel || a in tree.repr) && a != node
    requires node.right == b && (b == tree.sentinel || b in tree.repr) && b != node && (a == b ==> a == tree.sentinel)
    modifies tree`root, tree`repr, tree.repr`left, tree.repr`right, tree.repr`parent
    modifies subst`left, subst`right, subst`parent, subst`red
    ensures tree.repr == old(tree.repr) - {node} + {subst} && tree.Crowned()
    ensures tree.root == if node == old(tree.root) then subst else old(tree.root)
    ensures cell == Cell(a, b, old(node.parent), old(node.red))
    ensures SeatMoved(node, subst, if node == old(tree.root) then null else old(node.parent), old(View(tree.repr)), m1)
    ensures Adopted(node, subst, cell, tree.sentinel, m1, View(tree.repr))
  {
    TakeSeat(tree, node, subst);
    m1, cell := View(tree.repr), Cell(subst.left, subst.right, subst.parent, subst.red);
    Adopt(tree, node, subst);
  }

  /** Gives subst the place of node: its children, its parent and its colour. */
  method TakePlace(tree: Tree, node: Node, subst: Node, ghost l: Shape, ghost r: Shape, ghost p: Path)
    requires Seated(l, node, node.red, r, p, tree.sentinel, View(tree.repr))
    requires node.left == RootOf(l, tree.sentinel) && node.right == RootOf(r, tree.sentinel)
    requires (p != Top ==> node.parent == p.n) && tree.root == TopOf(p, node)
    requires subst !in tree.repr && subst != tree.sentinel && tree.Crowned()
    modifies tree`root, tree`repr, tree.repr`left, tree.repr`right, tree.repr`parent
    modifies subst`left, subst`right, subst`parent, subst`red
    ensures tree.repr == old(tree.repr) - {node} + {subst}
    ensures tree.Located(Bin(l, subst, node.red, r), p)
  {
    ghost var m, s := View(tree.repr), tree.sentinel;
    SeatReady(l, node, node.red, r, p, s, m);
    SeatApart(l, node, node.red, r, p, s, m);
    ghost var m1, cell := Replace(tree, node, subst, RootOf(l, s), RootOf(r, s));
    SeatLocated(l, node, node.red, r, p, subst, cell, s, m, m1, View(tree.repr));
  }

  lemma SeatApart(l: Shape, node: Node, red: bool, r: Shape, p: Path, s: Node, m: Memory)
    requires Seated(l, node, red, r, p, s, m)
    ensures TopOf(p, node) in m && TopOf(p, node) != RootOf(l, s) && TopOf(p, node) != RootOf(r, s)
  {
    assert l.Bin? ==> l.n in Nodes(l);
    assert r.Bin? ==> r.n in Nodes(r);
    if p != Top { TopOfPath(p, node); }
  }

  lemma Assembled(l: Shape, x: Node, red: bool, r: Shape, p: Path, s: Node, m: Memory)
    requires m.Keys == Nodes(l) + {x} + Nodes(r) + PathNodes(p) && s !in m
    requires Once(Bin(l, x, red, r)) && PathOnce(p)
    requires x !in PathNodes(p) && Nodes(l) !! PathNodes(p) && Nodes(r) !! PathNodes(p)
    requires m[x] == Cell(RootOf(l, s), RootOf(r, s), m[x].parent, red) && (p != Top ==> m[x].parent == p.n)
    requires Linked(l, x, s, m) && Linked(r, x, s, m) && PathLinked(p, x, s, m)
    ensures LocatedIn(Bin(l, x, red, r), p, s, m)
  {
    assert Nodes(Bin(l, x, red, r)) == Nodes(l) + {x} + Nodes(r);
  }

  lemma SeatReady(l: Shape, node: Node, red: bool, r: Shape, p: Path, s: Node, m: Memory)
    requires Seated(l, node, red, r, p, s, m)
    ensures l.Bin? ==> l.n in m && l.n != node && (p != Top ==> l.n != p.n)
    ensures r.Bin? ==> r.n in m && r.n != node && (p != Top ==> r.n != p.n)
    ensures l.Bin? && r.Bin? ==> l.n != r.n
    ensures p != Top ==> p.n in m && p.n != node && TopOf(p, node) != node
    ensures p != Top ==> m[p.n].left == (if p.Lft? then node else RootOf(p.l, s)) && (p.Rgt? ==> RootOf(p.l, s) != node)
    ensures p != Top ==> m[p.n].right == (if p.Rgt? then node else RootOf(p.r, s))
  {
    assert l.Bin? ==> l.n in Nodes(l);
    assert r.Bin? ==> r.n in Nodes(r);
    if p != Top {
      TopOfPath(p, node);
      assert p.Rgt? && p.l.Bin? ==> p.l.n in Nodes(p.l) && p.l.n in PathNodes(p);
    }
  }

  // ----- ngx_rbtree_delete -----

  /** "DEBUG stuff" in the source: the removed node is wiped. */
  method Wipe(node: Node)
    modifies node`left, node`right, node`parent, node`key
    ensures node.left == null && node.right == null && node.parent == null && node.key == 0
  {
    node.left := null;
    node.right := null;
    node.parent := null;
    node.key := 0;
  }

  lemma {:induction false} Find(tree: Tree, node: Node, t: Shape, p: Path) returns (t': Shape, p': Path)
    requires tree.Located(t, p) && node in Nodes(t)
    ensures tree.Located(t', p') && t'.Bin? && t'.n == node && Plug(p', t') == Plug(p, t)
    decreases t
  {
    if node == t.n {
      t', p' := t, p;
    } else if node in Nodes(t.l) {
      tree.ZoomLeft(t, p);
      t', p' := Find(tree, node, t.l, Lft(p, t.n, t.red, t.r));
    } else {
      tree.ZoomRight(t, p);
      t', p' := Find(tree, node, t.r, Rgt(p, t.l, t.n, t.red));
    }
  }

  /** ngx_rbtree_min */
  method Min(tree: Tree, start: Node, ghost t: Shape, ghost base: Path)
      returns (node: Node, ghost t': Shape, ghost q: Path)
    requires tree.Located(t, base) && t.Bin? && t.n == start
    ensures tree.Located(t', Compose(q, base)) && t'.Bin? && t'.l.Leaf? && t'.n == node
    ensures LeftSpine(q) && Plug(q, t') == t
  {
    node, t', q := start, t, Top;
    AroundNode(tree, t', Compose(q, base));
    while node.left != tree.sentinel
      invariant tree.Located(t', Compose(q, base)) && t'.Bin? && t'.n == node && AroundOk(tree, t')
      invariant LeftSpine(q) && Plug(q, t') == t
      decreases t'
    {
      tree.ZoomLeft(t', Compose(q, base));
      node := node.left;
      q, t' := Lft(q, t'.n, t'.red, t'.r), t'.l;
      AroundNode(tree, t', Compose(q, base));
    }
    LeafIsSentinel(t', Compose(q, base), tree.sentinel, View(tree.repr));
  }

  lemma LeafIsSentinel(t: Shape, p: Path, s: Node, m: Memory)
    requires LocatedIn(t, p, s, m) && t.Bin?
    ensures t.l.Leaf? <==> RootOf(t.l, s) == s
    ensures t.r.Leaf? <==> RootOf(t.r, s) == s
  {
    assert t.l.Bin? ==> t.l.n in Nodes(t.l) && t.l.n in Nodes(t);
    assert t.r.Bin? ==> t.r.n in Nodes(t.r) && t.r.n in Nodes(t);
  }

  /** The tree loses its root, which has at most one child. */
  method Uproot(tree: Tree, node: Node, temp: Node, ghost t: Shape)
    requires tree.Located(t, Top) && t.Bin? && t.n == node
    requires (t.l.Leaf? || t.r.Leaf?) && temp == RootOf(OnlyChild(t), tree.sentinel)
    modifies tree`root, tree`repr, tree`above
    ensures tree.Located(OnlyChild(t), Top) && tree.repr == old(tree.repr) - {node} && tree.root == temp
    ensures tree.above == node
  {
    ghost var m := View(tree.repr);
    assert Linked(OnlyChild(t), node, tree.sentinel, m);
    tree.above := node;
    tree.root := temp;
    tree.repr := tree.repr - {node};
    Uprooted(t, tree.sentinel, m, View(tree.repr));
  }

  lemma Uprooted(t: Shape, s: Node, m: Memory, m': Memory)
    requires LocatedIn(t, Top, s, m) && t.Bin? && (t.l.Leaf? || t.r.Leaf?)
    requires m'.Keys == m.Keys - {t.n} && Agree(m, m', m.Keys - {t.n})
    ensures LocatedIn(OnlyChild(t), Top, s, m')
  {
    var c := OnlyChild(t);
    assert Nodes(t) == Nodes(c) + {t.n};
    LinkedOpen(c, t.n, s, m);
    LinkedFrame(c, null, s, m, m');
  }

  /** The removed node is the root and has at most one child.  The parent field of
      that child, the new root, still points to the removed node. */
  method RemoveRoot(tree: Tree, node: Node, temp: Node, ghost t: Shape)
    requires tree.Located(t, Top) && RedBlack(t) && t.Bin? && t.n == node && !tree.sentinel.red
    requires (t.l.Leaf? || t.r.Leaf?) && temp == RootOf(OnlyChild(t), tree.sentinel)
    modifies tree`root, tree`shape, tree`repr, tree`above, tree.repr`red, tree.sentinel`red
    modifies node`left, node`right, node`parent, node`key
    ensures tree.Located(tree.shape, Top) && RedBlack(tree.shape) && !tree.sentinel.red && tree.above == node
    ensures tree.root == temp && (temp != tree.sentinel ==> temp.parent == node)
    ensures tree.repr == old(tree.repr) - {node} && Order(tree.shape) == Whole(OnlyChild(t), Top)
  {
    BypassRules(t, Top);
    Uproot(tree, node, temp, t);
    ghost var h :| Sinking(OnlyChild(t), Top, h);
    Wipe(node);
    BlackenTemp(tree, temp, OnlyChild(t), Top, h);
  }

  /** The end of ngx_rbtree_delete, once the node is unlinked. */
  method Repair(tree: Tree, temp: Node, red: bool, ghost c: Shape, ghost p: Path)
    requires tree.Located(c, p) && p != Top && Repairable(c, p, red) && !tree.sentinel.red
    requires temp == RootOf(c, tree.sentinel) && temp.parent == p.n
    modifies tree`root, tree`shape, tree.repr`left, tree.repr`right, tree.repr`parent, tree.repr`red, tree.sentinel`red
    ensures tree.Located(tree.shape, Top) && RedBlack(tree.shape) && !tree.sentinel.red
    ensures Order(tree.shape) == Whole(c, p)
  {
    if red {
      ghost var h :| Balanced(c, h) && PathFits(p, h) && NoRedRed(c);
      PlugRedBlack(p, c, h);
      PlugOrder(p, c);
      tree.ZoomAllOut(c, p);
      tree.shape := Plug(p, c);
    } else {
      ghost var h :| Sinking(c, p, h);
      Fixup(tree, temp, c, p, h);
    }
  }

  lemma HangsLocated(c: Shape, p: Path, s: Node, m: Memory)
    requires p != Top && HangsIn(c, p, p.n, s, m)
    ensures LocatedIn(c, p, s, m)
  {
  }

  method Unlink(tree: Tree, node: Node, temp: Node, ghost t: Shape, ghost p: Path)
    requires tree.Located(t, p) && t.Bin? && t.n == node && p != Top && node.parent == p.n
    requires (t.l.Leaf? || t.r.Leaf?) && temp == RootOf(OnlyChild(t), tree.sentinel)
    modifies tree`repr, p.n`left, p.n`right, temp`parent, node`left, node`right, node`parent, node`key
    ensures tree.Located(OnlyChild(t), p) && temp.parent == p.n && tree.repr == old(tree.repr) - {node}
  {
    BypassReady(t, p, tree.sentinel, View(tree.repr));
    Bypass(tree, node, temp, node.parent, t, p);
    HangsLocated(OnlyChild(t), p, tree.sentinel, View(tree.repr));
    Wipe(node);
  }

  /** The removed node is not the root and has at most one child. */
  method RemoveInner(tree: Tree, node: Node, temp: Node, ghost t: Shape, ghost p: Path)
    requires tree.Located(t, p) && RedBlack(Plug(p, t)) && t.Bin? && t.n == node && p != Top && !tree.sentinel.red
    requires (t.l.Leaf? || t.r.Leaf?) && temp == RootOf(OnlyChild(t), tree.sentinel)
    modifies tree`root, tree`shape, tree`repr, tree.repr`left, tree.repr`right, tree.repr`parent, tree.repr`red
    modifies tree.sentinel`red, tree.sentinel`parent, node`key
    ensures tree.Located(tree.shape, Top) && RedBlack(tree.shape) && !tree.sentinel.red
    ensures tree.repr == old(tree.repr) - {node} && Order(tree.shape) == Whole(OnlyChild(t), p)
  {
    BypassRules(t, p);
    TempFields(tree, node, t, p);
    BypassReady(t, p, tree.sentinel, View(tree.repr));
    var red := node.red;
    Unlink(tree, node, temp, t, p);
    Repair(tree, temp, red, OnlyChild(t), p);
  }

  /** Seen from `node`, whose right subtree has lost its least node. */
  lemma ToSeat(c: Shape, p: Path, l: Shape, node: Node, red: bool, up: Node, s: Node, m: Memory)
    requires HangsIn(c, Rgt(p, l, node, red), up, s, m)
    ensures Seated(l, node, red, c, p, s, m) && node in m
    ensures m[node] == Cell(RootOf(l, s), RootOf(c, s), m[node].parent, red) && (p != Top ==> m[node].parent == p.n)
  {
    LinkedOpen(c, up, s, m);
    LinkedOpen(l, node, s, m);
    assert Nodes(Bin(l, node, red, c)) == Nodes(l) + {node} + Nodes(c);
  }

  lemma ToSeatDeep(q: Path, c: Shape, p: Path, l: Shape, node: Node, red: bool, up: Node, s: Node, m: Memory)
    requires HangsIn(c, Compose(q, Rgt(p, l, node, red)), up, s, m) && (q != Top ==> up == q.n)
    ensures HangsIn(Plug(q, c), Rgt(p, l, node, red), if q == Top then up else node, s, m)
  {
    if q != Top {
      HangsLocated(c, Compose(q, Rgt(p, l, node, red)), s, m);
      LocatedPlug(q, c, Rgt(p, l, node, red), s, m);
    }
  }

  /** Takes the least node subst of the right subtree of node out of its place;
      temp is its child. */
  method PullOut(tree: Tree, node: Node, subst: Node, temp: Node,
                 ghost t: Shape, ghost q: Path, ghost p: Path, ghost l: Shape, ghost red: bool)
    requires tree.Located(t, Compose(q, Rgt(p, l, node, red))) && t.Bin? && t.l.Leaf? && t.n == subst
    requires temp == RootOf(t.r, tree.sentinel) && subst.parent == (if q == Top then node else q.n)
    requires q != Top ==> q.n != node
    modifies tree`repr, Compose(q, Rgt(p, l, node, red)).n`left, Compose(q, Rgt(p, l, node, red)).n`right, temp`parent
    ensures tree.repr == old(tree.repr) - {subst} && tree.root == TopOf(p, node) && tree.Crowned()
    ensures temp.parent == if q == Top then subst else q.n
    ensures HangsIn(Plug(q, t.r), Rgt(p, l, node, red), if q == Top then subst else node, tree.sentinel, View(tree.repr))
  {
    ghost var base := Rgt(p, l, node, red);
    ComposeTop(q, base, temp);
    var up := if subst.parent == node then subst else subst.parent;
    Bypass(tree, subst, temp, up, t, Compose(q, base));
    ToSeatDeep(q, t.r, p, l, node, red, up, tree.sentinel, View(tree.repr));
  }

  /** Puts subst in the place of node. */
  method PutIn(tree: Tree, node: Node, subst: Node,
               ghost c: Shape, ghost q: Path, ghost up: Node, ghost p: Path, ghost l: Shape, ghost red: bool)
    requires HangsIn(Plug(q, c), Rgt(p, l, node, red), up, tree.sentinel, View(tree.repr))
    requires tree.root == TopOf(p, node) && subst !in tree.repr && subst != tree.sentinel && tree.Crowned()
    modifies tree`root, tree`repr, tree.repr`left, tree.repr`right, tree.repr`parent
    modifies subst`left, subst`right, subst`parent, subst`red
    ensures tree.repr == old(tree.repr) - {node} + {subst}
    ensures tree.Located(c, Compose(q, Rgt(p, l, subst, red)))
  {
    ghost var r := Plug(q, c);
    ToSeat(r, p, l, node, red, up, tree.sentinel, View(tree.repr));
    TakePlace(tree, node, subst, l, r, p);
    tree.ZoomRight(Bin(l, subst, red, r), p);
    LocatedPlug(q, c, Rgt(p, l, subst, red), tree.sentinel, View(tree.repr));
    ComposeTop(q, Rgt(p, l, subst, red), RootOf(c, tree.sentinel));
    PlugRoot(q, c, tree.sentinel);
  }

  lemma {:induction false} PlugRoot(q: Path, c: Shape, s: Node)
    ensures RootOf(Plug(q, c), s) == TopOf(q, RootOf(c, s))
    decreases q
  {
    if q != Top { PlugRoot(q.up, Up(c, q), s); }
  }

  /** Both steps. */
  method Exchange(tree: Tree, node: Node, subst: Node, temp: Node,
                  ghost t: Shape, ghost q: Path, ghost p: Path, ghost l: Shape, ghost red: bool)
    requires tree.Located(t, Compose(q, Rgt(p, l, node, red))) && t.Bin? && t.l.Leaf? && t.n == subst
    requires temp == RootOf(t.r, tree.sentinel) && subst.parent == (if q == Top then node else q.n)
    modifies tree`root, tree`repr, tree.repr`left, tree.repr`right, tree.repr`parent, tree.repr`red
    modifies tree.sentinel`parent
    ensures tree.repr == old(tree.repr) - {node} && tree.Located(t.r, Compose(q, Rgt(p, l, subst, red)))
    ensures temp.parent == if q == Top then subst else q.n
  {
    ghost var up, nodes := if q == Top then subst else node, tree.repr;
    ExchangeReady(t, q, p, l, node, red, tree.sentinel, View(tree.repr));
    assert nodes - {subst} - {node} + {subst} == nodes - {node};
    PullOut(tree, node, subst, temp, t, q, p, l, red);
    PutIn(tree, node, subst, t.r, q, up, p, l, red);
    TempUp(tree, temp, t.r, q, Rgt(p, l, subst, red));
  }

  method ExchangeAndWipe(tree: Tree, node: Node, subst: Node, temp: Node,
                         ghost t: Shape, ghost q: Path, ghost p: Path, ghost l: Shape, ghost red: bool) returns (wasRed: bool)
    requires tree.Located(t, Compose(q, Rgt(p, l, node, red))) && t.Bin? && t.l.Leaf? && t.n == subst
    requires temp == RootOf(t.r, tree.sentinel) && !tree.sentinel.red
    modifies tree`root, tree`repr, tree.repr`left, tree.repr`right, tree.repr`parent, tree.repr`red
    modifies tree.sentinel`parent, node`key
    ensures tree.repr == old(tree.repr) - {node} && tree.Located(t.r, Compose(q, Rgt(p, l, subst, red)))
    ensures wasRed == t.red && temp.parent == Compose(q, Rgt(p, l, subst, red)).n
  {
    TempFields(tree, subst, t, Compose(q, Rgt(p, l, node, red)));
    ExchangeReady(t, q, p, l, node, red, tree.sentinel, View(tree.repr));
    wasRed := subst.red;
    Exchange(tree, node, subst, temp, t, q, p, l, red);
    Wipe(node);
  }

  lemma ExchangeReady(t: Shape, q: Path, p: Path, l: Shape, node: Node, red: bool, s: Node, m: Memory)
    requires LocatedIn(t, Compose(q, Rgt(p, l, node, red)), s, m) && t.Bin?
    ensures node in m && node != s && t.n in m && t.n != node && t.n != s && (q != Top ==> q.n != node && q.n in m)
    ensures t.r.Bin? ==> t.r.n in m && t.r.n != node
    ensures Compose(q, Rgt(p, l, node, red)).n in m
  {
    ComposeNodes(q, Rgt(p, l, node, red));
    assert node in PathNodes(Rgt(p, l, node, red));
    assert t.r.Bin? ==> t.r.n in Nodes(t.r) && t.r.n in Nodes(t);
  }

  lemma {:induction false} ComposeNodes(q: Path, p: Path)
    ensures PathNodes(Compose(q, p)) == PathNodes(q) + PathNodes(p)
    ensures PathOnce(Compose(q, p)) ==> PathNodes(q) !! PathNodes(p)
  {
    if q != Top { ComposeNodes(q.up, p); }
  }

  lemma TempUp(tree: Tree, temp: Node, c: Shape, q: Path, base: Path)
    requires tree.Located(c, Compose(q, base)) && base != Top && temp == RootOf(c, tree.sentinel)
    ensures c.Bin? ==> temp.parent == if q == Top then base.n else q.n
  {
  }

  /** The removed node has two children. */
  method RemoveSubst(tree: Tree, node: Node, subst: Node, temp: Node,
                     ghost t: Shape, ghost q: Path, ghost p: Path, ghost l: Shape, ghost red: bool)
    requires tree.Located(t, Compose(q, Rgt(p, l, node, red))) && t.Bin? && t.l.Leaf? && t.n == subst
    requires RedBlack(Plug(Compose(q, Rgt(p, l, node, red)), t)) && !tree.sentinel.red
    requires temp == RootOf(t.r, tree.sentinel)
    modifies tree`root, tree`shape, tree`repr, tree.repr`left, tree.repr`right, tree.repr`parent, tree.repr`red
    modifies tree.sentinel`red, tree.sentinel`parent, node`key
    ensures tree.Located(tree.shape, Top) && RedBlack(tree.shape) && !tree.sentinel.red
    ensures tree.repr == old(tree.repr) - {node}
    ensures Order(tree.shape) == Whole(t.r, Compose(q, Rgt(p, l, subst, red)))
  {
    assert Repairable(t.r, Compose(q, Rgt(p, l, subst, red)), t.red) by {
      BypassRules(t, Compose(q, Rgt(p, l, node, red)));
      RenameRepairable(q, p, l, node, subst, red, t.r, t.red);
    }
    var wasRed := ExchangeAndWipe(tree, node, subst, temp, t, q, p, l, red);
    Repair(tree, temp, wasRed, t.r, Compose(q, Rgt(p, l, subst, red)));
  }

  /** node has at most one child. */
  method DeleteSingle(tree: Tree, node: Node, ghost t: Shape, ghost p: Path)
    requires tree.Located(t, p) && t.Bin? && t.n == node && RedBlack(Plug(p, t)) && !tree.sentinel.red
    requires t.l.Leaf? || t.r.Leaf?
    modifies tree`root, tree`shape, tree`repr, tree`above, tree.repr`left, tree.repr`right, tree.repr`parent, tree.repr`red
    modifies tree.sentinel`red, tree.sentinel`parent, node`key
    ensures tree.Located(tree.shape, Top) && RedBlack(tree.shape) && !tree.sentinel.red
    ensures tree.repr == old(tree.repr) - {node} && Order(tree.shape) == Whole(OnlyChild(t), p)
    ensures tree.above == if old(tree.root) == node then node else old(tree.above)
  {
    AroundNode(tree, t, p);
    LeafIsSentinel(t, p, tree.sentinel, View(tree.repr));
    TempFields(tree, node, t, p);
    var temp := if node.left == tree.sentinel then node.right else node.left;
    if node == tree.root {
      RemoveRoot(tree, node, temp, t);
    } else {
      RemoveInner(tree, node, temp, t, p);
    }
  }

  /** node has two children. */
  method DeleteDouble(tree: Tree, node: Node, ghost t: Shape, ghost p: Path) returns (ghost ts: Shape, ghost q: Path)
    requires tree.Located(t, p) && t.Bin? && t.n == node && RedBlack(Plug(p, t)) && !tree.sentinel.red
    requires t.l.Bin? && t.r.Bin?
    modifies tree`root, tree`shape, tree`repr, tree.repr`left, tree.repr`right, tree.repr`parent, tree.repr`red
    modifies tree.sentinel`red, tree.sentinel`parent, node`key
    ensures tree.Located(tree.shape, Top) && RedBlack(tree.shape) && !tree.sentinel.red
    ensures tree.repr == old(tree.repr) - {node} && LeftSpine(q) && ts.Bin? && ts.l.Leaf? && Plug(q, ts) == t.r
    ensures Order(tree.shape) == Whole(ts.r, Compose(q, Rgt(p, t.l, ts.n, t.red)))
  {
    ghost var base := Rgt(p, t.l, node, t.red);
    AroundNode(tree, t, p);
    tree.ZoomRight(t, p);
    var subst;
    subst, ts, q := Min(tree, node.right, t.r, base);
    AroundNode(tree, ts, Compose(q, base));
    assert subst.left == tree.sentinel;   // so the source's test of subst->left always takes the right child
    var temp := subst.right;
    PlugCompose(q, base, ts);
    RemoveSubst(tree, node, subst, temp, ts, q, p, t.l, t.red);
  }

  lemma DoubleOrder(t: Shape, p: Path, ts: Shape, q: Path)
    requires t.Bin? && LeftSpine(q) && ts.Bin? && ts.l.Leaf? && Plug(q, ts) == t.r
    ensures Removed(Whole(t, p), Whole(ts.r, Compose(q, Rgt(p, t.l, ts.n, t.red))), t.n, |Before(p) + Order(t.l)|)
  {
    var base := Rgt(p, t.l, t.n, t.red);
    assert Whole(t, p) == Whole(ts, Compose(q, base)) by {
      PlugOrder(p, t);
      PlugCompose(q, base, ts);
      PlugOrder(Compose(q, base), ts);
    }
    SubstOrder(q, p, t.l, t.n, t.red, ts, Whole(t, p), Whole(ts.r, Compose(q, Rgt(p, t.l, ts.n, t.red))));
  }

  /** The node is the root of the tree and has at most one child. */
  predicate HalfRoot(tree: Tree, node: Node)
    reads tree`root, node`left, node`right
  {
    node == tree.root && (node.left == tree.sentinel || node.right == tree.sentinel)
  }

  /** The structural part of ngx_rbtree_delete. */
  method DeleteNode(tree: Tree, node: Node) returns (ghost i: nat)
    requires tree.Located(tree.shape, Top) && RedBlack(tree.shape) && !tree.sentinel.red && node in tree.repr
    modifies tree`root, tree`shape, tree`repr, tree`above, tree.repr`left, tree.repr`right, tree.repr`parent, tree.repr`red
    modifies tree.sentinel`red, tree.sentinel`parent, node`key
    ensures tree.Located(tree.shape, Top) && RedBlack(tree.shape) && !tree.sentinel.red
    ensures tree.repr == old(tree.repr) - {node} && Removed(old(Order(tree.shape)), Order(tree.shape), node, i)
    ensures tree.above == if old(HalfRoot(tree, node)) then node else old(tree.above)
  {
    ghost var t, p := Find(tree, node, tree.shape, Top);
    AroundNode(tree, t, p);
    LeafIsSentinel(t, p, tree.sentinel, View(tree.repr));
    PlugOrder(p, t);
    i := |Before(p) + Order(t.l)|;
    if node.left == tree.sentinel || node.right == tree.sentinel {
      DeleteSingle(tree, node, t, p);
      BypassOrder(t, p);
    } else {
      ghost var ts, q := DeleteDouble(tree, node, t, p);
      DoubleOrder(t, p, ts, q);
    }
  }

  /** ngx_rbtree_delete; i is the place of the removed node in the old sequence. */
  method Delete(tree: Tree, node: Node) returns (ghost i: nat)
    requires tree.Valid() && node in tree.repr
    modifies tree`root, tree`shape, tree`repr, tree`above, tree.repr`left, tree.repr`right, tree.repr`parent, tree.repr`red
    modifies tree.sentinel`red, tree.sentinel`parent, node`key
    ensures tree.Valid() && tree.repr == old(tree.repr) - {node}
    ensures Removed(old(Order(tree.shape)), Order(tree.shape), node, i)
    ensures KeysOf(tree.repr) == old(KeysOf(tree.repr)) - {node}
    ensures tree.root != tree.sentinel ==> tree.root.parent == if old(HalfRoot(tree, node)) then node else old(tree.root.parent)
    ensures tree.RootFree() <==> tree.root == tree.sentinel || (old(tree.RootFree()) && !old(HalfRoot(tree, node)))
  {
    ghost var s, k, rest := Order(tree.shape), KeysOf(tree.repr), tree.repr - {node};
    assert KeysOf(rest) == k - {node};
    OnceDistinct(tree.shape);
    i := DeleteNode(tree, node);
    assert tree.repr == rest;
    SortedRemoved(s, Order(tree.shape), node, i, k);
  }
}
