/** Why the rebalancing steps of ngx_rbtree.c restore the red-black rules, as
    facts about shapes and paths only. */
module RbRules {
  import opened RbShape

  // ----- after an insertion -----

  /** A red subtree that fits its place, except that the node above may be red too. */
  ghost predicate Rising(t: Shape, p: Path, h: int) {
    t.Bin? && t.red && Balanced(t, h) && NoRedRed(t) && PathFits(p, h)
  }

  ghost function Sibling(p: Path): Shape
    requires p != Top
  {
    if p.Lft? then p.r else p.l
  }

  ghost function Blackened(t: Shape): Shape
    requires t.Bin?
  {
    t.(red := false)
  }

  lemma RecolorRises(t: Shape, p: Path, h: int)
    requires Rising(t, p, h) && PathIsRed(p) && p.up != Top && IsRed(Sibling(p.up))
    ensures var g := Up(Up(t, p), p.up);
            var g' := Bin(Blackened(g.l), g.n, true, Blackened(g.r));
            Rising(g', p.up.up, h + 1) && Whole(g', p.up.up) == Whole(t, p)
  {
    var b := Up(t, p);
    var g := Up(b, p.up);
    var g' := Bin(Blackened(g.l), g.n, true, Blackened(g.r));
    assert PathFits(p.up, h) && PathFits(p.up.up, h + 1);
    assert Balanced(Blackened(b), h + 1) && NoRedRed(Blackened(b));
    assert Balanced(Blackened(Sibling(p.up)), h + 1) && NoRedRed(Blackened(Sibling(p.up)));
    WholeUp(t, p);
    WholeUp(b, p.up);
    assert Order(Blackened(g.l)) == Order(g.l) && Order(Blackened(g.r)) == Order(g.r);
  }

  lemma InnerLeftRises(t: Shape, p: Path, h: int)
    requires Rising(t, p, h) && p.Rgt? && p.red
    ensures var t', p' := Bin(p.l, p.n, true, t.l), Lft(p.up, t.n, true, t.r);
            && RotatedLeft(Up(t, p)) == Up(t', p')
            && Rising(t', p', h) && Whole(t', p') == Whole(t, p)
  {
    WholeUp(t, p);
    WholeUp(Bin(p.l, p.n, true, t.l), Lft(p.up, t.n, true, t.r));
    LeftKeepsOrder(Up(t, p));
  }

  lemma InnerRightRises(t: Shape, p: Path, h: int)
    requires Rising(t, p, h) && p.Lft? && p.red
    ensures var t', p' := Bin(t.r, p.n, true, p.r), Rgt(p.up, t.l, t.n, true);
            && RotatedRight(Up(t, p)) == Up(t', p')
            && Rising(t', p', h) && Whole(t', p') == Whole(t, p)
  {
    WholeUp(t, p);
    WholeUp(Bin(t.r, p.n, true, p.r), Rgt(p.up, t.l, t.n, true));
    RightKeepsOrder(Up(t, p));
  }

  lemma OuterLeftRises(t: Shape, p: Path, h: int)
    requires Rising(t, p, h) && p.Lft? && p.red && p.up.Lft? && !IsRed(p.up.r)
    ensures var p' := Lft(p.up.up, p.n, false, Bin(p.r, p.up.n, true, p.up.r));
            Rising(t, p', h) && Whole(t, p') == Whole(t, p)
  {
    var p' := Lft(p.up.up, p.n, false, Bin(p.r, p.up.n, true, p.up.r));
    assert PathFits(p.up, h) && PathFits(p.up.up, h + 1);
    assert After(p) == [p.n] + Order(p.r) + ([p.up.n] + Order(p.up.r) + After(p.up.up));
    assert After(p') == [p.n] + (Order(p.r) + [p.up.n] + Order(p.up.r)) + After(p.up.up);
    assert After(p') == After(p);
    assert Before(p') == Before(p.up) && Before(p.up) == Before(p);
  }

  lemma OuterRightRises(t: Shape, p: Path, h: int)
    requires Rising(t, p, h) && p.Rgt? && p.red && p.up.Rgt? && !IsRed(p.up.l)
    ensures var p' := Rgt(p.up.up, Bin(p.up.l, p.up.n, true, p.l), p.n, false);
            Rising(t, p', h) && Whole(t, p') == Whole(t, p)
  {
    var p' := Rgt(p.up.up, Bin(p.up.l, p.up.n, true, p.l), p.n, false);
    assert PathFits(p.up, h) && PathFits(p.up.up, h + 1);
    assert Before(p) == (Before(p.up.up) + Order(p.up.l) + [p.up.n]) + Order(p.l) + [p.n];
    assert Before(p') == Before(p.up.up) + (Order(p.up.l) + [p.up.n] + Order(p.l)) + [p.n];
    assert Before(p') == Before(p);
    assert After(p') == After(p.up) && After(p.up) == After(p);
  }

  /** When nothing red is above the risen node, blackening the root finishes. */
  lemma RisenDone(t: Shape, p: Path, h: int)
    requires Rising(t, p, h) && !PathIsRed(p)
    ensures p != Top ==> RedBlack(Plug(p, t))
    ensures p == Top ==> RedBlack(Blackened(t))
  {
    if p == Top {
      assert Balanced(Blackened(t), h + 1);
    } else {
      PlugRedBlack(p, t, h);
    }
  }

  // ----- after a deletion -----

  /** A subtree whose black height is one short for its place; the colour of its
      root is still open. */
  ghost predicate Sinking(t: Shape, p: Path, h: int) {
    && Balanced(t, h) && PathFits(p, h + 1)
    && (t.Bin? ==> NoRedRed(t.l) && NoRedRed(t.r))
  }

  lemma LeftRedSibling(t: Shape, p: Path, h: int)
    requires Sinking(t, p, h) && p.Lft? && IsRed(p.r)
    ensures p.r.l.Bin? && !IsRed(p.r.l) && !p.red
    ensures var p' := Lft(Lft(p.up, p.r.n, false, p.r.r), p.n, true, p.r.l);
            && RotatedLeft(Bin(t, p.n, true, Blackened(p.r))) == Up(Up(t, p'), p'.up)
            && Sinking(t, p', h) && Whole(t, p') == Whole(t, p)
  {
    var p', u := Lft(Lft(p.up, p.r.n, false, p.r.r), p.n, true, p.r.l), Bin(t, p.n, true, Blackened(p.r));
    BalancedHeight(t, h);
    WholeUp(t, p);
    WholeUp(t, p');
    WholeUp(Up(t, p'), p'.up);
    LeftKeepsOrder(u);
    assert Balanced(p.r.l, h + 1) && Balanced(p.r.r, h + 1) && NoRedRed(p.r);
    assert Order(Blackened(p.r)) == Order(p.r);
    assert Order(u) == Order(Up(t, p));
  }

  lemma LeftBlackNephews(t: Shape, p: Path, h: int)
    requires Sinking(t, p, h) && p.Lft? && p.r.Bin? && !p.r.red && !IsRed(p.r.l) && !IsRed(p.r.r) && !IsRed(t)
    ensures var u := Bin(t, p.n, p.red, p.r.(red := true));
            Sinking(u, p.up, if p.red then h else h + 1) && Whole(u, p.up) == Whole(t, p)
  {
    WholeUp(t, p);
    assert Order(p.r.(red := true)) == Order(p.r);
    assert Balanced(p.r.(red := true), h) && NoRedRed(p.r.(red := true));
  }

  lemma LeftInnerNephew(t: Shape, p: Path, h: int)
    requires Sinking(t, p, h) && p.Lft? && p.r.Bin? && !p.r.red && IsRed(p.r.l) && !IsRed(p.r.r)
    ensures var w := RotatedRight(p.r.(l := Blackened(p.r.l), red := true));
            var p' := p.(r := w);
            && IsRed(w.r) && !w.red
            && Sinking(t, p', h) && Whole(t, p') == Whole(t, p)
  {
    var w0 := p.r.(l := Blackened(p.r.l), red := true);
    RightKeepsOrder(w0);
    assert Order(Blackened(p.r.l)) == Order(p.r.l);
    assert Order(w0) == Order(p.r);
    assert Balanced(p.r.l, h) && Balanced(p.r.r, h) && NoRedRed(p.r.l) && NoRedRed(p.r.r);
    var w := RotatedRight(w0);
    assert Balanced(w.r, h) && NoRedRed(w.r);
    assert Balanced(w, h + 1) && NoRedRed(w);
  }

  lemma LeftOuterNephew(t: Shape, p: Path, h: int)
    requires Sinking(t, p, h) && p.Lft? && p.r.Bin? && !p.r.red && IsRed(p.r.r) && !IsRed(t)
    ensures var g := RotatedLeft(Bin(t, p.n, false, p.r.(red := p.red, r := Blackened(p.r.r))));
            RedBlack(Plug(p.up, g)) && Order(Plug(p.up, g)) == Whole(t, p)
  {
    var w := p.r.(red := p.red, r := Blackened(p.r.r));
    var g0 := Bin(t, p.n, false, w);
    var g := RotatedLeft(g0);
    WholeUp(t, p);
    LeftKeepsOrder(g0);
    assert Order(Blackened(p.r.r)) == Order(p.r.r);
    assert Order(w) == Order(p.r);
    PlugOrder(p.up, g);
    assert Balanced(p.r.l, h) && Balanced(p.r.r, h) && NoRedRed(p.r.l) && NoRedRed(p.r.r);
    assert Balanced(Blackened(p.r.r), h + 1) && NoRedRed(Blackened(p.r.r));
    assert Balanced(g.l, h + 1) && NoRedRed(g.l);
    PlugRedBlack(p.up, g, if p.red then h + 1 else h + 2);
  }

  lemma RightRedSibling(t: Shape, p: Path, h: int)
    requires Sinking(t, p, h) && p.Rgt? && IsRed(p.l)
    ensures p.l.r.Bin? && !IsRed(p.l.r) && !p.red
    ensures var p' := Rgt(Rgt(p.up, p.l.l, p.l.n, false), p.l.r, p.n, true);
            && RotatedRight(Bin(Blackened(p.l), p.n, true, t)) == Up(Up(t, p'), p'.up)
            && Sinking(t, p', h) && Whole(t, p') == Whole(t, p)
  {
    var p', u := Rgt(Rgt(p.up, p.l.l, p.l.n, false), p.l.r, p.n, true), Bin(Blackened(p.l), p.n, true, t);
    BalancedHeight(t, h);
    WholeUp(t, p);
    WholeUp(t, p');
    WholeUp(Up(t, p'), p'.up);
    RightKeepsOrder(u);
    assert Balanced(p.l.r, h + 1) && Balanced(p.l.l, h + 1) && NoRedRed(p.l);
    assert Order(Blackened(p.l)) == Order(p.l);
    assert Order(u) == Order(Up(t, p));
  }

  lemma RightBlackNephews(t: Shape, p: Path, h: int)
    requires Sinking(t, p, h) && p.Rgt? && p.l.Bin? && !p.l.red && !IsRed(p.l.r) && !IsRed(p.l.l) && !IsRed(t)
    ensures var u := Bin(p.l.(red := true), p.n, p.red, t);
            Sinking(u, p.up, if p.red then h else h + 1) && Whole(u, p.up) == Whole(t, p)
  {
    WholeUp(t, p);
    assert Order(p.l.(red := true)) == Order(p.l);
    assert Balanced(p.l.(red := true), h) && NoRedRed(p.l.(red := true));
  }

  lemma RightInnerNephew(t: Shape, p: Path, h: int)
    requires Sinking(t, p, h) && p.Rgt? && p.l.Bin? && !p.l.red && IsRed(p.l.r) && !IsRed(p.l.l)
    ensures var w := RotatedLeft(p.l.(r := Blackened(p.l.r), red := true));
            var p' := p.(l := w);
            && IsRed(w.l) && !w.red
            && Sinking(t, p', h) && Whole(t, p') == Whole(t, p)
  {
    var w0 := p.l.(r := Blackened(p.l.r), red := true);
    LeftKeepsOrder(w0);
    assert Order(Blackened(p.l.r)) == Order(p.l.r);
    assert Order(w0) == Order(p.l);
    assert Balanced(p.l.r, h) && Balanced(p.l.l, h) && NoRedRed(p.l.r) && NoRedRed(p.l.l);
    var w := RotatedLeft(w0);
    assert Balanced(w.l, h) && NoRedRed(w.l);
    assert Balanced(w, h + 1) && NoRedRed(w);
  }

  lemma RightOuterNephew(t: Shape, p: Path, h: int)
    requires Sinking(t, p, h) && p.Rgt? && p.l.Bin? && !p.l.red && IsRed(p.l.l) && !IsRed(t)
    ensures var g := RotatedRight(Bin(p.l.(red := p.red, l := Blackened(p.l.l)), p.n, false, t));
            RedBlack(Plug(p.up, g)) && Order(Plug(p.up, g)) == Whole(t, p)
  {
    var w := p.l.(red := p.red, l := Blackened(p.l.l));
    var g0 := Bin(w, p.n, false, t);
    var g := RotatedRight(g0);
    WholeUp(t, p);
    RightKeepsOrder(g0);
    assert Order(Blackened(p.l.l)) == Order(p.l.l);
    assert Order(w) == Order(p.l);
    PlugOrder(p.up, g);
    assert Balanced(p.l.r, h) && Balanced(p.l.l, h) && NoRedRed(p.l.r) && NoRedRed(p.l.l);
    assert Balanced(Blackened(p.l.l), h + 1) && NoRedRed(Blackened(p.l.l));
    assert Balanced(g.r, h + 1) && NoRedRed(g.r);
    PlugRedBlack(p.up, g, if p.red then h + 1 else h + 2);
  }

  /** At the root, or at a red node, blackening that node makes up for the loss. */
  lemma SunkDone(t: Shape, p: Path, h: int)
    requires Sinking(t, p, h) && (p == Top || IsRed(t))
    ensures var t' := if t.Bin? then Blackened(t) else t;
            RedBlack(Plug(p, t')) && Order(Plug(p, t')) == Whole(t, p)
  {
    var t' := if t.Bin? then Blackened(t) else t;
    PlugOrder(p, t');
    if p == Top {
      assert Balanced(t', if IsRed(t) then h + 1 else h);
    } else {
      PlugRedBlack(p, t', h + 1);
    }
  }

  /** The sibling of a sinking subtree is a real node. */
  lemma SiblingExists(t: Shape, p: Path, h: int)
    requires Sinking(t, p, h) && p != Top
    ensures Sibling(p).Bin?
  {
    BalancedHeight(t, h);
  }

  /** What is left when a node with at most one child goes: nothing to repair if
      it was red, one black node too few if it was black. */
  ghost predicate Repairable(c: Shape, p: Path, red: bool) {
    && (red ==> !IsRed(c) && exists h :: Balanced(c, h) && PathFits(p, h) && NoRedRed(c))
    && (!red ==> exists h :: Sinking(c, p, h))
  }

  lemma BypassRules(t: Shape, p: Path)
    requires RedBlack(Plug(p, t)) && t.Bin? && (t.l.Leaf? || t.r.Leaf?)
    ensures Repairable(OnlyChild(t), p, t.red)
  {
    UnplugRedBlack(p, t);
    var c := OnlyChild(t);
    var h :| Balanced(t, h) && PathFits(p, h);
    if t.red {
      assert Balanced(c, h) && PathFits(p, h) && NoRedRed(c);
    } else {
      assert Sinking(c, p, h - 1);
    }
  }

  /** The rules do not depend on which node sits where. */
  lemma {:induction false} RenameFits(q: Path, p: Path, l: Shape, n: Node, n': Node, red: bool, h: int)
    ensures PathFits(Compose(q, Rgt(p, l, n, red)), h) ==> PathFits(Compose(q, Rgt(p, l, n', red)), h)
    ensures PathIsRed(Compose(q, Rgt(p, l, n, red))) == PathIsRed(Compose(q, Rgt(p, l, n', red)))
    decreases q
  {
    if q != Top {
      RenameFits(q.up, p, l, n, n', red, if q.red then h else h + 1);
    }
  }

  lemma RenameRepairable(q: Path, p: Path, l: Shape, n: Node, n': Node, red: bool, c: Shape, was: bool)
    requires Repairable(c, Compose(q, Rgt(p, l, n, red)), was)
    ensures Repairable(c, Compose(q, Rgt(p, l, n', red)), was)
  {
    var p0, p1 := Compose(q, Rgt(p, l, n, red)), Compose(q, Rgt(p, l, n', red));
    if was {
      var h :| Balanced(c, h) && PathFits(p0, h) && NoRedRed(c);
      RenameFits(q, p, l, n, n', red, h);
      assert Balanced(c, h) && PathFits(p1, h) && NoRedRed(c);
    } else {
      var h :| Sinking(c, p0, h);
      RenameFits(q, p, l, n, n', red, h + 1);
      assert Sinking(c, p1, h);
    }
  }

  /** s' is s without its i-th element, which is n. */
  ghost predicate Removed(s: seq<Node>, s': seq<Node>, n: Node, i: nat) {
    i < |s| && s[i] == n && s' == s[..i] + s[i + 1..]
  }

  lemma DropIn(a: seq<Node>, l: seq<Node>, n: Node, r: seq<Node>, d: seq<Node>)
    ensures var s, i := a + (l + [n] + r) + d, |a| + |l|;
            s[i] == n && s[..i] + s[i + 1..] == a + (l + r) + d
  {
  }

  lemma DropBefore(s: seq<Node>, s': seq<Node>, a: seq<Node>, n: Node, b: seq<Node>, d: seq<Node>)
    requires s == (a + [n]) + b + d && s' == a + b + d
    ensures Removed(s, s', n, |a|)
  {
  }

  lemma MoveBefore(a: seq<Node>, n: Node, b: seq<Node>, d: seq<Node>)
    ensures (a + [n]) + b + d == a + ([] + [n] + b) + d
  {
  }

  /** Passing over a node with at most one child removes it from the order. */
  lemma BypassOrder(t: Shape, p: Path)
    requires t.Bin? && (t.l.Leaf? || t.r.Leaf?)
    ensures Removed(Whole(t, p), Whole(OnlyChild(t), p), t.n, |Before(p) + Order(t.l)|)
  {
    DropIn(Before(p), Order(t.l), t.n, Order(t.r), After(p));
    assert Order(OnlyChild(t)) == Order(t.l) + Order(t.r);
  }

  /** Moving the least node of the right subtree into the place of `node` removes
      `node` from the order. */
  lemma SubstOrder(q: Path, p: Path, l: Shape, node: Node, red: bool, t: Shape, s: seq<Node>, s': seq<Node>)
    requires LeftSpine(q) && t.Bin? && t.l.Leaf?
    requires s == Whole(t, Compose(q, Rgt(p, l, node, red)))
    requires s' == Whole(t.r, Compose(q, Rgt(p, l, t.n, red)))
    ensures Removed(s, s', node, |Before(p) + Order(l)|)
  {
    SubstOld(q, p, l, node, red, t);
    SubstNew(q, p, l, red, t);
    DropBefore(s, s', Before(p) + Order(l), node, Order(t), After(q) + After(p));
  }

  lemma SubstOld(q: Path, p: Path, l: Shape, node: Node, red: bool, t: Shape)
    requires LeftSpine(q)
    ensures Whole(t, Compose(q, Rgt(p, l, node, red)))
         == ((Before(p) + Order(l)) + [node]) + Order(t) + (After(q) + After(p))
  {
    SubstParts(q, p, l, node, red);
  }

  lemma SubstNew(q: Path, p: Path, l: Shape, red: bool, t: Shape)
    requires LeftSpine(q) && t.Bin? && t.l.Leaf?
    ensures Whole(t.r, Compose(q, Rgt(p, l, t.n, red))) == (Before(p) + Order(l)) + Order(t) + (After(q) + After(p))
  {
    SubstOld(q, p, l, t.n, red, t.r);
    MoveBefore(Before(p) + Order(l), t.n, Order(t.r), After(q) + After(p));
  }

  lemma SubstParts(q: Path, p: Path, l: Shape, n: Node, red: bool)
    requires LeftSpine(q)
    ensures Before(Compose(q, Rgt(p, l, n, red))) == Before(p) + Order(l) + [n]
    ensures After(Compose(q, Rgt(p, l, n, red))) == After(q) + After(p)
  {
    LeftSpineBefore(q);
    ComposeOrder(q, Rgt(p, l, n, red));
  }

  // ----- the order of keys -----

  type Keys = map<Node, nat>

  ghost function KeysOf(nodes: set<Node>): Keys
    reads nodes`key
  {
    map x | x in nodes :: x.key
  }

  ghost predicate Sorted(s: seq<Node>, keys: Keys) {
    && (forall x <- s :: x in keys)
    && forall i, j :: 0 <= i < j < |s| ==> keys[s[i]] <= keys[s[j]]
  }

  ghost predicate AtMost(s: seq<Node>, key: nat, keys: Keys) {
    forall x <- s :: x in keys && keys[x] <= key
  }

  ghost predicate Above(s: seq<Node>, key: nat, keys: Keys) {
    forall x <- s :: x in keys && key < keys[x]
  }

  /** The hole of p is the place of a new key: after every key that is not greater. */
  ghost predicate Between(p: Path, key: nat, keys: Keys) {
    AtMost(Before(p), key, keys) && Above(After(p), key, keys)
  }

  lemma InsertOrder(p: Path, node: Node, s: seq<Node>, key: nat, keys: Keys)
    requires s == Order(Plug(p, Leaf)) && Sorted(s, keys) && Between(p, key, keys) && node !in keys
    ensures |Before(p)| <= |s|
    ensures var i, keys' := |Before(p)|, keys[node := key];
            var s' := s[..i] + [node] + s[i..];
            && s' == Whole(Bin(Leaf, node, true, Leaf), p) && Sorted(s', keys')
            && AtMost(s[..i], key, keys') && Above(s[i..], key, keys')
  {
    var a, b := Before(p), After(p);
    assert s == a + b by { PlugOrder(p, Leaf); }
    assert s[..|a|] == a && s[|a|..] == b;
    assert Order(Bin(Leaf, node, true, Leaf)) == [node];
    SortedInsert(a, node, b, key, keys);
  }

  lemma SortedInsert(a: seq<Node>, n: Node, b: seq<Node>, key: nat, keys: Keys)
    requires Sorted(a + b, keys) && n !in keys && AtMost(a, key, keys) && Above(b, key, keys)
    ensures Sorted(a + [n] + b, keys[n := key])
  {
    var s := a + [n] + b;
    forall i, j | 0 <= i < j < |s| ensures keys[n := key][s[i]] <= keys[n := key][s[j]] {
      if i < |a| && j > |a| {
        assert s[i] == (a + b)[i] && s[j] == (a + b)[j - 1];
      } else if j < |a| {
        assert s[i] == (a + b)[i] && s[j] == (a + b)[j];
      } else if i > |a| {
        assert s[i] == (a + b)[i - 1] && s[j] == (a + b)[j - 1];
      }
    }
  }

  lemma StepBetween(t: Shape, p: Path, key: nat, keys: Keys)
    requires t.Bin? && Sorted(Order(Plug(p, t)), keys) && Between(p, key, keys) && t.n in keys
    ensures Between(if key < keys[t.n] then Lft(p, t.n, t.red, t.r) else Rgt(p, t.l, t.n, t.red), key, keys)
  {
    PlugOrder(p, t);
    SplitSorted(Before(p), Order(t.l), t.n, Order(t.r), After(p), keys);
  }

  lemma SplitSorted(a: seq<Node>, b: seq<Node>, n: Node, c: seq<Node>, d: seq<Node>, keys: Keys)
    requires Sorted(a + (b + [n] + c) + d, keys) && n in keys
    ensures forall x <- b :: x in keys && keys[x] <= keys[n]
    ensures forall x <- c :: x in keys && keys[n] <= keys[x]
  {
    var s := a + (b + [n] + c) + d;
    assert s[|a| + |b|] == n;
    forall x | x in b ensures x in keys && keys[x] <= keys[n] {
      var i :| 0 <= i < |b| && b[i] == x;
      assert s[|a| + i] == x;
    }
    forall x | x in c ensures x in keys && keys[n] <= keys[x] {
      var i :| 0 <= i < |c| && c[i] == x;
      assert s[|a| + |b| + 1 + i] == x;
    }
  }

  lemma SortedRemoved(s: seq<Node>, s': seq<Node>, n: Node, i: nat, keys: Keys)
    requires Removed(s, s', n, i) && Sorted(s, keys) && Distinct(s)
    ensures Sorted(s', keys - {n})
  {
    forall j | 0 <= j < |s'| ensures s'[j] in keys - {n} && s'[j] == s[if j < i then j else j + 1] {
    }
  }
}
