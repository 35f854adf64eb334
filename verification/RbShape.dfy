/** The tree nodes of ngx_rbtree.h and the mathematics of the trees they form.

    A `Shape` is the abstract value of a (sub)tree: which node sits where, and
    its colour.  A `Path` is a tree with one subtree missing, read from the hole
    upwards; it is what a loop that climbs through parent pointers walks along. */
module RbShape {

  class Node {
    var key: nat
    var left: Node?
    var right: Node?
    var parent: Node?
    var red: bool

    constructor (k: nat)
      ensures key == k
    {
      key := k;
      left, right, parent, red := null, null, null, false;
    }
  }

  datatype Shape = Leaf | Bin(l: Shape, n: Node, red: bool, r: Shape)

  datatype Path =
    | Top
    | Lft(up: Path, n: Node, red: bool, r: Shape)   // the hole is the left child of n
    | Rgt(up: Path, l: Shape, n: Node, red: bool)   // the hole is the right child of n

  // ----- contents -----

  ghost function Nodes(t: Shape): set<Node> {
    match t
    case Leaf => {}
    case Bin(l, n, _, r) => Nodes(l) + {n} + Nodes(r)
  }

  ghost function PathNodes(p: Path): set<Node> {
    match p
    case Top => {}
    case Lft(up, n, _, r) => PathNodes(up) + {n} + Nodes(r)
    case Rgt(up, l, n, _) => PathNodes(up) + {n} + Nodes(l)
  }

  /** The in-order node sequence. */
  ghost function Order(t: Shape): seq<Node> {
    match t
    case Leaf => []
    case Bin(l, n, _, r) => Order(l) + [n] + Order(r)
  }

  /** What precedes and what follows the hole of a path, in order. */
  ghost function Before(p: Path): seq<Node> {
    match p
    case Top => []
    case Lft(up, n, _, r) => Before(up)
    case Rgt(up, l, n, _) => Before(up) + Order(l) + [n]
  }

  ghost function After(p: Path): seq<Node> {
    match p
    case Top => []
    case Lft(up, n, _, r) => [n] + Order(r) + After(up)
    case Rgt(up, l, n, _) => After(up)
  }

  ghost function Plug(p: Path, t: Shape): Shape {
    match p
    case Top => t
    case Lft(up, n, red, r) => Plug(up, Bin(t, n, red, r))
    case Rgt(up, l, n, red) => Plug(up, Bin(l, n, red, t))
  }

  lemma Regroup(a: seq<Node>, b: seq<Node>, n: Node, c: seq<Node>, d: seq<Node>)
    ensures a + (b + [n] + c) + d == a + b + ([n] + c + d)
    ensures a + (b + [n] + c) + d == (a + b + [n]) + c + d
  {
  }

  ghost function Depth(p: Path): nat {
    if p == Top then 0 else 1 + Depth(p.up)
  }

  /** The subtree one level up: p's node with t in p's hole. */
  ghost function Up(t: Shape, p: Path): Shape
    requires p != Top
  {
    if p.Lft? then Bin(t, p.n, p.red, p.r) else Bin(p.l, p.n, p.red, t)
  }

  /** The in-order sequence of the whole tree, seen from t in p. */
  ghost function Whole(t: Shape, p: Path): seq<Node> {
    Before(p) + Order(t) + After(p)
  }

  lemma WholeUp(t: Shape, p: Path)
    requires p != Top
    ensures Whole(t, p) == Whole(Up(t, p), p.up)
  {
    if p.Lft? {
      Regroup(Before(p.up), Order(t), p.n, Order(p.r), After(p.up));
    } else {
      Regroup(Before(p.up), Order(p.l), p.n, Order(t), After(p.up));
    }
  }

  lemma {:induction false} PlugOrder(p: Path, t: Shape)
    ensures Order(Plug(p, t)) == Whole(t, p)
    decreases p
  {
    if p != Top {
      PlugOrder(p.up, Up(t, p));
      WholeUp(t, p);
    }
  }

  lemma {:induction false} PlugNodes(p: Path, t: Shape)
    ensures Nodes(Plug(p, t)) == PathNodes(p) + Nodes(t)
    decreases p
  {
    match p
    case Top =>
    case Lft(up, n, red, r) => PlugNodes(up, Bin(t, n, red, r));
    case Rgt(up, l, n, red) => PlugNodes(up, Bin(l, n, red, t));
  }

  lemma {:induction false} PlugBin(p: Path, t: Shape)
    requires t.Bin?
    ensures Plug(p, t).Bin?
    decreases p
  {
    if p != Top { PlugBin(p.up, Up(t, p)); }
  }

  lemma {:induction false} OrderNodes(t: Shape, x: Node)
    ensures x in Order(t) <==> x in Nodes(t)
  {
    match t
    case Leaf =>
    case Bin(l, _, _, r) => OrderNodes(l, x); OrderNodes(r, x);
  }

  // ----- every node occurs once -----

  ghost predicate Once(t: Shape) {
    match t
    case Leaf => true
    case Bin(l, n, _, r) =>
      n !in Nodes(l) && n !in Nodes(r) && Nodes(l) !! Nodes(r) && Once(l) && Once(r)
  }

  ghost predicate PathOnce(p: Path) {
    match p
    case Top => true
    case Lft(up, n, _, r) =>
      n !in Nodes(r) && n !in PathNodes(up) && Nodes(r) !! PathNodes(up) && Once(r) && PathOnce(up)
    case Rgt(up, l, n, _) =>
      n !in Nodes(l) && n !in PathNodes(up) && Nodes(l) !! PathNodes(up) && Once(l) && PathOnce(up)
  }

  ghost predicate Distinct(s: seq<Node>) {
    forall i, j :: 0 <= i < j < |s| ==> s[i] != s[j]
  }

  lemma {:induction false} OnceDistinct(t: Shape)
    requires Once(t)
    ensures Distinct(Order(t))
  {
    if t.Bin? {
      OnceDistinct(t.l);
      OnceDistinct(t.r);
      OrderNodes(t.l, t.n);
      OrderNodes(t.r, t.n);
      forall x | x in Order(t.l) ensures x !in Order(t.r) {
        OrderNodes(t.l, x);
        OrderNodes(t.r, x);
      }
      DistinctJoin(Order(t.l), t.n, Order(t.r));
    }
  }

  lemma DistinctJoin(a: seq<Node>, n: Node, b: seq<Node>)
    requires Distinct(a) && Distinct(b) && n !in a && n !in b && forall x <- a :: x !in b
    ensures Distinct(a + [n] + b)
  {
    var s := a + [n] + b;
    forall i, j | 0 <= i < j < |s| ensures s[i] != s[j] {
      assert i < |a| ==> s[i] in a;
      assert j > |a| ==> s[j] in b;
    }
  }

  // ----- the red-black rules -----

  ghost predicate IsRed(t: Shape) { t.Bin? && t.red }

  /** Every way down from the root passes h black nodes. */
  ghost predicate Balanced(t: Shape, h: int) {
    match t
    case Leaf => h == 0
    case Bin(l, _, red, r) =>
      var g := if red then h else h - 1;
      Balanced(l, g) && Balanced(r, g)
  }

  ghost predicate NoRedRed(t: Shape) {
    match t
    case Leaf => true
    case Bin(l, _, red, r) => (red ==> !IsRed(l) && !IsRed(r)) && NoRedRed(l) && NoRedRed(r)
  }

  ghost predicate RedBlack(t: Shape) {
    !IsRed(t) && NoRedRed(t) && exists h :: Balanced(t, h)
  }

  ghost predicate PathIsRed(p: Path) { p != Top && p.red }

  /** A path that obeys the rules, apart from the colour of what fills its hole,
      when that filling has black height h. */
  ghost predicate PathFits(p: Path, h: int) {
    match p
    case Top => true
    case Lft(up, _, red, r) =>
      Balanced(r, h) && NoRedRed(r) && PathFits(up, if red then h else h + 1)
      && (red ==> !IsRed(r) && up != Top && !up.red)
    case Rgt(up, l, _, red) =>
      Balanced(l, h) && NoRedRed(l) && PathFits(up, if red then h else h + 1)
      && (red ==> !IsRed(l) && up != Top && !up.red)
  }

  lemma {:induction false} BalancedHeight(t: Shape, h: int)
    requires Balanced(t, h)
    ensures h >= 0
  {
    if t.Bin? { BalancedHeight(t.l, if t.red then h else h - 1); }
  }

  /** A fitting subtree in a fitting path makes a red-black tree. */
  lemma {:induction false} PlugRedBlack(p: Path, t: Shape, h: int)
    requires PathFits(p, h) && Balanced(t, h) && NoRedRed(t)
    requires IsRed(t) ==> p != Top && !p.red
    ensures RedBlack(Plug(p, t))
    decreases p
  {
    match p
    case Top =>
    case Lft(up, n, red, r) => PlugRedBlack(up, Bin(t, n, red, r), if red then h else h + 1);
    case Rgt(up, l, n, red) => PlugRedBlack(up, Bin(l, n, red, t), if red then h else h + 1);
  }

  /** Conversely, a red-black tree can be taken apart along any path. */
  lemma {:induction false} UnplugRedBlack(p: Path, t: Shape)
    requires RedBlack(Plug(p, t))
    ensures NoRedRed(t) && (IsRed(t) ==> p != Top && !p.red)
    ensures exists h :: Balanced(t, h) && PathFits(p, h)
    decreases p
  {
    match p
    case Top =>
      var h :| Balanced(t, h);
      assert PathFits(p, h);
    case Lft(up, n, red, r) =>
      var b := Bin(t, n, red, r);
      UnplugRedBlack(up, b);
      var g :| Balanced(b, g) && PathFits(up, g);
      var h := if red then g else g - 1;
      assert Balanced(t, h) && PathFits(p, h);
    case Rgt(up, l, n, red) =>
      var b := Bin(l, n, red, t);
      UnplugRedBlack(up, b);
      var g :| Balanced(b, g) && PathFits(up, g);
      var h := if red then g else g - 1;
      assert Balanced(t, h) && PathFits(p, h);
  }

  // ----- how a shape sits in memory -----

  /** The pointer that stands for a subtree; the sentinel s stands for a leaf. */
  ghost function RootOf(t: Shape, s: Node): Node {
    if t.Bin? then t.n else s
  }

  ghost function TopOf(p: Path, c: Node): Node
    decreases p
  {
    if p == Top then c else TopOf(p.up, p.n)
  }

  lemma {:induction false} TopOfPath(p: Path, c: Node)
    requires p != Top
    ensures TopOf(p, c) in PathNodes(p)
    decreases p
  {
    if p.up != Top { TopOfPath(p.up, p.n); }
  }

  ghost function ParentOf(p: Path): Node? {
    if p == Top then null else p.n
  }

  /** A snapshot of the link fields of some nodes. */
  datatype Cell = Cell(left: Node?, right: Node?, parent: Node?, red: bool)

  type Memory = map<Node, Cell>

  ghost function View(nodes: set<Node>): Memory
    reads nodes
  {
    map x | x in nodes :: Cell(x.left, x.right, x.parent, x.red)
  }

  /** Memory m spells out the subtree t, hanging from the node `up`.  A null `up`
      leaves the parent of the root of t open. */
  ghost predicate Linked(t: Shape, up: Node?, s: Node, m: Memory) {
    match t
    case Leaf => true
    case Bin(l, n, red, r) =>
      && n in m && m[n].left == RootOf(l, s) && m[n].right == RootOf(r, s) && m[n].red == red
      && (up != null ==> m[n].parent == up)
      && Linked(l, n, s, m) && Linked(r, n, s, m)
  }

  /** Memory m spells out the path p, with pointer c in its hole. */
  ghost predicate PathLinked(p: Path, c: Node, s: Node, m: Memory)
    decreases p
  {
    match p
    case Top => true
    case Lft(up, n, red, r) =>
      && n in m && m[n] == Cell(c, RootOf(r, s), m[n].parent, red)
      && (up != Top ==> m[n].parent == up.n)
      && Linked(r, n, s, m) && PathLinked(up, n, s, m)
    case Rgt(up, l, n, red) =>
      && n in m && m[n] == Cell(RootOf(l, s), c, m[n].parent, red)
      && (up != Top ==> m[n].parent == up.n)
      && Linked(l, n, s, m) && PathLinked(up, n, s, m)
  }

  ghost predicate Agree(m: Memory, m': Memory, nodes: set<Node>) {
    forall x <- nodes :: x in m ==> x in m' && m'[x] == m[x]
  }

  lemma {:induction false} LinkedFrame(t: Shape, up: Node?, s: Node, m: Memory, m': Memory)
    requires Linked(t, up, s, m) && Agree(m, m', Nodes(t))
    ensures Linked(t, up, s, m')
  {
    if t.Bin? {
      LinkedFrame(t.l, t.n, s, m, m');
      LinkedFrame(t.r, t.n, s, m, m');
    }
  }

  lemma {:induction false} PathFrame(p: Path, c: Node, s: Node, m: Memory, m': Memory)
    requires PathLinked(p, c, s, m) && Agree(m, m', PathNodes(p))
    ensures PathLinked(p, c, s, m')
    decreases p
  {
    if p != Top {
      PathFrame(p.up, p.n, s, m, m');
      LinkedFrame(if p.Lft? then p.r else p.l, p.n, s, m, m');
    }
  }

  /** Writing the child pointer at the hole of a path replaces what fills it. */
  lemma PathRefilled(p: Path, c: Node, c': Node, s: Node, m: Memory, m': Memory)
    requires PathOnce(p) && PathLinked(p, c, s, m)
    requires p != Top ==> Agree(m, m', PathNodes(p) - {p.n}) && p.n in m' &&
                          m'[p.n] == if p.Lft? then m[p.n].(left := c') else m[p.n].(right := c')
    ensures PathLinked(p, c', s, m')
  {
    if p != Top {
      PathFrame(p.up, p.n, s, m, m');
      LinkedFrame(if p.Lft? then p.r else p.l, p.n, s, m, m');
    }
  }

  /** A subtree can be hung from another node by writing the parent of its root. */
  lemma Rehung(t: Shape, up: Node?, up': Node, s: Node, m: Memory, m': Memory)
    requires Once(t) && Linked(t, up, s, m)
    requires t.Bin? ==> Agree(m, m', Nodes(t) - {t.n}) && t.n in m' && m'[t.n] == m[t.n].(parent := up')
    ensures Linked(t, up', s, m')
  {
    if t.Bin? {
      LinkedFrame(t.l, t.n, s, m, m');
      LinkedFrame(t.r, t.n, s, m, m');
    }
  }

  lemma Painted(t: Shape, p: Path, s: Node, red: bool, m: Memory)
    requires Once(t) && Nodes(t) !! PathNodes(p) && t.Bin?
    requires Linked(t, ParentOf(p), s, m) && PathLinked(p, t.n, s, m)
    ensures var m' := m[t.n := m[t.n].(red := red)];
            Linked(t.(red := red), ParentOf(p), s, m') && PathLinked(p, t.n, s, m')
  {
    var m' := m[t.n := m[t.n].(red := red)];
    LinkedFrame(t.l, t.n, s, m, m');
    LinkedFrame(t.r, t.n, s, m, m');
    PathFrame(p, t.n, s, m, m');
  }

  // ----- rotations -----

  ghost function RotatedLeft(t: Shape): Shape
    requires t.Bin? && t.r.Bin?
  {
    Bin(Bin(t.l, t.n, t.red, t.r.l), t.r.n, t.r.red, t.r.r)
  }

  ghost function RotatedRight(t: Shape): Shape
    requires t.Bin? && t.l.Bin?
  {
    Bin(t.l.l, t.l.n, t.l.red, Bin(t.l.r, t.n, t.red, t.r))
  }

  lemma LeftKeepsOrder(t: Shape)
    requires t.Bin? && t.r.Bin?
    ensures Order(RotatedLeft(t)) == Order(t)
    ensures Nodes(RotatedLeft(t)) == Nodes(t)
  {
    var y := t.r;
    assert Order(y) == Order(y.l) + [y.n] + Order(y.r);
    assert Order(RotatedLeft(t).l) == Order(t.l) + [t.n] + Order(y.l);
    assert Nodes(RotatedLeft(t).l) == Nodes(t.l) + {t.n} + Nodes(y.l);
  }

  lemma RightKeepsOrder(t: Shape)
    requires t.Bin? && t.l.Bin?
    ensures Order(RotatedRight(t)) == Order(t)
    ensures Nodes(RotatedRight(t)) == Nodes(t)
  {
    var y := t.l;
    assert Order(y) == Order(y.l) + [y.n] + Order(y.r);
    assert Order(RotatedRight(t).r) == Order(y.r) + [t.n] + Order(t.r);
    assert Nodes(RotatedRight(t).r) == Nodes(y.r) + {t.n} + Nodes(t.r);
  }

  lemma RotationsKeepOnce(t: Shape)
    requires Once(t) && t.Bin?
    ensures t.r.Bin? ==> Once(RotatedLeft(t))
    ensures t.l.Bin? ==> Once(RotatedRight(t))
  {
    assert t.r.Bin? ==> Nodes(t.r) == Nodes(t.r.l) + {t.r.n} + Nodes(t.r.r) && Once(t.r);
    assert t.l.Bin? ==> Nodes(t.l) == Nodes(t.l.l) + {t.l.n} + Nodes(t.l.r) && Once(t.l);
    if t.r.Bin? {
      assert Nodes(RotatedLeft(t).l) == Nodes(t.l) + {t.n} + Nodes(t.r.l);
      assert Once(RotatedLeft(t).l);
    }
    if t.l.Bin? {
      assert Nodes(RotatedRight(t).r) == Nodes(t.l.r) + {t.n} + Nodes(t.r);
      assert Once(RotatedRight(t).r);
    }
  }

  /** The pointer writes of a left rotation at `node`, in terms of memory. */
  ghost predicate CanTurnLeft(m: Memory, node: Node, s: Node, atRoot: bool) {
    && s !in m && node in m
    && var temp, up := m[node].right, m[node].parent;
    && temp != null && temp in m && temp != node
    && var b := m[temp].left;
    && b != null && (b == s || b in m) && b != node && b != temp
    && (atRoot || (up != null && up in m && up != node && up != temp && up != b))
  }

  ghost predicate TurnedLeft(m: Memory, m': Memory, node: Node, temp: Node, b: Node, up: Node?, s: Node, atRoot: bool) {
    && m'.Keys == m.Keys && node in m && temp in m
    && m'[node] == m[node].(right := b, parent := temp)
    && m'[temp] == m[temp].(left := node, parent := up)
    && (b != s ==> b in m && m'[b] == m[b].(parent := node))
    && (!atRoot ==> up != null && up in m
                    && m'[up] == if m[up].left == node then m[up].(left := temp) else m[up].(right := temp))
    && forall x <- m :: x != node && x != temp && x != b && (atRoot || x != up) ==> m'[x] == m[x]
  }

  ghost predicate CanTurnRight(m: Memory, node: Node, s: Node, atRoot: bool) {
    && s !in m && node in m
    && var temp, up := m[node].left, m[node].parent;
    && temp != null && temp in m && temp != node
    && var b := m[temp].right;
    && b != null && (b == s || b in m) && b != node && b != temp
    && (atRoot || (up != null && up in m && up != node && up != temp && up != b))
  }

  ghost predicate TurnedRight(m: Memory, m': Memory, node: Node, temp: Node, b: Node, up: Node?, s: Node, atRoot: bool) {
    && m'.Keys == m.Keys && node in m && temp in m
    && m'[node] == m[node].(left := b, parent := temp)
    && m'[temp] == m[temp].(right := node, parent := up)
    && (b != s ==> b in m && m'[b] == m[b].(parent := node))
    && (!atRoot ==> up != null && up in m
                    && m'[up] == if m[up].right == node then m[up].(right := temp) else m[up].(left := temp))
    && forall x <- m :: x != node && x != temp && x != b && (atRoot || x != up) ==> m'[x] == m[x]
  }

  /** Subtree t in path p, as memory holds them. */
  ghost predicate LocatedIn(t: Shape, p: Path, s: Node, m: Memory) {
    && m.Keys == Nodes(t) + PathNodes(p) && s !in m
    && Once(t) && PathOnce(p) && Nodes(t) !! PathNodes(p)
    && Linked(t, ParentOf(p), s, m) && PathLinked(p, RootOf(t, s), s, m)
  }

  lemma LeftReady(t: Shape, p: Path, s: Node, m: Memory)
    requires LocatedIn(t, p, s, m) && t.Bin? && t.r.Bin?
    ensures CanTurnLeft(m, t.n, s, p == Top)
  {
    var b := t.r.l;
    assert Linked(t.r, t.n, s, m) && Once(t.r) && Linked(b, t.r.n, s, m);
    assert b.Bin? ==> b.n in Nodes(b) && b.n in Nodes(t.r);
  }

  lemma RightReady(t: Shape, p: Path, s: Node, m: Memory)
    requires LocatedIn(t, p, s, m) && t.Bin? && t.l.Bin?
    ensures CanTurnRight(m, t.n, s, p == Top)
  {
    var b := t.l.r;
    assert Linked(t.l, t.n, s, m) && Once(t.l) && Linked(b, t.l.n, s, m);
    assert b.Bin? ==> b.n in Nodes(b) && b.n in Nodes(t.l);
  }

  lemma LeftSubtree(t: Shape, p: Path, s: Node, m: Memory, m': Memory)
    requires LocatedIn(t, p, s, m) && t.Bin? && t.r.Bin?
    requires TurnedLeft(m, m', t.n, t.r.n, RootOf(t.r.l, s), m[t.n].parent, s, p == Top)
    ensures Linked(RotatedLeft(t), ParentOf(p), s, m')
  {
    var b := t.r.l;
    assert Linked(t.r, t.n, s, m) && Once(t.r);
    assert Nodes(t.r) == Nodes(b) + {t.r.n} + Nodes(t.r.r);
    assert b.Bin? ==> b.n in Nodes(b);
    LinkedFrame(t.l, t.n, s, m, m');
    Rehung(b, t.r.n, t.n, s, m, m');
    LinkedFrame(t.r.r, t.r.n, s, m, m');
  }

  lemma LeftPath(t: Shape, p: Path, s: Node, m: Memory, m': Memory)
    requires LocatedIn(t, p, s, m) && t.Bin? && t.r.Bin?
    requires TurnedLeft(m, m', t.n, t.r.n, RootOf(t.r.l, s), m[t.n].parent, s, p == Top)
    ensures PathLinked(p, t.r.n, s, m')
  {
    var b := t.r.l;
    assert Linked(t.r, t.n, s, m);
    assert b.Bin? ==> b.n in Nodes(b) && b.n in Nodes(t.r) && b.n in Nodes(t);
    PathRefilled(p, t.n, t.r.n, s, m, m');
  }

  lemma LeftRotated(t: Shape, p: Path, s: Node, m: Memory, m': Memory)
    requires LocatedIn(t, p, s, m) && t.Bin? && t.r.Bin?
    requires TurnedLeft(m, m', t.n, t.r.n, RootOf(t.r.l, s), m[t.n].parent, s, p == Top)
    ensures LocatedIn(RotatedLeft(t), p, s, m')
  {
    LeftSubtree(t, p, s, m, m');
    LeftPath(t, p, s, m, m');
    RotationsKeepOnce(t);
    LeftKeepsOrder(t);
  }

  lemma RightSubtree(t: Shape, p: Path, s: Node, m: Memory, m': Memory)
    requires LocatedIn(t, p, s, m) && t.Bin? && t.l.Bin?
    requires TurnedRight(m, m', t.n, t.l.n, RootOf(t.l.r, s), m[t.n].parent, s, p == Top)
    ensures Linked(RotatedRight(t), ParentOf(p), s, m')
  {
    var b := t.l.r;
    assert Linked(t.l, t.n, s, m) && Once(t.l);
    assert Nodes(t.l) == Nodes(b) + {t.l.n} + Nodes(t.l.l);
    assert b.Bin? ==> b.n in Nodes(b);
    LinkedFrame(t.r, t.n, s, m, m');
    Rehung(b, t.l.n, t.n, s, m, m');
    LinkedFrame(t.l.l, t.l.n, s, m, m');
  }

  lemma RightPath(t: Shape, p: Path, s: Node, m: Memory, m': Memory)
    requires LocatedIn(t, p, s, m) && t.Bin? && t.l.Bin?
    requires TurnedRight(m, m', t.n, t.l.n, RootOf(t.l.r, s), m[t.n].parent, s, p == Top)
    ensures PathLinked(p, t.l.n, s, m')
  {
    var b := t.l.r;
    assert Linked(t.l, t.n, s, m);
    assert b.Bin? ==> b.n in Nodes(b) && b.n in Nodes(t.l) && b.n in Nodes(t);
    PathRefilled(p, t.n, t.l.n, s, m, m');
  }

  lemma RightRotated(t: Shape, p: Path, s: Node, m: Memory, m': Memory)
    requires LocatedIn(t, p, s, m) && t.Bin? && t.l.Bin?
    requires TurnedRight(m, m', t.n, t.l.n, RootOf(t.l.r, s), m[t.n].parent, s, p == Top)
    ensures LocatedIn(RotatedRight(t), p, s, m')
  {
    RightSubtree(t, p, s, m, m');
    RightPath(t, p, s, m, m');
    RotationsKeepOnce(t);
    RightKeepsOrder(t);
  }

  /** Hanging a new red node in an empty hole. */
  lemma Attached(p: Path, node: Node, s: Node, m: Memory, m': Memory)
    requires LocatedIn(Leaf, p, s, m) && p != Top && node !in m && node != s
    requires m'.Keys == m.Keys + {node} && m'[node] == Cell(s, s, p.n, true)
    requires p.n in m && m'[p.n] == if p.Lft? then m[p.n].(left := node) else m[p.n].(right := node)
    requires forall x <- m :: x != p.n ==> m'[x] == m[x]
    ensures LocatedIn(Bin(Leaf, node, true, Leaf), p, s, m')
  {
    PathRefilled(p, s, node, s, m, m');
  }

  // ----- taking a node out -----

  /** The only child of a node that has at most one. */
  ghost function OnlyChild(t: Shape): Shape
    requires t.Bin? && (t.l.Leaf? || t.r.Leaf?)
  {
    if t.l.Leaf? then t.r else t.l
  }

  /** Like LocatedIn, but the parent field at the root of c holds `up`. */
  ghost predicate HangsIn(c: Shape, p: Path, up: Node, s: Node, m: Memory) {
    && m.Keys == Nodes(c) + PathNodes(p) && s !in m
    && Once(c) && PathOnce(p) && Nodes(c) !! PathNodes(p)
    && Linked(c, up, s, m) && PathLinked(p, RootOf(c, s), s, m)
  }

  /** A node with at most one child is unlinked by letting its parent point past
      it; up' is what the child's parent field is set to. */
  lemma Bypassed(t: Shape, p: Path, up': Node, s: Node, m: Memory, m': Memory)
    requires LocatedIn(t, p, s, m) && t.Bin? && (t.l.Leaf? || t.r.Leaf?) && p != Top && p.n in m
    requires var c := OnlyChild(t);
      && m'.Keys == m.Keys - {t.n}
      && m'[p.n] == (if p.Lft? then m[p.n].(left := RootOf(c, s)) else m[p.n].(right := RootOf(c, s)))
      && (c.Bin? ==> c.n in m && m'[c.n] == m[c.n].(parent := up'))
      && forall x <- m' :: x != p.n && (c.Bin? ==> x != c.n) ==> m'[x] == m[x]
    ensures HangsIn(OnlyChild(t), p, up', s, m')
  {
    var c := OnlyChild(t);
    assert Nodes(t) == Nodes(c) + {t.n};
    assert c.Bin? ==> c.n in Nodes(c);
    Rehung(c, t.n, up', s, m, m');
    PathRefilled(p, t.n, RootOf(c, s), s, m, m');
  }

  /** A subtree keeps its links when nothing is asked of the parent of its root. */
  lemma {:induction false} LinkedOpen(t: Shape, up: Node?, s: Node, m: Memory)
    requires Linked(t, up, s, m)
    ensures Linked(t, null, s, m)
  {
  }

  /** `node`, with subtrees l and r, in path p; the parents of l and r are open. */
  ghost predicate Seated(l: Shape, node: Node, red: bool, r: Shape, p: Path, s: Node, m: Memory) {
    && m.Keys == Nodes(l) + {node} + Nodes(r) + PathNodes(p) && s !in m
    && Once(Bin(l, node, red, r)) && PathOnce(p)
    && node !in PathNodes(p) && Nodes(l) !! PathNodes(p) && Nodes(r) !! PathNodes(p)
    && Linked(l, null, s, m) && Linked(r, null, s, m) && PathLinked(p, node, s, m)
  }

  /** The writes that put x, from outside the tree, in the place of `node`. */
  ghost predicate Unseated(l: Shape, node: Node, red: bool, r: Shape, p: Path, x: Node, s: Node, m: Memory, m': Memory) {
    && m'.Keys == m.Keys - {node} + {x}
    && m'[x].left == RootOf(l, s) && m'[x].right == RootOf(r, s) && m'[x].red == red
    && (p != Top ==> m'[x].parent == p.n)
    && (l.Bin? ==> l.n in m && l.n in m' && m'[l.n] == m[l.n].(parent := x))
    && (r.Bin? ==> r.n in m && r.n in m' && m'[r.n] == m[r.n].(parent := x))
    && (p != Top ==> p.n in m && p.n in m' &&
                     m'[p.n] == if p.Lft? then m[p.n].(left := x) else m[p.n].(right := x))
    && forall y <- m :: y in m' && y != RootOf(l, s) && y != RootOf(r, s) && y != ParentOf(p) ==> m'[y] == m[y]
  }

  lemma SeatChild(c: Shape, x: Node, s: Node, m: Memory, m': Memory)
    requires Once(c) && Linked(c, null, s, m)
    requires c.Bin? ==> c.n in m' && m'[c.n] == m[c.n].(parent := x)
    requires Agree(m, m', Nodes(c) - {RootOf(c, s)})
    ensures Linked(c, x, s, m')
  {
    Rehung(c, null, x, s, m, m');
  }

  lemma SeatTaken(l: Shape, node: Node, red: bool, r: Shape, p: Path, x: Node, s: Node, m: Memory, m': Memory)
    requires Seated(l, node, red, r, p, s, m) && x !in m && x != s
    requires Unseated(l, node, red, r, p, x, s, m, m')
    ensures Linked(l, x, s, m') && Linked(r, x, s, m') && PathLinked(p, x, s, m')
  {
    assert Nodes(Bin(l, node, red, r)) == Nodes(l) + {node} + Nodes(r);
    assert l.Bin? ==> l.n in Nodes(l);
    assert r.Bin? ==> r.n in Nodes(r);
    assert p != Top ==> p.n in PathNodes(p);
    assert Agree(m, m', Nodes(l) - {RootOf(l, s)});
    assert Agree(m, m', Nodes(r) - {RootOf(r, s)});
    assert p != Top ==> Agree(m, m', PathNodes(p) - {p.n});
    SeatChild(l, x, s, m, m');
    SeatChild(r, x, s, m, m');
    PathRefilled(p, node, x, s, m, m');
  }

  lemma SeatSets(l: Shape, node: Node, red: bool, r: Shape, p: Path, x: Node)
    requires Once(Bin(l, node, red, r)) && x !in Nodes(l) && x !in Nodes(r)
    ensures Once(Bin(l, x, red, r))
    ensures Nodes(Bin(l, x, red, r)) == Nodes(l) + {x} + Nodes(r)
  {
  }

  // ----- paths end to end -----

  /** The path q with its top end continued by the path p. */
  ghost function Compose(q: Path, p: Path): Path {
    match q
    case Top => p
    case Lft(up, n, red, r) => Lft(Compose(up, p), n, red, r)
    case Rgt(up, l, n, red) => Rgt(Compose(up, p), l, n, red)
  }

  lemma {:induction false} ComposeOrder(q: Path, p: Path)
    ensures Before(Compose(q, p)) == Before(p) + Before(q)
    ensures After(Compose(q, p)) == After(q) + After(p)
  {
    if q != Top { ComposeOrder(q.up, p); }
  }

  lemma {:induction false} PlugCompose(q: Path, p: Path, t: Shape)
    ensures Plug(Compose(q, p), t) == Plug(p, Plug(q, t))
    decreases q
  {
    if q != Top { PlugCompose(q.up, p, Up(t, q)); }
  }

  lemma LocatedUp(t: Shape, p: Path, s: Node, m: Memory)
    requires p != Top
    ensures LocatedIn(t, p, s, m) <==> LocatedIn(Up(t, p), p.up, s, m)
  {
  }

  lemma {:induction false} LocatedPlug(q: Path, t: Shape, p: Path, s: Node, m: Memory)
    ensures LocatedIn(t, Compose(q, p), s, m) <==> LocatedIn(Plug(q, t), p, s, m)
    decreases q
  {
    if q != Top {
      LocatedUp(t, Compose(q, p), s, m);
      LocatedPlug(q.up, Up(t, q), p, s, m);
    }
  }

  lemma {:induction false} ComposeTop(q: Path, p: Path, c: Node)
    ensures TopOf(Compose(q, p), c) == TopOf(p, TopOf(q, c))
    decreases q
  {
    if q != Top { ComposeTop(q.up, p, q.n); }
  }

  /** A path that only goes down to the left. */
  ghost predicate LeftSpine(q: Path) {
    q == Top || (q.Lft? && LeftSpine(q.up))
  }

  lemma {:induction false} LeftSpineBefore(q: Path)
    requires LeftSpine(q)
    ensures Before(q) == []
  {
    if q != Top { LeftSpineBefore(q.up); }
  }
}
