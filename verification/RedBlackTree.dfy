/**
 * The red-black tree of mini_rtos/src/rbtree.c: nodes with parent links, one shared nil sentinel, equal keys allowed.
 *
 * Each node carries ghost labels: its place in the in-order sequence (`pos`), the slice of that sequence that its
 * subtree holds (`lo .. hi`) and its black height (`bh`). With them every invariant is local to a node and its
 * neighbours. `ShapeIsRedBlack` shows that the local invariants make the linked nodes a red-black tree in the usual,
 * recursive sense, with `order` as its in-order sequence.
 */
module RedBlackTree {
  import opened Arithmetic
  import opened Machine
  import opened TaskControl

  datatype Color = Black | Red

  class Node {
    var parent: Node?
    var left: Node?
    var right: Node?
    var color: Color
    const task: Task?
    const key: uint32

    ghost var pos: int
    ghost var lo: int
    ghost var hi: int
    ghost var bh: int

    constructor Sentinel()
      ensures color == Black && bh == 0
    {
      color := Black;
      left, right, parent := null, null, null;
      task := null;
      key := 0;
      bh := 0;
    }

    constructor (nil: Node, task: Task, key: uint32)
      ensures parent == left == right == nil
      ensures color == Red && this.task == task && this.key == key
    {
      parent, left, right := nil, nil, nil;
      color := Red;
      this.task := task;
      this.key := key;
    }
  }

  // ---- red-black trees as values
  datatype Shape = Leaf | Branch(left: Shape, node: Node, color: Color, right: Shape)

  ghost function InOrder(s: Shape): seq<Node> {
    match s
    case Leaf => []
    case Branch(l, n, _, r) => InOrder(l) + [n] + InOrder(r)
  }

  function ColorOf(s: Shape): Color {
    if s.Leaf? then Black else s.color
  }

  ghost predicate NoRedRed(s: Shape) {
    s.Branch? ==> NoRedRed(s.left) && NoRedRed(s.right) &&
                  (s.color.Red? ==> ColorOf(s.left).Black? && ColorOf(s.right).Black?)
  }

  // The number of black nodes on the leftmost path down from s.
  ghost function Blacks(s: Shape): nat {
    if s.Leaf? then 0 else Blacks(s.left) + if s.color.Black? then 1 else 0
  }

  ghost predicate EqualBlack(s: Shape) {
    s.Branch? ==> EqualBlack(s.left) && EqualBlack(s.right) && Blacks(s.left) == Blacks(s.right)
  }

  ghost predicate RedBlack(s: Shape) {
    ColorOf(s).Black? && NoRedRed(s) && EqualBlack(s)
  }

  ghost function Height(s: Shape): nat {
    if s.Leaf? then 0 else 1 + if Height(s.left) > Height(s.right) then Height(s.left) else Height(s.right)
  }

  // A red-black tree with b blacks per path has at least 2^b - 1 nodes and at most 2b (+1 below a red root) levels.
  lemma {:induction false} BlacksBound(s: Shape)
    requires NoRedRed(s) && EqualBlack(s)
    ensures Pow2(Blacks(s)) <= |InOrder(s)| + 1
    ensures Height(s) <= 2 * Blacks(s) + if ColorOf(s).Red? then 1 else 0
  {
    if s.Branch? {
      BlacksBound(s.left);
      BlacksBound(s.right);
    }
  }

  // The height of a red-black tree with n nodes is at most 2 * log2(n + 1).
  lemma HeightBound(s: Shape)
    requires RedBlack(s)
    ensures Pow2(Height(s)) <= (|InOrder(s)| + 1) * (|InOrder(s)| + 1)
  {
    var b, n := Blacks(s), |InOrder(s)| + 1;
    BlacksBound(s);
    Pow2Mono(Height(s), 2 * b);
    Pow2Adds(b, b);
    MulMono(Pow2(b), Pow2(b), n);
    MulMono(n, Pow2(b), n);
  }

  // The descent of rb_find_task: compare tasks first, then go left or right by key.
  function FindTask(s: Shape, task: Task, key: uint32): (r: Node?)
    ensures r != null ==> r.task == task && r in InOrder(s)
  {
    match s
    case Leaf => null
    case Branch(l, n, _, r) => if n.task == task then n else FindTask(if key < n.key then l else r, task, key)
  }

  lemma {:induction false} FindsNothingElse(s: Shape, task: Task, key: uint32)
    requires forall n | n in InOrder(s) :: n.task != task
    ensures FindTask(s, task, key) == null
  {
    if s.Branch? {
      assert s.node in InOrder(s);
      FindsNothingElse(s.left, task, key);
      FindsNothingElse(s.right, task, key);
    }
  }

  class Tree {
    var root: Node
    const nil: Node
    var size: nat
    ghost var order: seq<Node>
    ghost var nodes: set<Node>

    ghost predicate SlotOk(i: int)
      reads `order, `nodes, nodes`pos
    {
      0 <= i < |order| && order[i] in nodes && order[i].pos == i
    }

    ghost predicate Indexed()
      reads `order, `nodes, nodes`pos
    {
      nil !in nodes && forall i {:trigger SlotOk(i)} | 0 <= i < |order| :: SlotOk(i)
    }

    ghost predicate ChildOk(p: Node, c: Node?, lo: int, hi: int)
      reads `nodes, nodes`parent, nodes`lo, nodes`hi
    {
      if c == nil then lo == hi
      else c in nodes && c.parent == p && c.lo == lo && c.hi == hi
    }

    // n's children hold the parts of the in-order sequence before and after n.
    ghost predicate DownOk(n: Node)
      reads `order, `nodes, nodes`parent, nodes`left, nodes`right, nodes`lo, nodes`pos, nodes`hi
    {
      && n in nodes
      && 0 <= n.lo <= n.pos < n.hi <= |order| && order[n.pos] == n
      && ChildOk(n, n.left, n.lo, n.pos)
      && ChildOk(n, n.right, n.pos + 1, n.hi)
    }

    ghost predicate UpOk(n: Node)
      reads `root, `nodes, nodes`parent, nodes`left, nodes`right
    {
      && n in nodes
      && if n.parent == nil then n == root
         else n.parent in nodes && (n.parent.left == n || n.parent.right == n)
    }

    ghost predicate LinkOk(n: Node)
      reads `root, `order, `nodes, nodes`parent, nodes`left, nodes`right, nodes`lo, nodes`pos, nodes`hi
    {
      DownOk(n) && UpOk(n)
    }

    ghost predicate RootOk()
      reads `root, `order, `nodes, nodes`parent, nodes`lo, nodes`hi
    {
      if root == nil then order == []
      else root in nodes && root.parent == nil && root.lo == 0 && root.hi == |order|
    }

    ghost predicate Linked()
      reads `root, `order, `nodes, nodes`parent, nodes`left, nodes`right, nodes`lo, nodes`pos, nodes`hi
    {
      && Indexed()
      && RootOk()
      && (forall n {:trigger LinkOk(n)} | n in nodes :: LinkOk(n))
    }

    constructor ()
      ensures Valid() && order == [] && fresh(nil) && nodes == {}
    {
      var s := new Node.Sentinel();
      nil := s;
      root := s;
      size := 0;
      order, nodes := [], {};
    }

    // The exact effect, on node n, of turning the edge x -> y (y the right child of x, p the parent) to the left.
    twostate predicate TurnedLeft(x: Node, y: Node, p: Node, n: Node)
      reads n
    {
      && n.left == (if n == y then x else if n == p && old(p.left) == x then y else old(n.left))
      && n.right == (if n == x then old(y.left) else if n == p && old(p.left) != x then y else old(n.right))
      && n.parent == (if n == y then p else if n == x then y else if n == old(y.left) then x else old(n.parent))
      && n.lo == (if n == y then old(x.lo) else old(n.lo))
      && n.hi == (if n == y then old(x.hi) else if n == x then old(y.pos) else old(n.hi))
      && n.pos == old(n.pos)
    }

    method TurnLeft(x: Node)
      requires nil !in nodes && x in nodes && x.right in nodes && x.right != x && x.parent != null
      requires x.parent != nil ==> x.parent in nodes && x.parent != x && x.parent != x.right
      requires x.parent != nil ==> x.parent.left == x || x.parent.right == x
      requires x.right.left != nil ==> x.right.left in nodes && x.right.left != x && x.right.left != x.right
      modifies this`root, nodes`parent, nodes`left, nodes`right, nodes`lo, nodes`hi
      ensures forall n {:trigger TurnedLeft(x, old(x.right), old(x.parent), n)} | n in nodes ::
                TurnedLeft(x, old(x.right), old(x.parent), n)
      ensures root == (if old(x.parent) == nil then old(x.right) else old(root))
    {
      var y := x.right;
      x.right := y.left;
      if y.left != nil {
        y.left.parent := x;
      }
      y.parent := x.parent;
      if x.parent == nil {
        root := y;
      } else if x == x.parent.left {
        x.parent.left := y;
      } else {
        x.parent.right := y;
      }
      y.left := x;
      x.parent := y;
      y.lo := x.lo;
      y.hi := x.hi;
      x.hi := y.pos;
    }

    twostate lemma TurnLeftKeepsLink(n: Node, new x: Node, new y: Node, new p: Node)
      requires nodes == old(nodes) && order == old(order) && nil !in nodes
      requires x in nodes && y == old(x.right) && p == old(x.parent)
      requires old(LinkOk(n) && LinkOk(x) && LinkOk(y) && (p != nil ==> LinkOk(p)))
      requires root == (if p == nil then y else old(root))
      requires forall m {:trigger TurnedLeft(x, y, p, m)} | m in nodes :: TurnedLeft(x, y, p, m)
      ensures LinkOk(n)
    {
      assert TurnedLeft(x, y, p, x) && TurnedLeft(x, y, p, y) && TurnedLeft(x, y, p, n);
      var l, r, q, b := old(n.left), old(n.right), old(n.parent), old(y.left);
      if l != nil { assert TurnedLeft(x, y, p, l); }
      if r != nil { assert TurnedLeft(x, y, p, r); }
      if q != nil { assert TurnedLeft(x, y, p, q); }
      if b != nil { assert TurnedLeft(x, y, p, b); }
      if p != nil { assert TurnedLeft(x, y, p, p) && p != y; }
      if n == y {
        assert p != nil ==> p.left == y || p.right == y;
      } else if n == x {
        assert x.parent == y && y.left == x;
      } else if n == b {
        assert n.parent == x && x.right == n;
      } else {
        assert n.parent == q;
        assert q != nil && old(q.left) == n ==> q.left == n;
        assert q != nil && old(q.right) == n ==> q.right == n;
      }
    }

    method LeftRotate(x: Node)
      requires Linked() && LinkOk(x) && x.right != nil
      modifies this`root, nodes`parent, nodes`left, nodes`right, nodes`lo, nodes`hi
      ensures Linked()
      ensures forall n {:trigger TurnedLeft(x, old(x.right), old(x.parent), n)} | n in nodes ::
                TurnedLeft(x, old(x.right), old(x.parent), n)
      ensures root == (if old(x.parent) == nil then old(x.right) else old(root))
    {
      var y: Node, p: Node := x.right, x.parent;
      assert LinkOk(y);
      if p != nil { assert LinkOk(p); }
      TurnLeft(x);
      forall n | n in nodes ensures LinkOk(n) {
        assert old(LinkOk(n));
        TurnLeftKeepsLink(n, x, y, p);
      }
      assert TurnedLeft(x, y, p, root);
    }

    // The exact effect, on node n, of turning the edge x -> y (y the left child of x, p the parent) to the right.
    twostate predicate TurnedRight(x: Node, y: Node, p: Node, n: Node)
      reads n
    {
      && n.right == (if n == y then x else if n == p && old(p.right) == x then y else old(n.right))
      && n.left == (if n == x then old(y.right) else if n == p && old(p.right) != x then y else old(n.left))
      && n.parent == (if n == y then p else if n == x then y else if n == old(y.right) then x else old(n.parent))
      && n.lo == (if n == y then old(x.lo) else if n == x then old(y.pos) + 1 else old(n.lo))
      && n.hi == (if n == y then old(x.hi) else old(n.hi))
      && n.pos == old(n.pos)
    }

    method TurnRight(x: Node)
      requires nil !in nodes && x in nodes && x.left in nodes && x.left != x && x.parent != null
      requires x.parent != nil ==> x.parent in nodes && x.parent != x && x.parent != x.left
      requires x.parent != nil ==> x.parent.right == x || x.parent.left == x
      requires x.left.right != nil ==> x.left.right in nodes && x.left.right != x && x.left.right != x.left
      modifies this`root, nodes`parent, nodes`right, nodes`left, nodes`lo, nodes`hi
      ensures forall n {:trigger TurnedRight(x, old(x.left), old(x.parent), n)} | n in nodes ::
                TurnedRight(x, old(x.left), old(x.parent), n)
      ensures root == (if old(x.parent) == nil then old(x.left) else old(root))
    {
      var y := x.left;
      x.left := y.right;
      if y.right != nil {
        y.right.parent := x;
      }
      y.parent := x.parent;
      if x.parent == nil {
        root := y;
      } else if x == x.parent.right {
        x.parent.right := y;
      } else {
        x.parent.left := y;
      }
      y.right := x;
      x.parent := y;
      y.lo := x.lo;
      y.hi := x.hi;
      x.lo := y.pos + 1;
    }

    twostate lemma TurnRightKeepsLink(n: Node, new x: Node, new y: Node, new p: Node)
      requires nodes == old(nodes) && order == old(order) && nil !in nodes
      requires x in nodes && y == old(x.left) && p == old(x.parent)
      requires old(LinkOk(n) && LinkOk(x) && LinkOk(y) && (p != nil ==> LinkOk(p)))
      requires root == (if p == nil then y else old(root))
      requires forall m {:trigger TurnedRight(x, y, p, m)} | m in nodes :: TurnedRight(x, y, p, m)
      ensures LinkOk(n)
    {
      assert TurnedRight(x, y, p, x) && TurnedRight(x, y, p, y) && TurnedRight(x, y, p, n);
      var l, r, q, b := old(n.right), old(n.left), old(n.parent), old(y.right);
      if l != nil { assert TurnedRight(x, y, p, l); }
      if r != nil { assert TurnedRight(x, y, p, r); }
      if q != nil { assert TurnedRight(x, y, p, q); }
      if b != nil { assert TurnedRight(x, y, p, b); }
      if p != nil { assert TurnedRight(x, y, p, p) && p != y; }
      if n == y {
        assert p != nil ==> p.right == y || p.left == y;
      } else if n == x {
        assert x.parent == y && y.right == x;
      } else if n == b {
        assert n.parent == x && x.left == n;
      } else {
        assert n.parent == q;
        assert q != nil && old(q.right) == n ==> q.right == n;
        assert q != nil && old(q.left) == n ==> q.left == n;
      }
    }

    method RightRotate(x: Node)
      requires Linked() && LinkOk(x) && x.left != nil
      modifies this`root, nodes`parent, nodes`right, nodes`left, nodes`lo, nodes`hi
      ensures Linked()
      ensures forall n {:trigger TurnedRight(x, old(x.left), old(x.parent), n)} | n in nodes ::
                TurnedRight(x, old(x.left), old(x.parent), n)
      ensures root == (if old(x.parent) == nil then old(x.left) else old(root))
    {
      var y: Node, p: Node := x.left, x.parent;
      assert LinkOk(y);
      if p != nil { assert LinkOk(p); }
      TurnRight(x);
      forall n | n in nodes ensures LinkOk(n) {
        assert old(LinkOk(n));
        TurnRightKeepsLink(n, x, y, p);
      }
      assert TurnedRight(x, y, p, root);
    }

    ghost predicate NilOk()
      reads nil`color, nil`bh
    {
      nil.color == Black && nil.bh == 0
    }

    ghost predicate KidsOk(n: Node)
      reads `nodes, nodes`left, nodes`right
    {
      n in nodes && (n.left == nil || n.left in nodes) && (n.right == nil || n.right in nodes)
    }

    // The black height of the subtree at n, n itself included.
    ghost function Weight(n: Node): int
      reads n`color, n`bh
    {
      n.bh + if n.color.Black? then 1 else 0
    }

    // No red child below a red node; the child e, if any, is exempt.
    ghost predicate RedOk(n: Node, e: Node)
      reads `nodes, nil`color, nodes`left, nodes`right, nodes`color
    {
      && KidsOk(n)
      && (n.color.Red? ==> (n.left.color.Black? || n.left == e) && (n.right.color.Black? || n.right == e))
    }

    // Both subtrees of n have the same black height, after adding dl and dr.
    ghost predicate BalOk(n: Node, dl: int, dr: int)
      reads `nodes, nil`color, nil`bh, nodes`left, nodes`right, nodes`color, nodes`bh
    {
      && KidsOk(n)
      && n.bh == Weight(n.left) + dl == Weight(n.right) + dr
      && n.bh >= 1
    }

    // The state between two rounds of the insert fix-up: z is red and may have a red parent.
    ghost predicate Inserting(z: Node)
      reads `root, `order, `nodes, nil`color, nil`bh, nodes
    {
      && Linked() && NilOk() && z in nodes && z.color.Red?
      && (root.color.Red? ==> z == root)
      && (forall n {:trigger RedOk(n, z)} | n in nodes :: RedOk(n, z))
      && (forall n {:trigger BalOk(n, 0, 0)} | n in nodes :: BalOk(n, 0, 0))
    }

    twostate predicate Recolored(g: Node, n: Node)
      reads n
    {
      && n.left == old(n.left) && n.right == old(n.right)
      && n.color == (if n == old(g.left) || n == old(g.right) then Black else if n == g then Red else old(n.color))
      && n.bh == old(n.bh) + if n == g then 1 else 0
    }

    twostate lemma RecolorKeeps(n: Node, new z: Node, new g: Node)
      requires nodes == old(nodes) && nil !in nodes && old(NilOk()) && NilOk()
      requires g in nodes && old(LinkOk(n) && LinkOk(g))
      requires z in nodes && old(z.parent) in nodes && old(z.parent.parent) == g
      requires old(g.left.color.Red? && g.right.color.Red?)
      requires old(RedOk(n, z) && RedOk(g, z) && BalOk(n, 0, 0) && BalOk(g, 0, 0))
      requires forall m {:trigger Recolored(g, m)} | m in nodes :: Recolored(g, m)
      ensures RedOk(n, g) && BalOk(n, 0, 0)
    {
      assert Recolored(g, n) && Recolored(g, g);
      var l, r := old(n.left), old(n.right);
      if l != nil { assert Recolored(g, l); }
      if r != nil { assert Recolored(g, r); }
    }

    method Paint(g: Node)
      requires g in nodes && g.left in nodes && g.right in nodes && g.left != g && g.right != g
      modifies nodes`color, nodes`bh
      ensures forall n {:trigger Recolored(g, n)} | n in nodes :: Recolored(g, n)
    {
      g.left.color := Black;
      g.right.color := Black;
      g.color := Red;
      g.bh := g.bh + 1;
    }

    method Recolor(z: Node) returns (g: Node)
      requires Inserting(z) && LinkOk(z) && z.parent.color.Red? && LinkOk(z.parent)
      requires z.parent.parent != nil && LinkOk(z.parent.parent)
      requires z.parent.parent.left.color.Red? && z.parent.parent.right.color.Red?
      modifies nodes`color, nodes`bh
      ensures Inserting(g) && g == old(z.parent.parent)
    {
      var p := z.parent;
      g := p.parent;
      assert RedOk(g, z) && BalOk(g, 0, 0);
      Paint(g);
      assert Recolored(g, root) && Recolored(g, g);
      forall n | n in nodes ensures RedOk(n, g) && BalOk(n, 0, 0) {
        assert old(LinkOk(n) && RedOk(n, z) && BalOk(n, 0, 0));
        RecolorKeeps(n, z, g);
      }
    }


    // ---- spin: a rotation that turns the edge x -> y while x and y exchange colour and black height.
    twostate predicate Exchanged(x: Node, y: Node, n: Node)
      reads n`color, n`bh
    {
      && n.color == old(if n == x then y.color else if n == y then x.color else n.color)
      && n.bh == old(if n == x then y.bh else if n == y then x.bh else n.bh)
    }

    twostate lemma SpinLeftKeeps(n: Node, new x: Node, new y: Node, new p: Node, new e: Node, new f: Node,
      new dl: int, new dr: int)
      requires nodes == old(nodes) && nil !in nodes && old(NilOk()) && NilOk()
      requires x in nodes && y == old(x.right) && p == old(x.parent) && (e in nodes || e == nil) && y != nil
      requires old(LinkOk(n) && LinkOk(x) && LinkOk(y))
      requires old(RedOk(n, e) && RedOk(x, e) && RedOk(y, e) && BalOk(n, dl, dr) && BalOk(y, 0, 0) && x.bh == Weight(y))
      requires (n == x ==> dr == 0) && (n == y ==> dl == dr == 0)
      requires old(y.color.Red? && x.left.color.Black? && (y.left == nil || y.left != e)) && e != x
      requires f == if e == y then x else e
      requires forall m {:trigger TurnedLeft(x, y, p, m)} | m in nodes :: TurnedLeft(x, y, p, m)
      requires forall m {:trigger Exchanged(x, y, m)} | m in nodes :: Exchanged(x, y, m)
      ensures RedOk(n, f) && BalOk(n, dl, dr)
    {
      assert TurnedLeft(x, y, p, n) && Exchanged(x, y, n);
      assert TurnedLeft(x, y, p, x) && Exchanged(x, y, x);
      assert TurnedLeft(x, y, p, y) && Exchanged(x, y, y);
      var l, r := n.left, n.right;
      if l != nil { assert Exchanged(x, y, l); }
      if r != nil { assert Exchanged(x, y, r); }
    }

    twostate lemma SpinRightKeeps(n: Node, new x: Node, new y: Node, new p: Node, new e: Node, new f: Node,
      new dl: int, new dr: int)
      requires nodes == old(nodes) && nil !in nodes && old(NilOk()) && NilOk()
      requires x in nodes && y == old(x.left) && p == old(x.parent) && (e in nodes || e == nil) && y != nil
      requires old(LinkOk(n) && LinkOk(x) && LinkOk(y))
      requires old(RedOk(n, e) && RedOk(x, e) && RedOk(y, e) && BalOk(n, dl, dr) && BalOk(y, 0, 0) && x.bh == Weight(y))
      requires (n == x ==> dl == 0) && (n == y ==> dl == dr == 0)
      requires old(y.color.Red? && x.right.color.Black? && (y.right == nil || y.right != e)) && e != x
      requires f == if e == y then x else e
      requires forall m {:trigger TurnedRight(x, y, p, m)} | m in nodes :: TurnedRight(x, y, p, m)
      requires forall m {:trigger Exchanged(x, y, m)} | m in nodes :: Exchanged(x, y, m)
      ensures RedOk(n, f) && BalOk(n, dl, dr)
    {
      assert TurnedRight(x, y, p, n) && Exchanged(x, y, n);
      assert TurnedRight(x, y, p, x) && Exchanged(x, y, x);
      assert TurnedRight(x, y, p, y) && Exchanged(x, y, y);
      var l, r := n.right, n.left;
      if l != nil { assert Exchanged(x, y, l); }
      if r != nil { assert Exchanged(x, y, r); }
    }

    // Lifts the red right child y of the black node x over x.
    method SpinLeft(x: Node)
      requires Linked() && LinkOk(x) && x.right != nil
      requires x.color.Black? && x.right.color.Red? && x.bh == x.right.bh
      modifies this`root, nodes`parent, nodes`left, nodes`right, nodes`lo, nodes`hi, nodes`color
      ensures Linked()
      ensures root == (if old(x.parent) == nil then old(x.right) else old(root))
      ensures forall n {:trigger TurnedLeft(x, old(x.right), old(x.parent), n)} | n in nodes ::
                TurnedLeft(x, old(x.right), old(x.parent), n)
      ensures forall n {:trigger Exchanged(x, old(x.right), n)} | n in nodes :: Exchanged(x, old(x.right), n)
    {
      var y: Node := x.right;
      ghost var p: Node := x.parent;
      y.color := Black;
      x.color := Red;
      label painted:
      LeftRotate(x);
      forall n | n in nodes ensures TurnedLeft(x, y, p, n) {
        assert TurnedLeft@painted(x, y, p, n);
      }
    }

    // Lifts the red left child y of the black node x over x.
    method SpinRight(x: Node)
      requires Linked() && LinkOk(x) && x.left != nil
      requires x.color.Black? && x.left.color.Red? && x.bh == x.left.bh
      modifies this`root, nodes`parent, nodes`right, nodes`left, nodes`lo, nodes`hi, nodes`color
      ensures Linked()
      ensures root == (if old(x.parent) == nil then old(x.left) else old(root))
      ensures forall n {:trigger TurnedRight(x, old(x.left), old(x.parent), n)} | n in nodes ::
                TurnedRight(x, old(x.left), old(x.parent), n)
      ensures forall n {:trigger Exchanged(x, old(x.left), n)} | n in nodes :: Exchanged(x, old(x.left), n)
    {
      var y: Node := x.left;
      ghost var p: Node := x.parent;
      y.color := Black;
      x.color := Red;
      label painted:
      RightRotate(x);
      forall n | n in nodes ensures TurnedRight(x, y, p, n) {
        assert TurnedRight@painted(x, y, p, n);
      }
    }

    // Case 2, left: z is a right child and its parent a left child.
    method InsertCase2Left(z: Node) returns (p: Node)
      requires Inserting(z) && LinkOk(z) && z.parent.color.Red? && LinkOk(z.parent) && z.parent.right == z
      requires z.parent.parent != nil && LinkOk(z.parent.parent) && z.parent.parent.left == z.parent
      modifies this`root, nodes`parent, nodes`left, nodes`right, nodes`lo, nodes`hi
      ensures Inserting(p) && LinkOk(p) && p.parent == z && LinkOk(z) && z.left == p
      ensures z.parent == old(z.parent.parent) && LinkOk(z.parent) && z.parent.left == z
      ensures z.parent.right == old(z.parent.parent.right)
    {
      p := z.parent;
      ghost var g: Node := p.parent;
      assert RedOk(p, z) && BalOk(p, 0, 0) && RedOk(z, z) && BalOk(z, 0, 0);
      LeftRotate(p);
      assert TurnedLeft(p, z, g, p) && TurnedLeft(p, z, g, z) && TurnedLeft(p, z, g, g) && TurnedLeft(p, z, g, root);
      assert forall m {:trigger Exchanged(p, z, m)} | m in nodes :: Exchanged(p, z, m);
      forall n | n in nodes ensures RedOk(n, p) && BalOk(n, 0, 0) {
        assert old(LinkOk(n) && RedOk(n, z) && BalOk(n, 0, 0));
        SpinLeftKeeps(n, p, z, g, z, p, 0, 0);
      }
    }

    // Case 2, right: z is a left child and its parent a right child.
    method InsertCase2Right(z: Node) returns (p: Node)
      requires Inserting(z) && LinkOk(z) && z.parent.color.Red? && LinkOk(z.parent) && z.parent.left == z
      requires z.parent.parent != nil && LinkOk(z.parent.parent) && z.parent.parent.right == z.parent
      modifies this`root, nodes`parent, nodes`right, nodes`left, nodes`lo, nodes`hi
      ensures Inserting(p) && LinkOk(p) && p.parent == z && LinkOk(z) && z.right == p
      ensures z.parent == old(z.parent.parent) && LinkOk(z.parent) && z.parent.right == z
      ensures z.parent.left == old(z.parent.parent.left)
    {
      p := z.parent;
      ghost var g: Node := p.parent;
      assert RedOk(p, z) && BalOk(p, 0, 0) && RedOk(z, z) && BalOk(z, 0, 0);
      RightRotate(p);
      assert TurnedRight(p, z, g, p) && TurnedRight(p, z, g, z) && TurnedRight(p, z, g, g) &&
             TurnedRight(p, z, g, root);
      assert forall m {:trigger Exchanged(p, z, m)} | m in nodes :: Exchanged(p, z, m);
      forall n | n in nodes ensures RedOk(n, p) && BalOk(n, 0, 0) {
        assert old(LinkOk(n) && RedOk(n, z) && BalOk(n, 0, 0));
        SpinRightKeeps(n, p, z, g, z, p, 0, 0);
      }
    }

    // Case 3, left: z is a left child and its parent a left child.
    method InsertCase3Left(z: Node)
      requires Inserting(z) && LinkOk(z) && z.parent.color.Red? && LinkOk(z.parent) && z.parent.left == z
      requires z.parent.parent != nil && LinkOk(z.parent.parent) && z.parent.parent.left == z.parent
      requires z.parent.parent.right.color.Black?
      modifies this`root, nodes`parent, nodes`left, nodes`right, nodes`lo, nodes`hi, nodes`color
      ensures Inserting(z) && LinkOk(z) && z.parent.color.Black?
    {
      var p: Node := z.parent;
      var g: Node := p.parent;
      ghost var q: Node := g.parent;
      assert RedOk(g, z) && BalOk(g, 0, 0) && RedOk(p, z) && BalOk(p, 0, 0);
      SpinRight(g);
      assert TurnedRight(g, p, q, z) && Exchanged(g, p, z) && Exchanged(g, p, p) && Exchanged(g, p, root);
      forall n | n in nodes ensures RedOk(n, z) && BalOk(n, 0, 0) {
        assert old(LinkOk(n) && RedOk(n, z) && BalOk(n, 0, 0));
        SpinRightKeeps(n, g, p, q, z, z, 0, 0);
      }
    }

    // Case 3, right: z is a right child and its parent a right child.
    method InsertCase3Right(z: Node)
      requires Inserting(z) && LinkOk(z) && z.parent.color.Red? && LinkOk(z.parent) && z.parent.right == z
      requires z.parent.parent != nil && LinkOk(z.parent.parent) && z.parent.parent.right == z.parent
      requires z.parent.parent.left.color.Black?
      modifies this`root, nodes`parent, nodes`right, nodes`left, nodes`lo, nodes`hi, nodes`color
      ensures Inserting(z) && LinkOk(z) && z.parent.color.Black?
    {
      var p: Node := z.parent;
      var g: Node := p.parent;
      ghost var q: Node := g.parent;
      assert RedOk(g, z) && BalOk(g, 0, 0) && RedOk(p, z) && BalOk(p, 0, 0);
      SpinLeft(g);
      assert TurnedLeft(g, p, q, z) && Exchanged(g, p, z) && Exchanged(g, p, p) && Exchanged(g, p, root);
      forall n | n in nodes ensures RedOk(n, z) && BalOk(n, 0, 0) {
        assert old(LinkOk(n) && RedOk(n, z) && BalOk(n, 0, 0));
        SpinLeftKeeps(n, g, p, q, z, z, 0, 0);
      }
    }

    // The red-black rules: black root and sentinel, no red node with a red child, equal black heights.
    ghost predicate Balanced()
      reads `root, `order, `nodes, nil`color, nil`bh, nodes
    {
      && NilOk() && (root == nil || root in nodes) && root.color.Black?
      && (forall n {:trigger RedOk(n, nil)} | n in nodes :: RedOk(n, nil))
      && (forall n {:trigger BalOk(n, 0, 0)} | n in nodes :: BalOk(n, 0, 0))
    }

    method BlackenRoot(ghost z: Node)
      requires Inserting(z) && LinkOk(z) && z.parent.color.Black?
      modifies nodes`color
      ensures Linked() && Balanced()
    {
      root.color := Black;
      forall n | n in nodes ensures RedOk(n, nil) && BalOk(n, 0, 0) {
        assert old(LinkOk(n) && RedOk(n, z) && BalOk(n, 0, 0));
      }
    }

    // One round of the fix-up when z's parent is a left child.
    method InsertRoundLeft(z: Node) returns (z': Node)
      requires Inserting(z) && LinkOk(z) && z.parent.color.Red? && LinkOk(z.parent)
      requires z.parent.parent != nil && LinkOk(z.parent.parent) && z.parent.parent.left == z.parent
      modifies this`root, nodes`parent, nodes`left, nodes`right, nodes`lo, nodes`hi, nodes`color, nodes`bh
      ensures Inserting(z') && LinkOk(z')
      ensures z'.parent.color.Black? || z'.hi - z'.lo > old(z.hi - z.lo)
    {
      var p: Node := z.parent;
      var y := p.parent.right;
      if y.color == Red {
        z' := Recolor(z);
      } else {
        z' := z;
        if z == p.right {
          z' := InsertCase2Left(z);
        }
        InsertCase3Left(z');
      }
      assert LinkOk(z');
    }

    // One round of the fix-up when z's parent is a right child.
    method InsertRoundRight(z: Node) returns (z': Node)
      requires Inserting(z) && LinkOk(z) && z.parent.color.Red? && LinkOk(z.parent)
      requires z.parent.parent != nil && LinkOk(z.parent.parent) && z.parent.parent.right == z.parent
      modifies this`root, nodes`parent, nodes`right, nodes`left, nodes`lo, nodes`hi, nodes`color, nodes`bh
      ensures Inserting(z') && LinkOk(z')
      ensures z'.parent.color.Black? || z'.hi - z'.lo > old(z.hi - z.lo)
    {
      var p: Node := z.parent;
      var y := p.parent.left;
      if y.color == Red {
        z' := Recolor(z);
      } else {
        z' := z;
        if z == p.left {
          z' := InsertCase2Right(z);
        }
        InsertCase3Right(z');
      }
      assert LinkOk(z');
    }

    method InsertFixup(z0: Node)
      requires Inserting(z0) && LinkOk(z0)
      modifies this`root, nodes`parent, nodes`left, nodes`right, nodes`lo, nodes`hi, nodes`color, nodes`bh
      ensures Linked() && Balanced()
    {
      var z := z0;
      while z.parent.color == Red
        invariant Inserting(z) && LinkOk(z)
        decreases if z.parent.color.Red? then |order| + 1 - (z.hi - z.lo) else 0
      {
        var p: Node := z.parent;
        assert LinkOk(p);
        assert LinkOk(p.parent);
        if p == p.parent.left {
          z := InsertRoundLeft(z);
        } else {
          z := InsertRoundRight(z);
        }
      }
      BlackenRoot(z);
    }

    // ---- insertion of a leaf into the gap in front of in-order position i
    static ghost predicate Leq(s: seq<Node>, i: int, j: int) {
      0 <= i < j < |s| && s[i].key <= s[j].key
    }

    static ghost predicate Ascending(s: seq<Node>) {
      forall i, j {:trigger Leq(s, i, j)} | 0 <= i < j < |s| :: Leq(s, i, j)
    }

    // The empty child slot of y (its left one iff side) is the gap in front of position i; y == nil for an empty tree.
    ghost predicate Gap(y: Node, side: bool, i: int)
      reads `root, `order, `nodes, nodes`left, nodes`right, nodes`lo, nodes`pos, nodes`hi
    {
      if y == nil then root == nil && i == 0
      else y in nodes && if side then y.left == nil && i == y.pos else y.right == nil && i == y.pos + 1
    }

    // The effect on an old node n of hanging z into that gap.
    twostate predicate Grown(new z: Node, y: Node, side: bool, i: int, n: Node)
      reads n
    {
      && n.parent == old(n.parent)
      && n.left == (if n == y && side then z else old(n.left))
      && n.right == (if n == y && !side then z else old(n.right))
      && n.pos == old(n.pos) + (if old(n.pos) >= i then 1 else 0)
      && n.lo == old(n.lo) + (if old(n.lo) > i then 1 else 0)
      && n.hi == old(n.hi) + (if old(n.hi) >= i then 1 else 0)
    }

    method Hang(z: Node, y: Node, ghost side: bool, ghost i: nat)
      requires z !in nodes && (y == nil || y in nodes) && nil !in nodes && i <= |order|
      requires y != nil ==> (side <==> z.key < y.key)
      modifies this`root, this`order, this`nodes, nodes`left, nodes`right, nodes`pos, nodes`lo, nodes`hi, z`parent,
               z`pos, z`lo, z`hi, z`bh
      ensures forall n {:trigger Grown(z, y, side, i, n)} | n in old(nodes) :: Grown(z, y, side, i, n)
      ensures order == old(order[..i] + [z] + order[i..]) && nodes == old(nodes) + {z}
      ensures z.parent == y && z.pos == z.lo == i && z.hi == i + 1 && z.bh == 1
      ensures root == if y == nil then z else old(root)
    {
      z.parent := y;
      if y == nil {
        root := z;
      } else if z.key < y.key {
        y.left := z;
      } else {
        y.right := z;
      }
      forall n | n in nodes { n.pos := n.pos + (if n.pos >= i then 1 else 0); }
      forall n | n in nodes { n.lo := n.lo + (if n.lo > i then 1 else 0); }
      forall n | n in nodes { n.hi := n.hi + (if n.hi >= i then 1 else 0); }
      z.pos, z.lo, z.hi, z.bh := i, i, i + 1, 1;
      order := order[..i] + [z] + order[i..];
      nodes := nodes + {z};
    }

    // Adjacent nodes cannot both have an empty slot between them.
    lemma {:induction false} GapUnique(x: Node, i: int)
      requires Linked() && x in nodes && x.lo <= i - 1 && i < x.hi && 0 < i < |order|
      ensures order[i - 1].right != nil || order[i].left != nil
      decreases x.hi - x.lo
    {
      assert LinkOk(x);
      if x.pos < i - 1 {
        GapUnique(x.right, i);
      } else if x.pos > i {
        GapUnique(x.left, i);
      }
    }

    twostate lemma GrowKeepsLink(n: Node, new z: Node, new y: Node, new side: bool, new i: int)
      requires nodes == old(nodes) + {z} && nil !in nodes && z !in old(nodes)
      requires 0 <= i <= old(|order|) && order == old(order[..i] + [z] + order[i..])
      requires y in old(nodes)
      requires old(Indexed() && LinkOk(n) && Gap(y, side, i) && (y != nil ==> LinkOk(y)))
      requires old(0 < i < |order| ==> order[i - 1].right != nil || order[i].left != nil)
      requires forall m {:trigger Grown(z, y, side, i, m)} | m in old(nodes) :: Grown(z, y, side, i, m)
      requires z.parent == y && z.lo == i && z.hi == i + 1
      requires root == if y == nil then z else old(root)
      ensures LinkOk(n)
    {
      assert Grown(z, y, side, i, n);
      assert Grown(z, y, side, i, y);
      var l, r, q := old(n.left), old(n.right), old(n.parent);
      if l != nil { assert Grown(z, y, side, i, l); }
      if r != nil { assert Grown(z, y, side, i, r); }
      if q != nil { assert Grown(z, y, side, i, q); }
    }

    twostate lemma GrowKeepsIndex(i: int, new z: Node, new y: Node, new side: bool)
      requires old(Indexed()) && z !in old(nodes) && z != nil && (y == nil || y in old(nodes)) &&
               0 <= i <= old(|order|) && z.pos == i
      requires nodes == old(nodes) + {z} && order == old(order[..i] + [z] + order[i..])
      requires forall m {:trigger Grown(z, y, side, i, m)} | m in old(nodes) :: Grown(z, y, side, i, m)
      ensures Indexed()
    {
      forall j | 0 <= j < |order| ensures SlotOk(j) {
        assert order[j] == if j < i then old(order[j]) else if j == i then z else old(order[j - 1]);
        if j != i {
          assert old(SlotOk(if j < i then j else j - 1));
          assert Grown(z, y, side, i, order[j]);
        }
      }
    }

    twostate lemma GrowKeepsColors(n: Node, new z: Node, new y: Node, new side: bool, new i: int)
      requires nodes == old(nodes) + {z} && nil !in nodes && z !in old(nodes) && y in old(nodes)
      requires old(NilOk() && RedOk(n, nil) && BalOk(n, 0, 0)) && NilOk()
      requires old(if side then y.left == nil else y.right == nil)
      requires Grown(z, y, side, i, n)
      requires forall m | m in old(nodes) :: m.color == old(m.color) && m.bh == old(m.bh)
      requires z.color.Red? && z.bh == 1
      ensures RedOk(n, z) && BalOk(n, 0, 0)
    {
    }

    twostate lemma GrowLinked(i: int, new z: Node, new y: Node, new side: bool)
      requires old(Linked()) && z !in old(nodes) && z != nil && 0 <= i <= old(|order|)
      requires y == nil || (y in old(nodes) && old(LinkOk(y)))
      requires old(Gap(y, side, i))
      requires old(0 < i < |order| ==> order[i - 1].right != nil || order[i].left != nil)
      requires nodes == old(nodes) + {z} && order == old(order[..i] + [z] + order[i..])
      requires forall m {:trigger Grown(z, y, side, i, m)} | m in old(nodes) :: Grown(z, y, side, i, m)
      requires z.parent == y && z.pos == z.lo == i && z.hi == i + 1 && z.left == z.right == nil
      requires root == if y == nil then z else old(root)
      ensures Linked()
    {
      GrowKeepsIndex(i, z, y, side);
      if y != nil {
        assert Grown(z, y, side, i, y) && Grown(z, y, side, i, root);
      }
      forall n | n in old(nodes) ensures LinkOk(n) {
        assert old(LinkOk(n));
        GrowKeepsLink(n, z, y, side, i);
      }
      assert LinkOk(z);
    }

    method LinkLeaf(z: Node, y: Node, ghost side: bool, ghost i: nat)
      requires Linked() && Balanced() && Gap(y, side, i) && (y != nil ==> LinkOk(y) && (side <==> z.key < y.key))
      requires z !in nodes && z != nil && z.left == z.right == nil && z.color.Red? && i <= |order|
      modifies this`root, this`order, this`nodes, nodes`left, nodes`right, nodes`pos, nodes`lo, nodes`hi
      modifies z`parent, z`pos, z`lo, z`hi, z`bh
      ensures Inserting(z) && LinkOk(z)
      ensures order == old(order[..i] + [z] + order[i..]) && nodes == old(nodes) + {z}
    {
      if 0 < i < |order| {
        GapUnique(root, i);
      }
      Hang(z, y, side, i);
      GrowLinked(i, z, y, side);
      forall n | n in old(nodes) ensures RedOk(n, z) && BalOk(n, 0, 0) {
        assert Grown(z, y, side, i, n) && old(LinkOk(n) && RedOk(n, nil) && BalOk(n, 0, 0));
        GrowKeepsColors(n, z, y, side, i);
      }
      assert LinkOk(z) && RedOk(z, z) && BalOk(z, 0, 0);
    }

    // ---- rb_insert
    ghost predicate Valid()
      reads this, nil`color, nil`bh, nodes
    {
      Linked() && Balanced() && Ascending(order) && size == |order|
    }

    // The slot [lo, hi) below y where the search for key goes on: everything before it is <= key, everything after >
    // key.
    ghost predicate Descent(key: uint32, y: Node, x: Node?, lo: int, hi: int)
      reads `root, `order, `nodes, nodes`left, nodes`right, nodes`lo, nodes`pos, nodes`hi
    {
      && 0 <= lo <= hi <= |order|
      && (if x == nil then lo == hi else x in nodes && x.lo == lo && x.hi == hi)
      && (forall k | 0 <= k < lo :: order[k].key <= key)
      && (forall k | hi <= k < |order| :: key < order[k].key)
      && (if y == nil then x == root && lo == 0
          else y in nodes && (if key < y.key then x == y.left && hi == y.pos else x == y.right && lo == y.pos + 1))
    }

    lemma DescentStep(key: uint32, y: Node, x: Node, lo: int, hi: int)
      requires Descent(key, y, x, lo, hi) && Ascending(order) && LinkOk(x) && x != nil
      ensures if key < x.key then Descent(key, x, x.left, lo, x.pos) else Descent(key, x, x.right, x.pos + 1, hi)
    {
      forall k | 0 <= k < |order| &&
        k != x.pos ensures if k < x.pos then order[k].key <= x.key else x.key <= order[k].key {
        assert if k < x.pos then Leq(order, k, x.pos) else Leq(order, x.pos, k);
      }
    }

    method FindGap(key: uint32) returns (y: Node, ghost i: nat)
      requires Linked() && Ascending(order)
      ensures Gap(y, y != nil && key < y.key, i) && (y != nil ==> LinkOk(y)) && i <= |order|
      ensures forall k | 0 <= k < i :: order[k].key <= key
      ensures forall k | i <= k < |order| :: key < order[k].key
    {
      y := nil;
      var x: Node? := root;
      ghost var lo, hi := 0, |order|;
      while x != nil
        invariant Descent(key, y, x, lo, hi) && (y != nil ==> LinkOk(y))
        decreases hi - lo
      {
        assert LinkOk(x);
        DescentStep(key, y, x, lo, hi);
        y := x;
        if key < x.key {
          hi := x.pos;
          x := x.left;
        } else {
          lo := x.pos + 1;
          x := x.right;
        }
      }
      i := lo;
    }

    static lemma AscendingInsert(s: seq<Node>, z: Node, i: nat)
      requires i <= |s| && Ascending(s)
      requires forall k | 0 <= k < i :: s[k].key <= z.key
      requires forall k | i <= k < |s| :: z.key < s[k].key
      ensures var t := s[..i] + [z] + s[i..];
        && Ascending(t)
        && (forall k | 0 <= k < i :: t[k].key <= z.key)
        && (forall k | i < k < |t| :: z.key < t[k].key)
    {
      var t := s[..i] + [z] + s[i..];
      forall j, k | 0 <= j < k < |t| ensures Leq(t, j, k) {
        if j != i && k != i {
          assert Leq(s, if j < i then j else j - 1, if k < i then k else k - 1);
        }
      }
    }

    // rb_insert after the node is made and up to the call of the fix-up.
    method InsertLeaf(z: Node) returns (ghost i: nat)
      requires Valid() && z !in nodes && z != nil && z.left == z.right == nil && z.color.Red?
      modifies this, nodes, z
      ensures Inserting(z) && LinkOk(z) && Ascending(order) && size == |order| && i <= old(|order|)
      ensures order == old(order)[..i] + [z] + old(order)[i..] && nodes == old(nodes) + {z}
      ensures forall k | 0 <= k < i :: order[k].key <= z.key
      ensures forall k | i < k < |order| :: z.key < order[k].key
    {
      var y;
      y, i := FindGap(z.key);
      AscendingInsert(order, z, i);
      LinkLeaf(z, y, y != nil && z.key < y.key, i);
      size := size + 1;
    }

    method Insert(task: Task, key: uint32) returns (ghost i: nat)
      requires Valid()
      modifies this, nodes
      ensures Valid()
      ensures i < |order| == old(|order|) + 1 && fresh(order[i]) && order[i].task == task && order[i].key == key
      ensures order == old(order)[..i] + [order[i]] + old(order)[i..] && nodes == old(nodes) + {order[i]}
      ensures forall k | 0 <= k < i :: order[k].key <= key
      ensures forall k | i < k < |order| :: key < order[k].key
    {
      var z := new Node(nil, task, key);
      i := InsertLeaf(z);
      InsertFixup(z);
    }

    // ---- rb_minimum
    method Minimum(x: Node) returns (y: Node)
      requires Linked() && LinkOk(x)
      ensures LinkOk(y) && y.left == nil && y.pos == x.lo && y.hi <= x.hi
    {
      y := x;
      while y.left != nil
        invariant LinkOk(y) && y.lo == x.lo && y.hi <= x.hi
        decreases y.hi - y.lo
      {
        assert LinkOk(y.left);
        y := y.left;
      }
    }

    // ---- unlinking z: links first, then labels
    method Transplant(u: Node, v: Node)
      requires u in nodes && (v == nil || v in nodes) && nil !in nodes
      requires u.parent == nil || (u.parent in nodes && (u.parent.left == u || u.parent.right == u))
      modifies `root, nodes`left, nodes`right, v`parent
      ensures v.parent == old(u.parent)
      ensures root == if old(u.parent) == nil then v else old(root)
      ensures forall n | n in nodes ::
                && n.left == (if n == old(u.parent) && old(n.left) == u then v else old(n.left))
                && n.right == (if n == old(u.parent) && old(n.left) != u then v else old(n.right))
    {
      if u.parent == nil {
        root := v;
      } else if u == u.parent.left {
        u.parent.left := v;
      } else {
        u.parent.right := v;
      }
      v.parent := u.parent;
    }

    // The links of a surviving node n after z is replaced by its successor y and y's old slot is filled by x.
    twostate predicate Moved(z: Node, y: Node, x: Node, n: Node)
      reads n`left, n`right, n`parent
    {
      var zp, yp := old(z.parent), old(y.parent);
      && n.left == (if n == y then old(z.left) else if n == yp then x
                    else if n == zp && old(n.left) == z then y else old(n.left))
      && n.right == (if n == y then (if yp == z then x else old(z.right))
                     else if n == zp && old(n.left) != z then y else old(n.right))
      && n.parent == (if n == y then zp else if n == x then (if yp == z then y else yp)
                      else if n == old(z.left) || n == old(z.right) then y else old(n.parent))
    }

    // What the pointer surgery of rb_delete relies on: z, its successor y, and their neighbours.
    ghost predicate Surgical(z: Node, y: Node)
      reads `nodes, nodes`parent, nodes`left, nodes`right
    {
      && nil !in nodes && z in nodes && y in nodes && z != y && z.left in nodes && z.right in nodes && y.left == nil
      && (y.right == nil || (y.right in nodes && y.right != z && y.right != y && y.right != z.left &&
         y.right != z.right))
      && z.left != z && z.left != y && z.right != z && z.left != z.right
      && (if y.parent == z then z.right == y
          else y.parent in nodes && y.parent.left == y && y.parent != y && z.right != y)
      && (z.parent == nil || (z.parent in nodes && z.parent != z && z.parent != y && z.parent != y.parent &&
                              (z.parent.left == z || z.parent.right == z)))
      && y.parent != z.left
    }

    // y is the right child of z.
    method ReplaceByChild(z: Node, y: Node) returns (x: Node)
      requires Surgical(z, y) && y.parent == z
      modifies `root, nodes`left, nodes`right, nodes`parent, nil`parent
      ensures x == old(y.right)
      ensures forall n {:trigger Moved(z, y, x, n)} | n in nodes && n != z :: Moved(z, y, x, n)
      ensures root == if old(z.parent) == nil then y else old(root)
      ensures x == nil ==> nil.parent == y
    {
      x := y.right;
      x.parent := y;
      Transplant(z, y);
      y.left := z.left;
      y.left.parent := y;
    }

    // y lies further down.
    method ReplaceByDescendant(z: Node, y: Node) returns (x: Node)
      requires Surgical(z, y) && y.parent != z
      modifies `root, nodes`left, nodes`right, nodes`parent, nil`parent
      ensures x == old(y.right)
      ensures forall n {:trigger Moved(z, y, x, n)} | n in nodes && n != z :: Moved(z, y, x, n)
      ensures root == if old(z.parent) == nil then y else old(root)
      ensures x == nil ==> nil.parent == old(y.parent)
    {
      x := y.right;
      Transplant(y, y.right);
      y.right := z.right;
      y.right.parent := y;
      Transplant(z, y);
      y.left := z.left;
      y.left.parent := y;
    }

    method ReplaceBySuccessor(z: Node, y: Node) returns (x: Node)
      requires Surgical(z, y)
      modifies `root, nodes`left, nodes`right, nodes`parent, nil`parent
      ensures x == old(y.right)
      ensures forall n {:trigger Moved(z, y, x, n)} | n in nodes && n != z :: Moved(z, y, x, n)
      ensures root == if old(z.parent) == nil then y else old(root)
      ensures x == nil ==> nil.parent == if old(y.parent) == z then y else old(y.parent)
    {
      if y.parent == z {
        x := ReplaceByChild(z, y);
      } else {
        x := ReplaceByDescendant(z, y);
      }
    }

    static function Down(v: int, gone: int): int {
      if v > gone then v - 1 else v
    }

    // The labels of a surviving node n after the in-order position of y is given up and y takes over z's labels.
    twostate predicate Relabelled(z: Node, y: Node, n: Node)
      reads n`pos, n`lo, n`hi, n`bh
    {
      var s := if n == y then z else n;
      && n.pos == Down(old(s.pos), old(y.pos))
      && n.lo == Down(old(s.lo), old(y.pos))
      && n.hi == Down(old(s.hi), old(y.pos))
      && n.bh == old(s.bh)
    }

    ghost method Relabel(z: Node, y: Node)
      requires z in nodes && y in nodes && 0 <= z.pos < |order|
      modifies `order, `nodes, nodes`pos, nodes`lo, nodes`hi, nodes`bh
      ensures forall n {:trigger Relabelled(z, y, n)} | n in old(nodes) && n != z :: Relabelled(z, y, n)
      ensures order == old(order[..z.pos] + order[z.pos + 1..]) && nodes == old(nodes - {z})
    {
      var gone, zpos, zlo, zhi, zbh := y.pos, z.pos, z.lo, z.hi, z.bh;
      order := order[..z.pos] + order[z.pos + 1..];
      nodes := nodes - {z};
      forall n | n in nodes { n.pos := Down(if n == y then zpos else n.pos, gone); }
      forall n | n in nodes { n.lo := Down(if n == y then zlo else n.lo, gone); }
      forall n | n in nodes { n.hi := Down(if n == y then zhi else n.hi, gone); }
      forall n | n in nodes { n.bh := if n == y then zbh else n.bh; }
    }

    twostate lemma SpliceKeepsIndex(z: Node, new y: Node)
      requires old(Indexed()) && old(z in nodes && z.pos < |order| && LinkOk(z)) && y in old(nodes) && old(LinkOk(y))
      requires y == z || old(y.pos) == old(z.pos) + 1
      requires nodes == old(nodes) - {z} && order == old(order[..z.pos] + order[z.pos + 1..])
      requires forall m {:trigger Relabelled(z, y, m)} | m in nodes :: Relabelled(z, y, m)
      ensures Indexed()
    {
      var i := old(z.pos);
      forall j | 0 <= j < |order| ensures SlotOk(j) {
        var k := if j < i then j else j + 1;
        assert old(SlotOk(k)) && order[j] == old(order[k]);
        assert Relabelled(z, y, order[j]);
      }
    }

    twostate lemma MoveKeepsDown(n: Node, new z: Node, new y: Node, new x: Node)
      requires z in old(nodes) && y in old(nodes) && (x == nil || x in old(nodes)) && n != z && nil !in old(nodes)
      requires old(LinkOk(n) && LinkOk(z) && LinkOk(y) && y.left == nil && y.right == x && z.left != nil &&
               z.right != nil)
      requires old(y.pos == z.pos + 1 && LinkOk(y.parent))
      requires nodes == old(nodes) - {z} && order == old(order[..z.pos] + order[z.pos + 1..])
      requires root == if old(z.parent) == nil then y else old(root)
      requires forall m {:trigger Relabelled(z, y, m)} | m in nodes :: Relabelled(z, y, m)
      requires forall m {:trigger Moved(z, y, x, m)} | m in nodes :: Moved(z, y, x, m)
      ensures DownOk(n)
    {
      assert Relabelled(z, y, n) && Moved(z, y, x, n) && Relabelled(z, y, y) && Moved(z, y, x, y);
      assert 0 <= n.lo <= n.pos < n.hi <= |order| && order[n.pos] == n;
      var l, r := n.left, n.right;
      if l != nil { assert Relabelled(z, y, l) && Moved(z, y, x, l); }
      assert ChildOk(n, l, n.lo, n.pos);
      if r != nil { assert Relabelled(z, y, r) && Moved(z, y, x, r); }
    }

    twostate lemma MoveKeepsUp(n: Node, new z: Node, new y: Node, new x: Node)
      requires z in old(nodes) && y in old(nodes) && (x == nil || x in old(nodes)) && n != z && nil !in old(nodes)
      requires old(LinkOk(n) && LinkOk(z) && LinkOk(y) && y.left == nil && y.right == x && z.left != nil &&
               z.right != nil)
      requires old(y.pos == z.pos + 1 && LinkOk(y.parent))
      requires nodes == old(nodes) - {z} && order == old(order[..z.pos] + order[z.pos + 1..])
      requires root == if old(z.parent) == nil then y else old(root)
      requires forall m {:trigger Relabelled(z, y, m)} | m in nodes :: Relabelled(z, y, m)
      requires forall m {:trigger Moved(z, y, x, m)} | m in nodes :: Moved(z, y, x, m)
      ensures UpOk(n)
    {
      assert Moved(z, y, x, n) && Moved(z, y, x, y);
      var q := n.parent;
      if q != nil { assert Moved(z, y, x, q); }
    }

    // The links of a surviving node n after z, which has at most the child x, is taken out.
    twostate predicate Pruned(z: Node, x: Node, n: Node)
      reads n`left, n`right, n`parent
    {
      var zp := old(z.parent);
      && n.left == (if n == zp && old(n.left) == z then x else old(n.left))
      && n.right == (if n == zp && old(n.left) != z then x else old(n.right))
      && n.parent == (if n == x then zp else old(n.parent))
    }

    twostate lemma PruneKeepsLink(n: Node, new z: Node, new x: Node)
      requires z in old(nodes) && (x == nil || x in old(nodes)) && n != z && nil !in old(nodes)
      requires old(LinkOk(n) && LinkOk(z) && ((z.left == nil && z.right == x) || (z.right == nil && z.left == x)))
      requires nodes == old(nodes) - {z} && order == old(order[..z.pos] + order[z.pos + 1..])
      requires root == if old(z.parent) == nil then x else old(root)
      requires forall m {:trigger Relabelled(z, z, m)} | m in nodes :: Relabelled(z, z, m)
      requires forall m {:trigger Pruned(z, x, m)} | m in nodes :: Pruned(z, x, m)
      ensures LinkOk(n)
    {
      assert Relabelled(z, z, n) && Pruned(z, x, n);
      assert 0 <= n.lo <= n.pos < n.hi <= |order| && order[n.pos] == n;
      var l, r, q := n.left, n.right, n.parent;
      if l != nil { assert Relabelled(z, z, l) && Pruned(z, x, l); }
      assert ChildOk(n, l, n.lo, n.pos);
      if r != nil { assert Relabelled(z, z, r) && Pruned(z, x, r); }
      assert ChildOk(n, r, n.pos + 1, n.hi);
      if q != nil { assert Pruned(z, x, q); }
    }

    // Like BalOk(n, 0, 0), except that the child slot of p (its left one iff side) counts d more.
    ghost predicate ShortOk(n: Node, p: Node, side: bool, d: int)
      reads `nodes, nil`color, nil`bh, nodes`left, nodes`right, nodes`color, nodes`bh
    {
      BalOk(n, if n == p && side then d else 0, if n == p && !side then d else 0)
    }

    // The state between two rounds of the delete fix-up: the slot of x, a child of p, is one black short.
    ghost predicate Deleting(x: Node, p: Node, side: bool)
      reads `root, `order, `nodes, nil, nodes
    {
      && Linked() && NilOk() && (x == nil || x in nodes) && x.parent == p
      && (root == nil || root in nodes) && (root.color.Red? ==> root == x)
      && (if p == nil then x == root else p in nodes && x == if side then p.left else p.right)
      && (forall n {:trigger RedOk(n, x)} | n in nodes && n != x :: RedOk(n, x))
      && (forall n {:trigger ShortOk(n, p, side, 1)} | n in nodes :: ShortOk(n, p, side, 1))
    }

    twostate lemma PruneKeepsColors(n: Node, new z: Node, new x: Node, new side: bool)
      requires z in old(nodes) && (x == nil || x in old(nodes)) && n != z && nil !in old(nodes) &&
               nodes == old(nodes) - {z}
      requires old(LinkOk(n) && LinkOk(z) && ((z.left == nil && z.right == x) || (z.right == nil && z.left == x)))
      requires old(NilOk() && RedOk(n, nil) && BalOk(n, 0, 0) && BalOk(z, 0, 0) && RedOk(z, nil)) && NilOk()
      requires old(z.parent != nil ==> z.parent in nodes && (side <==> z.parent.left == z))
      requires Pruned(z, x, n)
      requires forall m | m in nodes :: m.color == old(m.color)
      requires forall m {:trigger Relabelled(z, z, m)} | m in old(nodes) && m != z :: Relabelled(z, z, m)
      ensures n != x ==> RedOk(n, x)
      ensures ShortOk(n, old(z.parent), side, if old(z.color.Black?) then 1 else 0)
      ensures old(z.color.Red?) ==> RedOk(n, nil)
    {
      assert Relabelled(z, z, n);
      if n.left != nil { assert Relabelled(z, z, n.left); }
      if n.right != nil { assert Relabelled(z, z, n.right); }
    }

    twostate lemma MoveKeepsRed(n: Node, new z: Node, new y: Node, new x: Node)
      requires z in old(nodes) && y in old(nodes) && (x == nil || x in old(nodes)) && n != z && nil !in old(nodes)
      requires nodes == old(nodes) - {z}
      requires old(LinkOk(n) && LinkOk(z) && LinkOk(y) && y.left == nil && y.right == x && z.left != nil &&
               z.right != nil)
      requires old(y.pos == z.pos + 1 && LinkOk(y.parent))
      requires old(NilOk() && RedOk(n, nil) && BalOk(n, 0, 0) && RedOk(z, nil) && BalOk(z, 0, 0) && RedOk(y, nil) &&
               BalOk(y, 0, 0)) && NilOk()
      requires Moved(z, y, x, n)
      requires forall m | m in nodes :: m.color == old(if m == y then z.color else m.color)
      requires forall m {:trigger Relabelled(z, y, m)} | m in old(nodes) && m != z :: Relabelled(z, y, m)
      ensures n != x ==> RedOk(n, x)
      ensures old(y.color.Red?) ==> RedOk(n, nil)
    {
    }

    twostate lemma MoveKeepsBalance(n: Node, new z: Node, new y: Node, new x: Node)
      requires z in old(nodes) && y in old(nodes) && (x == nil || x in old(nodes)) && n != z && nil !in old(nodes)
      requires nodes == old(nodes) - {z}
      requires old(LinkOk(n) && LinkOk(z) && LinkOk(y) && y.left == nil && y.right == x && z.left != nil &&
               z.right != nil)
      requires old(y.pos == z.pos + 1 && LinkOk(y.parent))
      requires old(NilOk() && RedOk(n, nil) && BalOk(n, 0, 0) && RedOk(z, nil) && BalOk(z, 0, 0) && RedOk(y, nil) &&
               BalOk(y, 0, 0)) && NilOk()
      requires Moved(z, y, x, n)
      requires forall m | m in nodes :: m.color == old(if m == y then z.color else m.color)
      requires forall m {:trigger Relabelled(z, y, m)} | m in old(nodes) && m != z :: Relabelled(z, y, m)
      ensures var q := old(y.parent);
        ShortOk(n, if q == z then y else q, q != z, if old(y.color.Black?) then 1 else 0)
    {
      assert Relabelled(z, y, n);
      if n.left != nil { assert Relabelled(z, y, n.left); }
      if n.right != nil { assert Relabelled(z, y, n.right); }
    }

    method Prune(z: Node, x: Node)
      requires Linked() && LinkOk(z)
      requires (z.left == nil && z.right == x) || (z.right == nil && z.left == x)
      modifies `root, `order, `nodes, nodes`left, nodes`right, nodes`parent, nil`parent, nodes`pos, nodes`lo,
               nodes`hi, nodes`bh
      ensures forall n {:trigger Relabelled(z, z, n)} | n in old(nodes) && n != z :: Relabelled(z, z, n)
      ensures forall n {:trigger Pruned(z, x, n)} | n in old(nodes) && n != z :: Pruned(z, x, n)
      ensures order == old(order[..z.pos] + order[z.pos + 1..]) && nodes == old(nodes - {z})
      ensures root == (if old(z.parent) == nil then x else old(root)) && x.parent == old(z.parent)
    {
      Transplant(z, x);
      assert forall n {:trigger Pruned(z, x, n)} | n in nodes && n != z :: Pruned(z, x, n);
      label cut:
      Relabel(z, z);
      forall n | n in old(nodes) && n != z ensures Relabelled(z, z, n) && Pruned(z, x, n) {
        assert Relabelled@cut(z, z, n);
      }
    }

    twostate lemma PruneLinked(z: Node, new x: Node)
      requires old(Linked() && LinkOk(z) && ((z.left == nil && z.right == x) || (z.right == nil && z.left == x)))
      requires nodes == old(nodes - {z}) && order == old(order[..z.pos] + order[z.pos + 1..])
      requires root == (if old(z.parent) == nil then x else old(root)) && x.parent == old(z.parent)
      requires forall m {:trigger Relabelled(z, z, m)} | m in old(nodes) && m != z :: Relabelled(z, z, m)
      requires forall m {:trigger Pruned(z, x, m)} | m in old(nodes) && m != z :: Pruned(z, x, m)
      ensures Linked()
    {
      SpliceKeepsIndex(z, z);
      forall n | n in nodes ensures LinkOk(n) {
        assert old(LinkOk(n));
        PruneKeepsLink(n, z, x);
      }
      if root != nil {
        assert Relabelled(z, z, root) && Pruned(z, x, root);
      }
    }

    // rb_delete up to its fix-up, for a node with at most one child x.
    method UnlinkOne(z: Node, x: Node) returns (ghost p: Node, ghost side: bool)
      requires Linked() && Balanced() && LinkOk(z)
      requires (z.left == nil && z.right == x) || (z.right == nil && z.left == x)
      modifies `root, `order, `nodes, nodes`left, nodes`right, nodes`parent, nil`parent, nodes`pos, nodes`lo,
               nodes`hi, nodes`bh
      ensures order == old(order[..z.pos] + order[z.pos + 1..]) && nodes == old(nodes - {z})
      ensures if old(z.color.Black?) then Deleting(x, p, side) else Linked() && Balanced()
    {
      p := z.parent;
      side := p != nil && p.left == z;
      assert RedOk(z, nil) && BalOk(z, 0, 0);
      Prune(z, x);
      PruneLinked(z, x);
      ghost var d := if old(z.color.Black?) then 1 else 0;
      forall n | n in nodes ensures (n != x ==> RedOk(n, x)) && ShortOk(n, p, side, d) && (d == 0 ==> RedOk(n, nil)) {
        assert old(LinkOk(n) && RedOk(n, nil) && BalOk(n, 0, 0)) && Relabelled(z, z, n) && Pruned(z, x, n);
        PruneKeepsColors(n, z, x, side);
      }
      if p != nil { assert Pruned(z, x, p); }
    }

    lemma SurgicalSuccessor(z: Node, y: Node)
      requires Linked() && LinkOk(z) && z.left != nil && z.right != nil && LinkOk(z.left) && LinkOk(z.right)
      requires LinkOk(y) && y.pos == z.pos + 1 && y.left == nil
      ensures Surgical(z, y) && LinkOk(y.parent)
    {
      assert y.parent != nil;
      assert LinkOk(y.parent);
      if z.parent != nil { assert LinkOk(z.parent); }
      if y.right != nil { assert LinkOk(y.right); }
    }

    method MoveUp(z: Node, y: Node) returns (x: Node)
      requires Surgical(z, y) && 0 <= z.pos < |order|
      modifies `root, `order, `nodes, nodes`left, nodes`right, nodes`parent, nil`parent, nodes`color, nodes`pos,
               nodes`lo, nodes`hi, nodes`bh
      ensures x == old(y.right)
      ensures forall n {:trigger Relabelled(z, y, n)} | n in old(nodes) && n != z :: Relabelled(z, y, n)
      ensures forall n {:trigger Moved(z, y, x, n)} | n in old(nodes) && n != z :: Moved(z, y, x, n)
      ensures forall n | n in old(nodes) :: n.color == old(if n == y then z.color else n.color)
      ensures order == old(order[..z.pos] + order[z.pos + 1..]) && nodes == old(nodes - {z})
      ensures root == if old(z.parent) == nil then y else old(root)
      ensures x.parent == if old(y.parent) == z then y else old(y.parent)
    {
      x := ReplaceBySuccessor(z, y);
      y.color := z.color;
      label moved:
      Relabel(z, y);
      forall n | n in old(nodes) && n != z ensures Relabelled(z, y, n) && Moved(z, y, x, n) {
        assert Relabelled@moved(z, y, n);
      }
      if x != nil { assert Moved(z, y, x, x); }
    }

    twostate lemma MoveLinked(z: Node, new y: Node, new x: Node)
      requires y in old(nodes)
      requires old(Linked() && LinkOk(z) && LinkOk(y) && y.left == nil && y.right == x && z.left != nil &&
               z.right != nil)
      requires old(y.pos == z.pos + 1 && LinkOk(y.parent))
      requires nodes == old(nodes - {z}) && order == old(order[..z.pos] + order[z.pos + 1..])
      requires root == if old(z.parent) == nil then y else old(root)
      requires forall m {:trigger Relabelled(z, y, m)} | m in old(nodes) && m != z :: Relabelled(z, y, m)
      requires forall m {:trigger Moved(z, y, x, m)} | m in old(nodes) && m != z :: Moved(z, y, x, m)
      ensures Linked()
    {
      SpliceKeepsIndex(z, y);
      forall n | n in nodes ensures LinkOk(n) {
        assert old(LinkOk(n));
        MoveKeepsDown(n, z, y, x);
        MoveKeepsUp(n, z, y, x);
      }
      assert Relabelled(z, y, root) && Moved(z, y, x, root);
    }

    // rb_delete up to its fix-up, for a node with two children.
    method UnlinkTwo(z: Node, y: Node) returns (x: Node, ghost p: Node, ghost side: bool)
      requires Linked() && Balanced() && LinkOk(z) && z.left != nil && z.right != nil
      requires LinkOk(y) && y.pos == z.pos + 1 && y.left == nil && Surgical(z, y) && LinkOk(y.parent)
      modifies `root, `order, `nodes, nodes`left, nodes`right, nodes`parent, nil`parent, nodes`color, nodes`pos,
               nodes`lo, nodes`hi, nodes`bh
      ensures order == old(order[..z.pos] + order[z.pos + 1..]) && nodes == old(nodes - {z})
      ensures if old(y.color.Black?) then Deleting(x, p, side) else Linked() && Balanced()
    {
      p, side := if y.parent == z then y else y.parent, y.parent != z;
      assert RedOk(z, nil) && BalOk(z, 0, 0) && RedOk(y, nil) && BalOk(y, 0, 0);
      x := MoveUp(z, y);
      MoveLinked(z, y, x);
      ghost var d := if old(y.color.Black?) then 1 else 0;
      forall n | n in nodes ensures (n != x ==> RedOk(n, x)) && ShortOk(n, p, side, d) && (d == 0 ==> RedOk(n, nil)) {
        assert old(LinkOk(n) && RedOk(n, nil) && BalOk(n, 0, 0)) && Relabelled(z, y, n) && Moved(z, y, x, n);
        MoveKeepsRed(n, z, y, x);
        MoveKeepsBalance(n, z, y, x);
      }
      assert Moved(z, y, x, p);
    }

    // ---- rb_delete_fixup
    // Inside a round: x is black and not the root, and its slot (the left one of p iff side) is one black short.
    ghost predicate Short(x: Node, p: Node, side: bool)
      reads `root, `order, `nodes, nil, nodes
    {
      && Linked() && NilOk() && p in nodes && x == (if side then p.left else p.right)
      && (x == nil || x in nodes) && x.parent == p && x.color.Black? && root in nodes && root.color.Black?
      && (forall n {:trigger RedOk(n, nil)} | n in nodes :: RedOk(n, nil))
      && (forall n {:trigger ShortOk(n, p, side, 1)} | n in nodes :: ShortOk(n, p, side, 1))
    }

    lemma SiblingExists(x: Node, p: Node, side: bool)
      requires Short(x, p, side) && LinkOk(p)
      ensures var w := if side then p.right else p.left; w in nodes && w != x && LinkOk(w)
    {
      assert ShortOk(p, p, side, 1);
      var w := if side then p.right else p.left;
      if x != nil { assert LinkOk(x) && ShortOk(x, p, side, 1); }
      assert LinkOk(w);
    }

    twostate predicate Lightened(w: Node, p: Node, n: Node)
      reads n`color, n`bh
    {
      && n.color == (if n == w then Red else old(n.color))
      && n.bh == old(n.bh) - if n == p then 1 else 0
    }

    twostate predicate LightenCase(new x: Node, new p: Node, side: bool, new w: Node, new q: Node, up: bool)
      reads `nodes, nil, nodes
    {
      && nodes == old(nodes) && p in nodes && w in nodes && (x == nil || x in nodes) && nil !in nodes && NilOk()
      && old(NilOk() && LinkOk(p) && LinkOk(w) && ShortOk(p, p, side, 1) && x.color.Black? && x.bh >= 0)
      && old(x == (if side then p.left else p.right) && w == (if side then p.right else p.left)) && w != x
      && old(w.color.Black? && w.left.color.Black? && w.right.color.Black?)
      && old(q == p.parent && (q != nil ==> q in nodes && (up <==> q.left == p)))
      && (forall m {:trigger Lightened(w, p, m)} | m in nodes :: Lightened(w, p, m))
    }

    twostate lemma LightenKeeps(n: Node, new x: Node, new p: Node, new side: bool, new w: Node, new q: Node,
                                new up: bool)
      requires LightenCase(x, p, side, w, q, up)
      requires old(LinkOk(n) && RedOk(n, nil) && ShortOk(n, p, side, 1))
      requires n.left == old(n.left) && n.right == old(n.right)
      ensures (n != p ==> RedOk(n, p)) && ShortOk(n, q, up, 1)
    {
      assert Lightened(w, p, n) && Lightened(w, p, w) && Lightened(w, p, p);
      if n.left != nil { assert Lightened(w, p, n.left); }
      if n.right != nil { assert Lightened(w, p, n.right); }
    }

    method PaintSibling(w: Node, p: Node)
      requires w in nodes && p in nodes
      modifies nodes`color, nodes`bh
      ensures forall n {:trigger Lightened(w, p, n)} | n in nodes :: Lightened(w, p, n)
    {
      w.color := Red;
      p.bh := p.bh - 1;
    }

    // Case 2: the sibling w and its children are black; the shortage moves up to p.
    method Lighten(x: Node, p: Node, ghost side: bool, w: Node) returns (ghost up: bool)
      requires Short(x, p, side) && LinkOk(p) && w == (if side then p.right else p.left) && w in nodes && w != x &&
               LinkOk(w)
      requires w.color.Black? && w.left.color.Black? && w.right.color.Black?
      modifies nodes`color, nodes`bh
      ensures p.parent != null && Deleting(p, p.parent, up) && p.color == old(p.color)
    {
      ghost var q: Node := p.parent;
      if q != nil { assert LinkOk(q); }
      up := q != nil && q.left == p;
      assert ShortOk(p, p, side, 1);
      if x != nil { assert ShortOk(x, p, side, 1); }
      PaintSibling(w, p);
      assert Lightened(w, p, p) && Lightened(w, p, root);
      forall n | n in nodes ensures (n != p ==> RedOk(n, p)) && ShortOk(n, q, up, 1) {
        assert old(LinkOk(n) && RedOk(n, nil) && ShortOk(n, p, side, 1));
        LightenKeeps(n, x, p, side, w, q, up);
      }
    }

    // Case 1, left: the sibling w is red.
    method DeleteCase1Left(x: Node, p: Node)
      requires Short(x, p, true) && LinkOk(p) && p.right in nodes && p.right != x && p.right.color.Red?
      modifies `root, nodes`parent, nodes`left, nodes`right, nodes`lo, nodes`hi, nodes`color
      ensures Short(x, p, true) && LinkOk(p) && p.color.Red? && p.right.color.Black?
    {
      ghost var w: Node, q: Node := p.right, p.parent;
      assert LinkOk(w) && RedOk(p, nil) && RedOk(w, nil) && ShortOk(p, p, true, 1) && ShortOk(w, p, true, 1);
      SpinLeft(p);
      assert TurnedLeft(p, w, q, p) && Exchanged(p, w, p) && TurnedLeft(p, w, q, w) && Exchanged(p, w, w) &&
             Exchanged(p, w, root);
      if x != nil { assert TurnedLeft(p, w, q, x) && Exchanged(p, w, x); }
      forall n | n in nodes ensures RedOk(n, nil) && ShortOk(n, p, true, 1) {
        assert old(LinkOk(n) && RedOk(n, nil) && ShortOk(n, p, true, 1));
        SpinLeftKeeps(n, p, w, q, nil, nil, if n == p then 1 else 0, 0);
      }
      assert LinkOk(p);
      if p.right != nil { assert Exchanged(p, w, p.right); }
    }

    // Case 3, left: the sibling w is black with a red left and a black right child.
    method DeleteCase3Left(x: Node, p: Node)
      requires Short(x, p, true) && LinkOk(p) && p.right in nodes && p.right != x && LinkOk(p.right)
      requires p.right.color.Black? && p.right.left.color.Red? && p.right.right.color.Black?
      modifies `root, nodes`parent, nodes`left, nodes`right, nodes`lo, nodes`hi, nodes`color
      ensures Short(x, p, true) && LinkOk(p) && p.right in nodes && p.right != x && LinkOk(p.right)
      ensures p.right.color.Black? && p.right.right.color.Red?
    {
      var w: Node := p.right;
      ghost var y: Node := w.left;
      assert LinkOk(y) && RedOk(w, nil) && RedOk(y, nil) && ShortOk(w, p, true, 1) && ShortOk(y, p, true, 1);
      SpinRight(w);
      assert TurnedRight(w, y, p, p) && Exchanged(w, y, p) && TurnedRight(w, y, p, w) && Exchanged(w, y, w);
      assert TurnedRight(w, y, p, y) && Exchanged(w, y, y) && Exchanged(w, y, root);
      if x != nil { assert TurnedRight(w, y, p, x) && Exchanged(w, y, x); }
      forall n | n in nodes ensures RedOk(n, nil) && ShortOk(n, p, true, 1) {
        assert old(LinkOk(n) && RedOk(n, nil) && ShortOk(n, p, true, 1));
        SpinRightKeeps(n, w, y, p, nil, nil, if n == p then 1 else 0, 0);
      }
      assert LinkOk(p) && LinkOk(y);
    }

    // Case 1, right: the sibling w is red.
    method DeleteCase1Right(x: Node, p: Node)
      requires Short(x, p, false) && LinkOk(p) && p.left in nodes && p.left != x && p.left.color.Red?
      modifies `root, nodes`parent, nodes`right, nodes`left, nodes`lo, nodes`hi, nodes`color
      ensures Short(x, p, false) && LinkOk(p) && p.color.Red? && p.left.color.Black?
    {
      ghost var w: Node, q: Node := p.left, p.parent;
      assert LinkOk(w) && RedOk(p, nil) && RedOk(w, nil) && ShortOk(p, p, false, 1) && ShortOk(w, p, false, 1);
      SpinRight(p);
      assert TurnedRight(p, w, q, p) && Exchanged(p, w, p) && TurnedRight(p, w, q, w) && Exchanged(p, w, w) &&
             Exchanged(p, w, root);
      if x != nil { assert TurnedRight(p, w, q, x) && Exchanged(p, w, x); }
      forall n | n in nodes ensures RedOk(n, nil) && ShortOk(n, p, false, 1) {
        assert old(LinkOk(n) && RedOk(n, nil) && ShortOk(n, p, false, 1));
        SpinRightKeeps(n, p, w, q, nil, nil, 0, if n == p then 1 else 0);
      }
      assert LinkOk(p);
      if p.left != nil { assert Exchanged(p, w, p.left); }
    }

    // Case 3, right: the sibling w is black with a red right and a black left child.
    method DeleteCase3Right(x: Node, p: Node)
      requires Short(x, p, false) && LinkOk(p) && p.left in nodes && p.left != x && LinkOk(p.left)
      requires p.left.color.Black? && p.left.right.color.Red? && p.left.left.color.Black?
      modifies `root, nodes`parent, nodes`right, nodes`left, nodes`lo, nodes`hi, nodes`color
      ensures Short(x, p, false) && LinkOk(p) && p.left in nodes && p.left != x && LinkOk(p.left)
      ensures p.left.color.Black? && p.left.left.color.Red?
    {
      var w: Node := p.left;
      ghost var y: Node := w.right;
      assert LinkOk(y) && RedOk(w, nil) && RedOk(y, nil) && ShortOk(w, p, false, 1) && ShortOk(y, p, false, 1);
      SpinLeft(w);
      assert TurnedLeft(w, y, p, p) && Exchanged(w, y, p) && TurnedLeft(w, y, p, w) && Exchanged(w, y, w);
      assert TurnedLeft(w, y, p, y) && Exchanged(w, y, y) && Exchanged(w, y, root);
      if x != nil { assert TurnedLeft(w, y, p, x) && Exchanged(w, y, x); }
      forall n | n in nodes ensures RedOk(n, nil) && ShortOk(n, p, false, 1) {
        assert old(LinkOk(n) && RedOk(n, nil) && ShortOk(n, p, false, 1));
        SpinLeftKeeps(n, w, y, p, nil, nil, 0, if n == p then 1 else 0);
      }
      assert LinkOk(p) && LinkOk(y);
    }

    twostate predicate Swung(p: Node, w: Node, c: Node, n: Node)
      reads n`color, n`bh
    {
      && n.color == (if n == p || n == c then Black else if n == w then old(p.color) else old(n.color))
      && n.bh == old(if n == p then w.bh else if n == w then p.bh else n.bh)
    }

    method PaintSwing(p: Node, w: Node, c: Node)
      requires p in nodes && w in nodes && c in nodes && c != p && c != w && p != w
      modifies p`color, w`color, c`color, p`bh, w`bh
      ensures forall n {:trigger Swung(p, w, c, n)} | n in nodes :: Swung(p, w, c, n)
    {
      w.color := p.color;
      p.color := Black;
      c.color := Black;
      ghost var bh := w.bh;
      w.bh := p.bh;
      p.bh := bh;
    }

    lemma RestIsShort(side: bool)
      requires Linked() && Balanced() && root != nil
      ensures Deleting(root, nil, side)
    {
      forall n | n in nodes ensures RedOk(n, root) && ShortOk(n, nil, side, 1) {
        assert RedOk(n, nil) && BalOk(n, 0, 0);
      }
    }

    twostate lemma SwingLeftKeeps(n: Node, new p: Node, new w: Node, new c: Node, new q: Node)
      requires nodes == old(nodes) && nil !in nodes && old(NilOk()) && NilOk()
      requires p in nodes && w in nodes && c in nodes && old(w == p.right && c == w.right && q == p.parent)
      requires old(LinkOk(n) && LinkOk(p) && LinkOk(w))
      requires old(RedOk(n, nil) && ShortOk(n, p, true, 1) && ShortOk(p, p, true, 1) && ShortOk(w, p, true, 1))
      requires old(p.left.color.Black? && w.color.Black? && c.color.Red?)
      requires forall m {:trigger TurnedLeft(p, w, q, m)} | m in nodes :: TurnedLeft(p, w, q, m)
      requires forall m {:trigger Swung(p, w, c, m)} | m in nodes :: Swung(p, w, c, m)
      ensures RedOk(n, nil) && BalOk(n, 0, 0)
    {
      assert TurnedLeft(p, w, q, n) && Swung(p, w, c, n) && TurnedLeft(p, w, q, p) && Swung(p, w, c, p);
      assert TurnedLeft(p, w, q, w) && Swung(p, w, c, w);
      if n.left != nil { assert Swung(p, w, c, n.left); }
      if n.right != nil { assert Swung(p, w, c, n.right); }
    }

    method SwingLeft(p: Node)
      requires Linked() && LinkOk(p) && p.right != nil && LinkOk(p.right) && p.right.right in nodes
      modifies `root, nodes`parent, nodes`left, nodes`right, nodes`lo, nodes`hi, nodes`color, nodes`bh
      ensures Linked()
      ensures root == (if old(p.parent) == nil then old(p.right) else old(root))
      ensures forall n {:trigger TurnedLeft(p, old(p.right), old(p.parent), n)} | n in nodes ::
                TurnedLeft(p, old(p.right), old(p.parent), n)
      ensures forall n {:trigger Swung(p, old(p.right), old(p.right.right), n)} | n in nodes ::
                Swung(p, old(p.right), old(p.right.right), n)
    {
      var w: Node := p.right;
      ghost var q: Node := p.parent;
      PaintSwing(p, w, w.right);
      label painted:
      LeftRotate(p);
      forall n | n in nodes ensures TurnedLeft(p, w, q, n) {
        assert TurnedLeft@painted(p, w, q, n);
      }
    }

    // Case 4, left: the sibling w is black with a red right child; this ends the fix-up.
    method DeleteCase4Left(x: Node, p: Node)
      requires Short(x, p, true) && LinkOk(p) && p.right in nodes && p.right != x && LinkOk(p.right)
      requires p.right.color.Black? && p.right.right.color.Red?
      modifies `root, nodes`parent, nodes`left, nodes`right, nodes`lo, nodes`hi, nodes`color, nodes`bh
      ensures Linked() && Balanced() && root != nil
    {
      ghost var w: Node, q: Node := p.right, p.parent;
      ghost var c: Node := w.right;
      assert ShortOk(p, p, true, 1) && ShortOk(w, p, true, 1);
      SwingLeft(p);
      assert Swung(p, w, c, root);
      forall n | n in nodes ensures RedOk(n, nil) && BalOk(n, 0, 0) {
        assert old(LinkOk(n) && RedOk(n, nil) && ShortOk(n, p, true, 1));
        SwingLeftKeeps(n, p, w, c, q);
      }
    }

    // One round of the fix-up when x is a left child.
    method DeleteRoundLeft(x: Node, p: Node) returns (x': Node, ghost p': Node, ghost side': bool)
      requires Short(x, p, true) && LinkOk(p)
      modifies `root, nodes`parent, nodes`left, nodes`right, nodes`lo, nodes`hi, nodes`color, nodes`bh
      ensures Deleting(x', p', side')
      ensures x' == root || x'.color.Red? || (LinkOk(p') && p'.hi - p'.lo > old(p.hi - p.lo))
    {
      SiblingExists(x, p, true);
      var w := p.right;
      if w.color == Red {
        DeleteCase1Left(x, p);
        w := p.right;
        SiblingExists(x, p, true);
      }
      if w.left.color == Black && w.right.color == Black {
        side' := Lighten(x, p, true, w);
        x', p' := p, p.parent;
        assert LinkOk(p);
        if p' != nil { assert LinkOk(p'); }
      } else {
        if w.right.color == Black {
          DeleteCase3Left(x, p);
        }
        DeleteCase4Left(x, p);
        x', p', side' := root, nil, true;
        RestIsShort(side');
      }
    }

    twostate lemma SwingRightKeeps(n: Node, new p: Node, new w: Node, new c: Node, new q: Node)
      requires nodes == old(nodes) && nil !in nodes && old(NilOk()) && NilOk()
      requires p in nodes && w in nodes && c in nodes && old(w == p.left && c == w.left && q == p.parent)
      requires old(LinkOk(n) && LinkOk(p) && LinkOk(w))
      requires old(RedOk(n, nil) && ShortOk(n, p, false, 1) && ShortOk(p, p, false, 1) && ShortOk(w, p, false, 1))
      requires old(p.right.color.Black? && w.color.Black? && c.color.Red?)
      requires forall m {:trigger TurnedRight(p, w, q, m)} | m in nodes :: TurnedRight(p, w, q, m)
      requires forall m {:trigger Swung(p, w, c, m)} | m in nodes :: Swung(p, w, c, m)
      ensures RedOk(n, nil) && BalOk(n, 0, 0)
    {
      assert TurnedRight(p, w, q, n) && Swung(p, w, c, n) && TurnedRight(p, w, q, p) && Swung(p, w, c, p);
      assert TurnedRight(p, w, q, w) && Swung(p, w, c, w);
      if n.right != nil { assert Swung(p, w, c, n.right); }
      if n.left != nil { assert Swung(p, w, c, n.left); }
    }

    method SwingRight(p: Node)
      requires Linked() && LinkOk(p) && p.left != nil && LinkOk(p.left) && p.left.left in nodes
      modifies `root, nodes`parent, nodes`right, nodes`left, nodes`lo, nodes`hi, nodes`color, nodes`bh
      ensures Linked()
      ensures root == (if old(p.parent) == nil then old(p.left) else old(root))
      ensures forall n {:trigger TurnedRight(p, old(p.left), old(p.parent), n)} | n in nodes ::
                TurnedRight(p, old(p.left), old(p.parent), n)
      ensures forall n {:trigger Swung(p, old(p.left), old(p.left.left), n)} | n in nodes ::
                Swung(p, old(p.left), old(p.left.left), n)
    {
      var w: Node := p.left;
      ghost var q: Node := p.parent;
      PaintSwing(p, w, w.left);
      label painted:
      RightRotate(p);
      forall n | n in nodes ensures TurnedRight(p, w, q, n) {
        assert TurnedRight@painted(p, w, q, n);
      }
    }

    // Case 4, right: the sibling w is black with a red left child; this ends the fix-up.
    method DeleteCase4Right(x: Node, p: Node)
      requires Short(x, p, false) && LinkOk(p) && p.left in nodes && p.left != x && LinkOk(p.left)
      requires p.left.color.Black? && p.left.left.color.Red?
      modifies `root, nodes`parent, nodes`right, nodes`left, nodes`lo, nodes`hi, nodes`color, nodes`bh
      ensures Linked() && Balanced() && root != nil
    {
      ghost var w: Node, q: Node := p.left, p.parent;
      ghost var c: Node := w.left;
      assert ShortOk(p, p, false, 1) && ShortOk(w, p, false, 1);
      SwingRight(p);
      assert Swung(p, w, c, root);
      forall n | n in nodes ensures RedOk(n, nil) && BalOk(n, 0, 0) {
        assert old(LinkOk(n) && RedOk(n, nil) && ShortOk(n, p, false, 1));
        SwingRightKeeps(n, p, w, c, q);
      }
    }

    // One round of the fix-up when x is a right child.
    method DeleteRoundRight(x: Node, p: Node) returns (x': Node, ghost p': Node, ghost side': bool)
      requires Short(x, p, false) && LinkOk(p)
      modifies `root, nodes`parent, nodes`right, nodes`left, nodes`lo, nodes`hi, nodes`color, nodes`bh
      ensures Deleting(x', p', side')
      ensures x' == root || x'.color.Red? || (LinkOk(p') && p'.hi - p'.lo > old(p.hi - p.lo))
    {
      SiblingExists(x, p, false);
      var w := p.left;
      if w.color == Red {
        DeleteCase1Right(x, p);
        w := p.left;
        SiblingExists(x, p, false);
      }
      if w.right.color == Black && w.left.color == Black {
        side' := Lighten(x, p, false, w);
        x', p' := p, p.parent;
        assert LinkOk(p);
        if p' != nil { assert LinkOk(p'); }
      } else {
        if w.left.color == Black {
          DeleteCase3Right(x, p);
        }
        DeleteCase4Right(x, p);
        x', p', side' := root, nil, false;
        RestIsShort(side');
      }
    }

    lemma DeletingIsShort(x: Node, p: Node, side: bool)
      requires Deleting(x, p, side) && x != root && x.color.Black?
      ensures Short(x, p, side) && LinkOk(p)
    {
      assert LinkOk(p);
      forall n | n in nodes ensures RedOk(n, nil) {
        assert LinkOk(n) && (n != x ==> RedOk(n, x));
      }
    }

    // x.color = BLACK, the last line of rb_delete_fixup.
    method Blacken(x: Node, ghost p: Node, ghost side: bool)
      requires Deleting(x, p, side) && (x == root || x.color.Red?)
      modifies nodes`color, nil`color
      ensures Linked() && Balanced()
    {
      x.color := Black;
      forall n | n in nodes ensures RedOk(n, nil) && BalOk(n, 0, 0) {
        assert old(LinkOk(n) && ShortOk(n, p, side, 1) && (n != x ==> RedOk(n, x)));
      }
    }

    method DeleteFixup(x0: Node, ghost p0: Node, ghost side0: bool)
      requires Deleting(x0, p0, side0)
      modifies `root, nodes`parent, nodes`left, nodes`right, nodes`lo, nodes`hi, nodes`color, nodes`bh, nil`color
      ensures Linked() && Balanced()
    {
      var x := x0;
      ghost var p, side := p0, side0;
      while x != root && x.color == Black
        invariant Deleting(x, p, side)
        decreases if x == root || x.color.Red? then 0 else 1 + |order| - (p.hi - p.lo)
      {
        DeletingIsShort(x, p, side);
        var q: Node := x.parent;
        SiblingExists(x, q, side);
        if x == q.left {
          x, p, side := DeleteRoundLeft(x, q);
        } else {
          x, p, side := DeleteRoundRight(x, q);
        }
      }
      Blacken(x, p, side);
    }

    static lemma AscendingRemove(s: seq<Node>, i: nat)
      requires i < |s| && Ascending(s)
      ensures Ascending(s[..i] + s[i + 1..])
    {
      var t := s[..i] + s[i + 1..];
      forall j, k | 0 <= j < k < |t| ensures Leq(t, j, k) {
        assert Leq(s, if j < i then j else j + 1, if k < i then k else k + 1);
      }
    }

    // rb_delete up to its fix-up; c is the colour that left the tree.
    method Unlink(z: Node) returns (x: Node, c: Color, ghost p: Node, ghost side: bool)
      requires Linked() && Balanced() && LinkOk(z)
      modifies `root, `order, `nodes, nodes, nil
      ensures order == old(order[..z.pos] + order[z.pos + 1..]) && nodes == old(nodes - {z})
      ensures if c.Black? then Deleting(x, p, side) else Linked() && Balanced()
    {
      c := z.color;
      if z.left == nil {
        x := z.right;
        p, side := UnlinkOne(z, x);
      } else if z.right == nil {
        x := z.left;
        p, side := UnlinkOne(z, x);
      } else {
        assert LinkOk(z.left) && LinkOk(z.right);
        var y := Minimum(z.right);
        c := y.color;
        SurgicalSuccessor(z, y);
        x, p, side := UnlinkTwo(z, y);
      }
    }

    method Delete(z: Node) returns (ghost i: nat)
      requires Valid() && z in nodes
      modifies this, nodes, nil
      ensures Valid()
      ensures i < old(|order|) && old(order)[i] == z
      ensures order == old(order)[..i] + old(order)[i + 1..] && nodes == old(nodes) - {z}
    {
      assert LinkOk(z);
      i := z.pos;
      AscendingRemove(order, i);
      var x, c;
      ghost var p, side;
      x, c, p, side := Unlink(z);
      if c == Black {
        DeleteFixup(x, p, side);
      }
      size := size - 1;
    }

    static lemma AscendingAt(s: seq<Node>, p: nat)
      requires Ascending(s) && p < |s|
      ensures forall k | 0 <= k < p :: s[k].key <= s[p].key
      ensures forall k | p < k < |s| :: s[p].key <= s[k].key
    {
      forall k | 0 <= k < p ensures s[k].key <= s[p].key {
        assert Leq(s, k, p);
      }
      forall k | p < k < |s| ensures s[p].key <= s[k].key {
        assert Leq(s, p, k);
      }
    }

    // ---- navigation
    method Maximum(x: Node) returns (y: Node)
      requires Linked() && LinkOk(x)
      ensures LinkOk(y) && y.right == nil && y.pos == x.hi - 1
    {
      y := x;
      while y.right != nil
        invariant LinkOk(y) && y.hi == x.hi
        decreases y.hi - y.lo
      {
        assert LinkOk(y.right);
        y := y.right;
      }
    }

    method Successor(x0: Node, ghost i: nat) returns (y: Node)
      requires Linked() && i < |order| && order[i] == x0
      ensures y == if i + 1 < |order| then order[i + 1] else nil
    {
      var x := x0;
      assert SlotOk(i);
      assert LinkOk(x);
      if x.right != nil {
        assert LinkOk(x.right);
        y := Minimum(x.right);
        return;
      }
      y := x.parent;
      while y != nil && x == y.right
        invariant LinkOk(x) && x.hi == i + 1 && y == x.parent
        decreases |order| - (x.hi - x.lo)
      {
        assert LinkOk(y);
        x := y;
        y := y.parent;
      }
      if y != nil { assert LinkOk(y); }
    }

    method Predecessor(x0: Node, ghost i: nat) returns (y: Node)
      requires Linked() && i < |order| && order[i] == x0
      ensures y == if i > 0 then order[i - 1] else nil
    {
      var x := x0;
      assert SlotOk(i);
      assert LinkOk(x);
      if x.left != nil {
        assert LinkOk(x.left);
        y := Maximum(x.left);
        return;
      }
      y := x.parent;
      while y != nil && x == y.left
        invariant LinkOk(x) && x.lo == i && y == x.parent
        decreases |order| - (x.hi - x.lo)
      {
        assert LinkOk(y);
        x := y;
        y := y.parent;
      }
      if y != nil { assert LinkOk(y); }
    }

    // Following rb_successor from rb_minimum lists the in-order sequence.
    method Walk() returns (s: seq<Node>)
      requires Linked()
      ensures s == order
    {
      s := [];
      if root == nil { return; }
      assert LinkOk(root);
      var x := Minimum(root);
      while x != nil
        invariant |s| <= |order| && s == order[..|s|]
        invariant if x == nil then |s| == |order| else |s| < |order| && x == order[|s|]
        decreases |order| - |s|
      {
        s := s + [x];
        x := Successor(x, |s| - 1);
        if |s| < |order| { assert SlotOk(|s|); }
      }
    }

    // ---- the tree as a value, and what the labels mean for it
    ghost function ShapeAt(n: Node?): (s: Shape)
      requires Linked() && (n == nil || n in nodes)
      reads `root, `order, `nodes, nodes
      decreases if n == nil then 0 else n.hi - n.lo
    {
      if n == nil then Leaf
      else assert LinkOk(n); Branch(ShapeAt(n.left), n, n.color, ShapeAt(n.right))
    }

    static lemma Rejoin(s: seq<Node>, lo: nat, pos: nat, hi: nat)
      requires lo <= pos < hi <= |s|
      ensures s[lo..pos] + [s[pos]] + s[pos + 1..hi] == s[lo..hi]
    {
    }

    lemma {:induction false} ShapeAtOrder(n: Node)
      requires Linked() && n in nodes
      ensures 0 <= n.lo <= n.hi <= |order| && InOrder(ShapeAt(n)) == order[n.lo..n.hi]
      decreases n.hi - n.lo
    {
      assert LinkOk(n);
      if n.left != nil { ShapeAtOrder(n.left); }
      if n.right != nil { ShapeAtOrder(n.right); }
      var l, r := InOrder(ShapeAt(n.left)), InOrder(ShapeAt(n.right));
      assert l == order[n.lo..n.pos] && r == order[n.pos + 1..n.hi];
      Rejoin(order, n.lo, n.pos, n.hi);
    }

    lemma {:induction false} ShapeAtColors(n: Node)
      requires Linked() && Balanced() && (n == nil || n in nodes)
      ensures NoRedRed(ShapeAt(n)) && EqualBlack(ShapeAt(n)) && Blacks(ShapeAt(n)) + 1 == Weight(n)
      ensures ColorOf(ShapeAt(n)) == n.color
      decreases if n == nil then 0 else n.hi - n.lo
    {
      if n != nil {
        assert LinkOk(n) && RedOk(n, nil) && BalOk(n, 0, 0);
        ShapeAtColors(n.left);
        ShapeAtColors(n.right);
      }
    }

    lemma ShapeIsRedBlack()
      requires Valid() && (root == nil || root in nodes)
      ensures RedBlack(ShapeAt(root)) && InOrder(ShapeAt(root)) == order
    {
      ShapeAtColors(root);
      if root != nil {
        ShapeAtOrder(root);
        assert order[0..|order|] == order;
      }
    }

    // ---- rb_search and rb_find_task
    lemma HeightStep(n: Node)
      requires Linked() && n in nodes && LinkOk(n)
      ensures Height(ShapeAt(n.left)) < Height(ShapeAt(n)) && Height(ShapeAt(n.right)) < Height(ShapeAt(n))
    {
    }

    // levels <= 2 * log2(n + 1)
    ghost predicate WithinTwoLogs(levels: nat)
      reads `order
    {
      Pow2(levels) <= (|order| + 1) * (|order| + 1)
    }

    lemma LevelsBound(levels: nat)
      requires Valid() && (root == nil || root in nodes) && levels <= Height(ShapeAt(root))
      ensures WithinTwoLogs(levels)
    {
      ShapeIsRedBlack();
      HeightBound(ShapeAt(root));
      Pow2Mono(levels, Height(ShapeAt(root)));
    }

    method Search(key: uint32) returns (r: Node?, ghost levels: nat)
      requires Valid()
      ensures r != null ==> r in nodes && r.key == key
      ensures r == null ==> forall n | n in nodes :: n.key != key
      ensures WithinTwoLogs(levels)
    {
      var x: Node? := root;
      levels := 0;
      ghost var lo, hi := 0, |order|;
      while x != nil && key != x.key
        invariant x == nil || x in nodes
        invariant 0 <= lo <= hi <= |order| && if x == nil then lo == hi else x.lo == lo && x.hi == hi
        invariant forall k | 0 <= k < |order| && order[k].key == key :: lo <= k < hi
        invariant levels + Height(ShapeAt(x)) <= Height(ShapeAt(root))
        decreases hi - lo
      {
        assert LinkOk(x);
        AscendingAt(order, x.pos);
        HeightStep(x);
        levels := levels + 1;
        if key < x.key {
          hi := x.pos;
          x := x.left;
        } else {
          lo := x.pos + 1;
          x := x.right;
        }
      }
      LevelsBound(levels);
      r := if x != nil then x else null;
      forall n | n in nodes ensures r == null ==> n.key != key {
        assert LinkOk(n);
      }
    }

    // The search below x for n, which lies below x, succeeds exactly if the node after n's subtree does not lie below
    // x too or has a larger key: it is the closest node that has n to its left.
    lemma {:induction false} FindsBelow(x: Node, n: Node)
      requires Linked() && Balanced() && Ascending(order) && n in nodes && n.task != null
      requires forall m | m in nodes && m != n :: m.task != n.task
      requires x in nodes && x.lo <= n.pos < x.hi
      ensures 0 <= x.lo <= n.lo < n.hi <= x.hi <= |order|
      ensures FindTask(ShapeAt(x), n.task, n.key) ==
              if n.hi == x.hi || n.key < order[n.hi].key then n else null
      decreases x.hi - x.lo
    {
      assert LinkOk(x) && LinkOk(n);
      AscendingAt(order, x.pos);
      if n.pos < x.pos {
        FindsBelow(x.left, n);
        if n.key == x.key {
          NotBelow(x.right, n);
        }
      } else if n.pos > x.pos {
        FindsBelow(x.right, n);
      }
    }

    lemma NotBelow(x: Node, n: Node)
      requires Linked() && Balanced() && n in nodes && n.task != null && (x == nil || x in nodes)
      requires x != nil ==> n.pos < x.lo
      requires forall m | m in nodes && m != n :: m.task != n.task
      ensures FindTask(ShapeAt(x), n.task, n.key) == null
    {
      if x != nil { ShapeAtOrder(x); }
      forall m | m in InOrder(ShapeAt(x)) ensures m.task != n.task {
        var k :| x != nil && x.lo <= k < x.hi && order[k] == m;
        assert SlotOk(k);
      }
      FindsNothingElse(ShapeAt(x), n.task, n.key);
    }

    // rb_find_task finds the node of a task if and only if the node that follows its subtree in order, if there is
    // one, has a larger key.
    lemma FindsTaskIff(n: Node)
      requires Valid() && (root == nil || root in nodes) && n in nodes && n.task != null
      requires forall m | m in nodes && m != n :: m.task != n.task
      ensures 0 < n.hi <= |order|
      ensures FindTask(ShapeAt(root), n.task, n.key) ==
              if n.hi == |order| || n.key < order[n.hi].key then n else null
    {
      assert LinkOk(n);
      FindsBelow(root, n);
    }

    // Equal keys do no harm among nodes of one task: then some node of the task is found.
    lemma {:induction false} FindsSomeNode(x: Node, n: Node)
      requires Linked() && Ascending(order) && n in nodes && n.task != null
      requires forall m | m in nodes && m.key == n.key :: m.task == n.task
      requires x in nodes && x.lo <= n.pos < x.hi
      ensures FindTask(ShapeAt(x), n.task, n.key) != null
      decreases x.hi - x.lo
    {
      assert LinkOk(x) && LinkOk(n);
      AscendingAt(order, x.pos);
      if n.pos < x.pos && x.task != n.task {
        FindsSomeNode(x.left, n);
      } else if n.pos > x.pos && x.task != n.task {
        FindsSomeNode(x.right, n);
      }
    }

    // A subtree with one black level to its name is a single red node.
    lemma RedLeaf(n: Node)
      requires Balanced() && n in nodes && Weight(n) == 1
      ensures n.color.Red? && n.left == n.right == nil
    {
      assert RedOk(n, nil) && BalOk(n, 0, 0);
      var l: Node, r: Node := n.left, n.right;
      assert (l != nil ==> BalOk(l, 0, 0)) && (r != nil ==> BalOk(r, 0, 0));
    }

    // In a valid tree of three nodes the first one is not the root.
    lemma RootOfThree()
      requires Valid() && |order| == 3
      ensures root in nodes && root.pos != 0
    {
      assert LinkOk(root) && RedOk(root, nil) && BalOk(root, 0, 0);
      var l: Node, r: Node := root.left, root.right;
      assert (l != nil ==> LinkOk(l)) && (r != nil ==> LinkOk(r));
      if r != nil && Weight(r) == 1 { RedLeaf(r); }
    }

    // So with three equal keys the first task is never found, however the tree came about.
    lemma FirstOfThreeMissed()
      requires Valid() && (root == nil || root in nodes) && |order| == 3 && order[0].key == order[1].key == order[2].key
      requires order[0].task != null && order[1].task != order[0].task && order[2].task != order[0].task
      ensures FindTask(ShapeAt(root), order[0].task, order[0].key) == null
    {
      RootOfThree();
      var n := order[0];
      assert SlotOk(0) && LinkOk(n) && LinkOk(root);
      forall m | m in nodes && m != n ensures m.task != n.task { assert LinkOk(m); }
      FindsTaskIff(n);
      FindsBelow(root.left, n);
    }

    method FindTaskNode(task: Task, key: uint32) returns (r: Node?)
      requires Linked() && (root == nil || root in nodes)
      ensures r == FindTask(ShapeAt(root), task, key)
    {
      var x: Node? := root;
      while x != nil
        invariant x == nil || x in nodes
        invariant FindTask(ShapeAt(root), task, key) == FindTask(ShapeAt(x), task, key)
        decreases if x == nil then 0 else x.hi - x.lo
      {
        assert LinkOk(x);
        if task == x.task {
          return x;
        }
        if key < x.key {
          x := x.left;
        } else {
          x := x.right;
        }
      }
      r := null;
    }
  }

  // The same from the outside: three tasks are inserted under one key, and the first is not found although it is there.
  method FindTaskMissesEqualKeys(a: Task, b: Task, c: Task, key: uint32) returns (tree: Tree, found: Node?)
    requires a != b && a != c
    ensures tree.Valid() && |tree.order| == 3 && tree.order[0].task == a && tree.order[0].key == key && found == null
  {
    tree := new Tree();
    ghost var i := tree.Insert(a, key);
    ghost var one := tree.order;
    ghost var j := tree.Insert(b, key);
    assert tree.order[if j == 0 then 1 else 0] == one[0];
    ghost var two := tree.order;
    ghost var k := tree.Insert(c, key);
    assert tree.order[if k < 2 then 2 else 1] == two[1];
    tree.FirstOfThreeMissed();
    found := tree.FindTaskNode(a, key);
  }
}
