// The string dictionary of hx-touchd/mtfw/qdict.c: an AVL tree ordered by
// `strcmp`, each entry carrying a zero-initialised payload. Nodes keep a cached
// `depth` (height minus one) that `qdict_update` recomputes and `qdict_delta`
// reads; insertion rebalances every ancestor with single or double rotations.
module QDict {
  import opened CStr

  /** Mode flags of `qdict_find`. */
  const ADD: nat := 1
  const FIND: nat := 2
  const ANY: nat := 3

  predicate HasAdd(mode: nat) { mode % 2 == 1 }
  predicate HasFind(mode: nat) { (mode / 2) % 2 == 1 }

  /** A subtree: `depth` is the value the C code caches in each node. */
  datatype Tree<V> = Nil | Node(left: Tree<V>, key: string, val: V, depth: nat, right: Tree<V>)

  /** A pointer returned by `qdict_find`: NULL, or the payload of the entry with that key. */
  datatype Ptr = Null | Payload(key: string)

  /** Which child of a node is lifted by a rotation. */
  datatype Side = Left | Right

  function Max(a: nat, b: nat): nat { if a < b then b else a }

  function Height<V>(t: Tree<V>): nat
  {
    match t
    case Nil => 0
    case Node(l, _, _, _, r) => 1 + Max(Height(l), Height(r))
  }

  function Keys<V>(t: Tree<V>): set<string>
  {
    match t
    case Nil => {}
    case Node(l, k, _, _, r) => Keys(l) + Keys(r) + {k}
  }

  /** The key/payload map a subtree represents. */
  function Contents<V>(t: Tree<V>): map<string, V>
  {
    match t
    case Nil => map[]
    case Node(l, k, v, _, r) => Contents(l) + Contents(r) + map[k := v]
  }

  /** The in-order sequence of entries (the order `qdict_iter_recurse` visits them). */
  function InOrder<V>(t: Tree<V>): seq<(string, V)>
  {
    match t
    case Nil => []
    case Node(l, k, v, _, r) => InOrder(l) + [(k, v)] + InOrder(r)
  }

  /** Binary-search-tree order under `strcmp`. */
  ghost predicate Ordered<V>(t: Tree<V>)
  {
    match t
    case Nil => true
    case Node(l, k, _, _, r) =>
      Ordered(l) && Ordered(r) &&
      (forall x | x in Keys(l) :: Less(x, k)) &&
      (forall x | x in Keys(r) :: Less(k, x))
  }

  /** Every cached `depth` is the node's height minus one. */
  ghost predicate DepthsOk<V>(t: Tree<V>)
  {
    match t
    case Nil => true
    case Node(l, _, _, d, r) => DepthsOk(l) && DepthsOk(r) && d + 1 == Height(t)
  }

  /** The AVL balance condition at every node. */
  ghost predicate Balanced<V>(t: Tree<V>)
  {
    match t
    case Nil => true
    case Node(l, _, _, _, r) => Balanced(l) && Balanced(r) && -1 <= Height(r) - Height(l) <= 1
  }

  ghost predicate Avl<V>(t: Tree<V>)
  {
    Ordered(t) && DepthsOk(t) && Balanced(t)
  }

  ghost predicate StrictlyAscending<V>(s: seq<(string, V)>)
  {
    forall i, j | 0 <= i < j < |s| :: Less(s[i].0, s[j].0)
  }

  function KeySet<V>(s: seq<(string, V)>): set<string>
  {
    set i | 0 <= i < |s| :: s[i].0
  }

  lemma {:induction false} ContentsKeys<V>(t: Tree<V>)
    ensures Contents(t).Keys == Keys(t)
  {
    if t.Node? {
      ContentsKeys(t.left);
      ContentsKeys(t.right);
    }
  }

  /** `qdict_delta`: right height minus left height, read from the cached depths. */
  function Delta<V>(t: Tree<V>): (d: int)
    requires t.Node?
    ensures DepthsOk(t.left) && DepthsOk(t.right) ==> d == Height(t.right) - Height(t.left)
  {
    (if t.right.Node? then t.right.depth + 1 else 0) - (if t.left.Node? then t.left.depth + 1 else 0)
  }

  /** `qdict_update`: recomputes the cached depth of one node from its children's. */
  function Update<V>(t: Tree<V>): (r: Tree<V>)
    requires t.Node?
    ensures r.Node? && r == t.(depth := r.depth)
    ensures DepthsOk(t.left) && DepthsOk(t.right) ==> DepthsOk(r)
  {
    var d := if t.left.Node? then t.left.depth + 1 else 0;
    var d' := if t.right.Node? && d < t.right.depth + 1 then t.right.depth + 1 else d;
    t.(depth := d')
  }

  /**
   * `qdict_pivot`: lifts the child on `side` above `t` (a right rotation for
   * `Left`, a left rotation for `Right`) and refreshes both depths, the old
   * root first.
   */
  function Pivot<V>(t: Tree<V>, side: Side): (r: Tree<V>)
    requires t.Node? && (if side == Left then t.left.Node? else t.right.Node?)
    ensures r.Node?
    ensures InOrder(r) == InOrder(t)
    ensures Keys(r) == Keys(t)
    ensures DepthsOk(t.left) && DepthsOk(t.right) ==> DepthsOk(r)
  {
    if side == Left then
      var p := t.left;
      Update(p.(right := Update(t.(left := p.right))))
    else
      var p := t.right;
      Update(p.(left := Update(t.(right := p.left))))
  }

  /** A rotation keeps the search order. */
  lemma PivotOrdered<V>(t: Tree<V>, side: Side)
    requires t.Node? && (if side == Left then t.left.Node? else t.right.Node?)
    requires Ordered(t)
    ensures Ordered(Pivot(t, side))
  {
    if side == Left {
      PivotLeftOrdered(t);
    } else {
      PivotRightOrdered(t);
    }
  }

  lemma PivotLeftOrdered<V>(t: Tree<V>)
    requires t.Node? && t.left.Node? && Ordered(t)
    ensures Ordered(Pivot(t, Left))
  {
    var p := t.left;
    var n := Update(t.(left := p.right));
    assert Ordered(n);
    forall x | x in Keys(n) ensures Less(p.key, x) {
      if x in Keys(t.right) {
        LessTransitive(p.key, t.key, x);
      }
    }
  }

  lemma PivotRightOrdered<V>(t: Tree<V>)
    requires t.Node? && t.right.Node? && Ordered(t)
    ensures Ordered(Pivot(t, Right))
  {
    var p := t.right;
    var n := Update(t.(right := p.left));
    assert Ordered(n);
    forall x | x in Keys(n) ensures Less(x, p.key) {
      if x in Keys(t.left) {
        LessTransitive(x, t.key, p.key);
      }
    }
  }

  /** Keys of an ordered node: the left subtree, the node and the right subtree are pairwise disjoint. */
  lemma OrderedDisjoint<V>(t: Tree<V>)
    requires t.Node? && Ordered(t)
    ensures t.key !in Keys(t.left) && t.key !in Keys(t.right)
    ensures Keys(t.left) !! Keys(t.right)
  {
    LessIrreflexive(t.key);
    forall x | x in Keys(t.left) ensures x !in Keys(t.right) {
      LessAsymmetric(x, t.key);
    }
  }

  /** Overriding order does not matter for disjoint keys: the map identity behind a rotation. */
  lemma MapRotate<V>(a: map<string, V>, b: map<string, V>, c: map<string, V>, x: string, vx: V, y: string, vy: V)
    requires x !in c && x != y
    ensures (a + b + map[x := vx]) + c + map[y := vy] == a + (b + c + map[y := vy]) + map[x := vx]
  {
  }

  /** A rotation keeps the entries. */
  lemma PivotContents<V>(t: Tree<V>, side: Side)
    requires t.Node? && (if side == Left then t.left.Node? else t.right.Node?)
    requires Ordered(t)
    ensures Contents(Pivot(t, side)) == Contents(t)
  {
    if side == Left {
      var p := t.left;
      LessIrreflexive(t.key);
      ContentsKeys(t.right);
      assert p.key !in Keys(t.right) by {
        if p.key in Keys(t.right) { LessAsymmetric(p.key, t.key); }
      }
      MapRotate(Contents(p.left), Contents(p.right), Contents(t.right), p.key, p.val, t.key, t.val);
    } else {
      var p := t.right;
      LessIrreflexive(t.key);
      ContentsKeys(p.right);
      assert t.key !in Keys(p.right);
      MapRotate(Contents(t.left), Contents(p.left), Contents(p.right), t.key, t.val, p.key, p.val);
    }
  }

  /** A node with its depth computed from the heights of its subtrees. */
  function Mk<V>(l: Tree<V>, k: string, v: V, r: Tree<V>): Tree<V>
  {
    Node(l, k, v, Max(Height(l), Height(r)), r)
  }

  /** A node built over two sound subtrees whose heights differ by at most one is sound. */
  lemma MkOk<V>(l: Tree<V>, k: string, v: V, r: Tree<V>)
    requires DepthsOk(l) && DepthsOk(r) && Balanced(l) && Balanced(r)
    requires -1 <= Height(r) - Height(l) <= 1
    ensures DepthsOk(Mk(l, k, v, r)) && Balanced(Mk(l, k, v, r))
    ensures Height(Mk(l, k, v, r)) == 1 + Max(Height(l), Height(r))
  {
  }

  /** With correct depths below, `qdict_pivot` builds the rotated tree with correct depths. */
  lemma PivotShape<V>(t: Tree<V>, side: Side)
    requires t.Node? && (if side == Left then t.left.Node? else t.right.Node?)
    requires DepthsOk(t.left) && DepthsOk(t.right)
    ensures side == Left ==>
      Pivot(t, side) == Mk(t.left.left, t.left.key, t.left.val, Mk(t.left.right, t.key, t.val, t.right))
    ensures side == Right ==>
      Pivot(t, side) == Mk(Mk(t.left, t.key, t.val, t.right.left), t.right.key, t.right.val, t.right.right)
  {
  }

  /**
   * One step of `qdict_rebalance` at node `t` whose depth is already updated:
   * a delta of -2 or +2 is repaired by a single rotation, or by a double one
   * when the heavy child leans the other way. (The C code gives up on a delta
   * beyond +-2; `BalanceRestores` shows insertion never reaches one.)
   */
  function Balance<V>(t: Tree<V>): (r: Tree<V>)
    requires t.Node? && -2 <= Delta(t) <= 2
    ensures -1 <= Delta(t) <= 1 ==> r == t
  {
    var d := Delta(t);
    if d < -1 then
      var l := if Delta(t.left) > 0 then Pivot(t.left, Right) else t.left;
      Pivot(t.(left := l), Left)
    else if d > 1 then
      var rt := if Delta(t.right) < 0 then Pivot(t.right, Left) else t.right;
      Pivot(t.(right := rt), Right)
    else
      t
  }

  /** Rebalancing a node whose subtrees are AVL and differ in height by at most two gives an AVL tree with the same entries, at most one level lower. */
  lemma BalanceRestores<V>(t: Tree<V>)
    requires t.Node? && Ordered(t) && DepthsOk(t)
    requires Balanced(t.left) && Balanced(t.right)
    requires -2 <= Height(t.right) - Height(t.left) <= 2
    ensures -2 <= Delta(t) <= 2
    ensures Avl(Balance(t))
    ensures Contents(Balance(t)) == Contents(t) && Keys(Balance(t)) == Keys(t)
    ensures InOrder(Balance(t)) == InOrder(t)
    ensures Height(t) - 1 <= Height(Balance(t)) <= Height(t)
  {
    var d := Delta(t);
    if d < -1 {
      LeftHeavyRestores(t);
    } else if d > 1 {
      RightHeavyRestores(t);
    }
  }

  lemma LeftHeavyRestores<V>(t: Tree<V>)
    requires t.Node? && Ordered(t) && DepthsOk(t)
    requires Balanced(t.left) && Balanced(t.right)
    requires Height(t.right) - Height(t.left) == -2
    ensures Delta(t) == -2
    ensures Avl(Balance(t))
    ensures Contents(Balance(t)) == Contents(t) && Keys(Balance(t)) == Keys(t)
    ensures InOrder(Balance(t)) == InOrder(t)
    ensures Height(t) - 1 <= Height(Balance(t)) <= Height(t)
  {
    if Delta(t.left) > 0 {
      LeftDouble(t);
    } else {
      LeftSingle(t);
    }
  }

  lemma LeftSingle<V>(t: Tree<V>)
    requires t.Node? && Ordered(t) && DepthsOk(t)
    requires Balanced(t.left) && Balanced(t.right)
    requires Height(t.right) - Height(t.left) == -2
    requires t.left.Node? && Delta(t.left) <= 0
    ensures Avl(Balance(t))
    ensures Contents(Balance(t)) == Contents(t) && Keys(Balance(t)) == Keys(t)
    ensures InOrder(Balance(t)) == InOrder(t)
    ensures Height(t) - 1 <= Height(Balance(t)) <= Height(t)
  {
    var L, R := t.left, t.right;
    var A, LR := L.left, L.right;
    assert Balance(t) == Pivot(t, Left);
    PivotOrdered(t, Left);
    PivotContents(t, Left);
    PivotShape(t, Left);
    assert DepthsOk(L) && Balanced(L) && Height(A) == Height(R) + 1;
    LeftSingleOk(A, L.key, L.val, LR, t.key, t.val, R, Height(R));
  }

  /** The tree a right rotation builds: the outer left subtree one level above the right one, the middle one between. */
  lemma LeftSingleOk<V>(a: Tree<V>, k1: string, v1: V, b: Tree<V>, k2: string, v2: V, c: Tree<V>, h: nat)
    requires DepthsOk(a) && DepthsOk(b) && DepthsOk(c) && Balanced(a) && Balanced(b) && Balanced(c)
    requires Height(a) == h + 1 && h <= Height(b) <= h + 1 && Height(c) == h
    ensures var x := Mk(a, k1, v1, Mk(b, k2, v2, c));
      DepthsOk(x) && Balanced(x) && h + 2 <= Height(x) <= h + 3
  {
    MkOk(b, k2, v2, c);
    MkOk(a, k1, v1, Mk(b, k2, v2, c));
  }

  lemma LeftDouble<V>(t: Tree<V>)
    requires t.Node? && Ordered(t) && DepthsOk(t)
    requires Balanced(t.left) && Balanced(t.right)
    requires Height(t.right) - Height(t.left) == -2
    requires t.left.Node? && Delta(t.left) > 0
    ensures Avl(Balance(t))
    ensures Contents(Balance(t)) == Contents(t) && Keys(Balance(t)) == Keys(t)
    ensures InOrder(Balance(t)) == InOrder(t)
    ensures Height(t) - 1 <= Height(Balance(t)) <= Height(t)
  {
    LeftDoubleShape(t);
    LeftDoubleHeights(t);
    LeftDoubleOrder(t);
  }

  /** The depths and balance of a double rotation (the order is `LeftDoubleOrder`). */
  lemma LeftDoubleHeights<V>(t: Tree<V>)
    requires t.Node? && DepthsOk(t)
    requires Balanced(t.left) && Balanced(t.right)
    requires Height(t.right) - Height(t.left) == -2
    requires t.left.Node? && Delta(t.left) > 0
    ensures DepthsOk(Balance(t)) && Balanced(Balance(t))
    ensures Height(t) - 1 <= Height(Balance(t)) <= Height(t)
  {
    var L, R := t.left, t.right;
    LeftDoubleShape(t);
    var A, LR := L.left, L.right;
    var B, C := LR.left, LR.right;
    assert DepthsOk(L) && Balanced(L);
    assert DepthsOk(LR) && Balanced(LR) && DepthsOk(A) && Balanced(A);
    assert Height(L) == Height(R) + 2 && Height(LR) > Height(A);
    assert Height(LR) == Height(R) + 1 && Height(A) == Height(R);
    assert Height(B) <= Height(R) && Height(C) <= Height(R) && Height(R) - 1 <= Height(B) && Height(R) - 1 <= Height(C);
    DoubleOk(A, L.key, L.val, B, LR.key, LR.val, C, t.key, t.val, R, Height(R));
  }

  lemma LeftDoubleShape<V>(t: Tree<V>)
    requires t.Node? && DepthsOk(t) && t.left.Node? && -2 <= Delta(t) < -1 && Delta(t.left) > 0
    ensures t.left.right.Node?
    ensures Balance(t) == Mk(Mk(t.left.left, t.left.key, t.left.val, t.left.right.left), t.left.right.key, t.left.right.val,
                             Mk(t.left.right.right, t.key, t.val, t.right))
  {
    var l := Pivot(t.left, Right);
    PivotShape(t.left, Right);
    PivotShape(t.(left := l), Left);
  }

  lemma LeftDoubleOrder<V>(t: Tree<V>)
    requires t.Node? && Ordered(t) && t.left.Node? && t.left.right.Node? && -2 <= Delta(t) < -1 && Delta(t.left) > 0
    ensures Ordered(Balance(t)) && Contents(Balance(t)) == Contents(t)
  {
    var l := Pivot(t.left, Right);
    var t' := t.(left := l);
    PivotOrdered(t.left, Right);
    PivotContents(t.left, Right);
    assert Ordered(t');
    PivotOrdered(t', Left);
    PivotContents(t', Left);
  }

  lemma RightHeavyRestores<V>(t: Tree<V>)
    requires t.Node? && Ordered(t) && DepthsOk(t)
    requires Balanced(t.left) && Balanced(t.right)
    requires Height(t.right) - Height(t.left) == 2
    ensures Delta(t) == 2
    ensures Avl(Balance(t))
    ensures Contents(Balance(t)) == Contents(t) && Keys(Balance(t)) == Keys(t)
    ensures InOrder(Balance(t)) == InOrder(t)
    ensures Height(t) - 1 <= Height(Balance(t)) <= Height(t)
  {
    if Delta(t.right) < 0 {
      RightDouble(t);
    } else {
      RightSingle(t);
    }
  }

  lemma RightSingle<V>(t: Tree<V>)
    requires t.Node? && Ordered(t) && DepthsOk(t)
    requires Balanced(t.left) && Balanced(t.right)
    requires Height(t.right) - Height(t.left) == 2
    requires t.right.Node? && Delta(t.right) >= 0
    ensures Avl(Balance(t))
    ensures Contents(Balance(t)) == Contents(t) && Keys(Balance(t)) == Keys(t)
    ensures InOrder(Balance(t)) == InOrder(t)
    ensures Height(t) - 1 <= Height(Balance(t)) <= Height(t)
  {
    var L, R := t.left, t.right;
    var RL, C := R.left, R.right;
    assert Balance(t) == Pivot(t, Right);
    PivotOrdered(t, Right);
    PivotContents(t, Right);
    PivotShape(t, Right);
    assert DepthsOk(R) && Balanced(R) && Height(C) == Height(L) + 1;
    RightSingleOk(L, t.key, t.val, RL, R.key, R.val, C, Height(L));
  }

  /** The tree a left rotation builds: the mirror image of `LeftSingleOk`. */
  lemma RightSingleOk<V>(a: Tree<V>, k1: string, v1: V, b: Tree<V>, k2: string, v2: V, c: Tree<V>, h: nat)
    requires DepthsOk(a) && DepthsOk(b) && DepthsOk(c) && Balanced(a) && Balanced(b) && Balanced(c)
    requires Height(a) == h && h <= Height(b) <= h + 1 && Height(c) == h + 1
    ensures var x := Mk(Mk(a, k1, v1, b), k2, v2, c);
      DepthsOk(x) && Balanced(x) && h + 2 <= Height(x) <= h + 3
  {
    MkOk(a, k1, v1, b);
    MkOk(Mk(a, k1, v1, b), k2, v2, c);
  }

  lemma RightDouble<V>(t: Tree<V>)
    requires t.Node? && Ordered(t) && DepthsOk(t)
    requires Balanced(t.left) && Balanced(t.right)
    requires Height(t.right) - Height(t.left) == 2
    requires t.right.Node? && Delta(t.right) < 0
    ensures Avl(Balance(t))
    ensures Contents(Balance(t)) == Contents(t) && Keys(Balance(t)) == Keys(t)
    ensures InOrder(Balance(t)) == InOrder(t)
    ensures Height(t) - 1 <= Height(Balance(t)) <= Height(t)
  {
    RightDoubleShape(t);
    RightDoubleHeights(t);
    RightDoubleOrder(t);
  }

  /** The depths and balance of a double rotation (the order is `RightDoubleOrder`). */
  lemma RightDoubleHeights<V>(t: Tree<V>)
    requires t.Node? && DepthsOk(t)
    requires Balanced(t.left) && Balanced(t.right)
    requires Height(t.right) - Height(t.left) == 2
    requires t.right.Node? && Delta(t.right) < 0
    ensures DepthsOk(Balance(t)) && Balanced(Balance(t))
    ensures Height(t) - 1 <= Height(Balance(t)) <= Height(t)
  {
    var L, R := t.left, t.right;
    RightDoubleShape(t);
    var RL, C := R.left, R.right;
    var A, B := RL.left, RL.right;
    assert DepthsOk(R) && Balanced(R);
    assert DepthsOk(RL) && Balanced(RL) && DepthsOk(C) && Balanced(C);
    assert Height(R) == Height(L) + 2 && Height(RL) > Height(C);
    assert Height(RL) == Height(L) + 1 && Height(C) == Height(L);
    assert Height(A) <= Height(L) && Height(B) <= Height(L) && Height(L) - 1 <= Height(A) && Height(L) - 1 <= Height(B);
    DoubleOk(L, t.key, t.val, A, RL.key, RL.val, B, R.key, R.val, C, Height(L));
  }

  /** The tree a double rotation builds from four sound subtrees of heights `h - 1` or `h`, the outer two of height `h`. */
  lemma DoubleOk<V>(a: Tree<V>, k1: string, v1: V, b: Tree<V>, k2: string, v2: V, c: Tree<V>, k3: string, v3: V,
                    d: Tree<V>, h: nat)
    requires DepthsOk(a) && DepthsOk(b) && DepthsOk(c) && DepthsOk(d)
    requires Balanced(a) && Balanced(b) && Balanced(c) && Balanced(d)
    requires Height(a) == h && Height(d) == h
    requires h - 1 <= Height(b) <= h && h - 1 <= Height(c) <= h
    ensures var x := Mk(Mk(a, k1, v1, b), k2, v2, Mk(c, k3, v3, d));
      DepthsOk(x) && Balanced(x) && Height(x) == h + 2
  {
    MkOk(a, k1, v1, b);
    MkOk(c, k3, v3, d);
    MkOk(Mk(a, k1, v1, b), k2, v2, Mk(c, k3, v3, d));
  }

  lemma RightDoubleShape<V>(t: Tree<V>)
    requires t.Node? && DepthsOk(t) && t.right.Node? && 1 < Delta(t) <= 2 && Delta(t.right) < 0
    ensures t.right.left.Node?
    ensures Balance(t) == Mk(Mk(t.left, t.key, t.val, t.right.left.left), t.right.left.key, t.right.left.val,
                             Mk(t.right.left.right, t.right.key, t.right.val, t.right.right))
  {
    var r := Pivot(t.right, Left);
    PivotShape(t.right, Left);
    PivotShape(t.(right := r), Right);
  }

  lemma RightDoubleOrder<V>(t: Tree<V>)
    requires t.Node? && Ordered(t) && t.right.Node? && t.right.left.Node? && 1 < Delta(t) <= 2 && Delta(t.right) < 0
    ensures Ordered(Balance(t)) && Contents(Balance(t)) == Contents(t)
  {
    var r := Pivot(t.right, Left);
    var t' := t.(right := r);
    PivotOrdered(t.right, Left);
    PivotContents(t.right, Left);
    assert Ordered(t');
    PivotOrdered(t', Right);
    PivotContents(t', Right);
  }

  /**
   * The insertion branch of `qdict_find` followed by `qdict_rebalance`: the new
   * leaf is placed where the search ended, then every ancestor, from the leaf
   * up, has its depth updated and is rebalanced.
   */
  function Insert<V>(t: Tree<V>, k: string, z: V): (r: Tree<V>)
    requires Avl(t) && k !in Keys(t)
    ensures Avl(r)
    ensures Keys(r) == Keys(t) + {k}
    ensures Contents(r) == Contents(t)[k := z]
    ensures Height(t) <= Height(r) <= Height(t) + 1
    decreases t
  {
    match t
    case Nil => Node(Nil, k, z, 0, Nil)
    case Node(l, key, v, _, rt) =>
      if Less(k, key) then
        var l' := Insert(l, k, z);
        InsertLeftStep(t, k, z, l');
        Balance(Update(t.(left := l')))
      else
        var rt' := Insert(rt, k, z);
        InsertRightStep(t, k, z, rt');
        Balance(Update(t.(right := rt')))
  }

  /** Adding `k` to a map that lacks it on one side of a disjoint union. */
  lemma MapAddLeft<V>(a: map<string, V>, b: map<string, V>, x: string, vx: V, k: string, z: V)
    requires k !in b && k != x
    ensures a[k := z] + b + map[x := vx] == (a + b + map[x := vx])[k := z]
  {
  }

  lemma MapAddRight<V>(a: map<string, V>, b: map<string, V>, x: string, vx: V, k: string, z: V)
    requires k != x
    ensures a + b[k := z] + map[x := vx] == (a + b + map[x := vx])[k := z]
  {
  }

  /** One level of insertion on the left: the left subtree has absorbed `k`; updating and rebalancing the node keeps it AVL. */
  lemma InsertLeftStep<V>(t: Tree<V>, k: string, z: V, sub: Tree<V>)
    requires t.Node? && Avl(t) && k !in Keys(t) && Less(k, t.key)
    requires Avl(sub) && Keys(sub) == Keys(t.left) + {k} && Contents(sub) == Contents(t.left)[k := z]
    requires Height(t.left) <= Height(sub) <= Height(t.left) + 1
    ensures var u := Update(t.(left := sub));
      -2 <= Delta(u) <= 2 &&
      Avl(Balance(u)) && Keys(Balance(u)) == Keys(t) + {k} &&
      Contents(Balance(u)) == Contents(t)[k := z] &&
      Height(t) <= Height(Balance(u)) <= Height(t) + 1
  {
    var u := Update(t.(left := sub));
    InsertLeftUpdate(t, k, z, sub);
    BalanceRestores(u);
  }

  /** The node above the grown left subtree, with its depth updated, before rebalancing. */
  lemma InsertLeftUpdate<V>(t: Tree<V>, k: string, z: V, sub: Tree<V>)
    requires t.Node? && Avl(t) && k !in Keys(t) && Less(k, t.key)
    requires Avl(sub) && Keys(sub) == Keys(t.left) + {k} && Contents(sub) == Contents(t.left)[k := z]
    requires Height(t.left) <= Height(sub) <= Height(t.left) + 1
    ensures var u := Update(t.(left := sub));
      Ordered(u) && DepthsOk(u) && Balanced(u.left) && Balanced(u.right) &&
      -2 <= Height(u.right) - Height(u.left) <= 1 &&
      Keys(u) == Keys(t) + {k} && Contents(u) == Contents(t)[k := z] &&
      (Height(u.right) - Height(u.left) == -2 ==> Height(u) == Height(t) + 1) &&
      Height(t) <= Height(u) <= Height(t) + 1
  {
    ContentsKeys(t.right);
    var u := Update(t.(left := sub));
    assert k !in Keys(t.right);
    MapAddLeft(Contents(t.left), Contents(t.right), t.key, t.val, k, z);
  }

  /** One level of insertion on the right. */
  lemma InsertRightStep<V>(t: Tree<V>, k: string, z: V, sub: Tree<V>)
    requires t.Node? && Avl(t) && k !in Keys(t) && !Less(k, t.key)
    requires Avl(sub) && Keys(sub) == Keys(t.right) + {k} && Contents(sub) == Contents(t.right)[k := z]
    requires Height(t.right) <= Height(sub) <= Height(t.right) + 1
    ensures var u := Update(t.(right := sub));
      -2 <= Delta(u) <= 2 &&
      Avl(Balance(u)) && Keys(Balance(u)) == Keys(t) + {k} &&
      Contents(Balance(u)) == Contents(t)[k := z] &&
      Height(t) <= Height(Balance(u)) <= Height(t) + 1
  {
    var u := Update(t.(right := sub));
    InsertRightUpdate(t, k, z, sub);
    BalanceRestores(u);
  }

  /** The node above the grown right subtree, with its depth updated, before rebalancing. */
  lemma InsertRightUpdate<V>(t: Tree<V>, k: string, z: V, sub: Tree<V>)
    requires t.Node? && Avl(t) && k !in Keys(t) && !Less(k, t.key)
    requires Avl(sub) && Keys(sub) == Keys(t.right) + {k} && Contents(sub) == Contents(t.right)[k := z]
    requires Height(t.right) <= Height(sub) <= Height(t.right) + 1
    ensures var u := Update(t.(right := sub));
      Ordered(u) && DepthsOk(u) && Balanced(u.left) && Balanced(u.right) &&
      -1 <= Height(u.right) - Height(u.left) <= 2 &&
      Keys(u) == Keys(t) + {k} && Contents(u) == Contents(t)[k := z] &&
      (Height(u.right) - Height(u.left) == 2 ==> Height(u) == Height(t) + 1) &&
      Height(t) <= Height(u) <= Height(t) + 1
  {
    var u := Update(t.(right := sub));
    LessTotal(k, t.key);
    MapAddRight(Contents(t.left), Contents(t.right), t.key, t.val, k, z);
  }

  /** Writes `v` into the payload of the entry `k` (what a caller does through the returned pointer). */
  function Assign<V>(t: Tree<V>, k: string, v: V): (r: Tree<V>)
    ensures Keys(r) == Keys(t) && Height(r) == Height(t)
  {
    match t
    case Nil => Nil
    case Node(l, key, w, d, rt) =>
      if k == key then Node(l, key, v, d, rt)
      else if Less(k, key) then Node(Assign(l, k, v), key, w, d, rt)
      else Node(l, key, w, d, Assign(rt, k, v))
  }

  /** A payload write leaves the tree's shape, order and depths alone. */
  lemma {:induction false} AssignAvl<V>(t: Tree<V>, k: string, v: V)
    requires Avl(t)
    ensures Avl(Assign(t, k, v))
  {
    if t.Node? && k != t.key {
      if Less(k, t.key) {
        AssignAvl(t.left, k, v);
      } else {
        AssignAvl(t.right, k, v);
      }
    }
  }

  /** A payload write changes the entry `k` and no other. */
  lemma {:induction false} AssignContents<V>(t: Tree<V>, k: string, v: V)
    requires Ordered(t) && k in Keys(t)
    ensures Contents(Assign(t, k, v)) == Contents(t)[k := v]
  {
    if k == t.key {
      AssignHere(t, v);
    } else if Less(k, t.key) {
      AssignLeft(t, k, v);
      AssignContents(t.left, k, v);
    } else {
      AssignRight(t, k, v);
      AssignContents(t.right, k, v);
    }
  }

  lemma AssignHere<V>(t: Tree<V>, v: V)
    requires t.Node?
    ensures Contents(Assign(t, t.key, v)) == Contents(t)[t.key := v]
  {
    MapReplaceLast(Contents(t.left), Contents(t.right), t.key, t.val, v);
  }

  /** Overwriting the entry that a union adds last. */
  lemma MapReplaceLast<V>(a: map<string, V>, b: map<string, V>, x: string, w: V, v: V)
    ensures a + b + map[x := v] == (a + b + map[x := w])[x := v]
  {
  }

  /** A key below the root lies in the left subtree, and a write there is a write in the whole tree. */
  lemma AssignLeft<V>(t: Tree<V>, k: string, v: V)
    requires t.Node? && Ordered(t) && k in Keys(t) && Less(k, t.key)
    ensures k in Keys(t.left)
    ensures Contents(Assign(t.left, k, v)) == Contents(t.left)[k := v] ==>
      Contents(Assign(t, k, v)) == Contents(t)[k := v]
  {
    LessIrreflexive(k);
    ContentsKeys(t.right);
    assert k !in Keys(t.right) by {
      if k in Keys(t.right) { LessAsymmetric(k, t.key); }
    }
    MapAddLeft(Contents(t.left), Contents(t.right), t.key, t.val, k, v);
  }

  /** A key above the root lies in the right subtree, and a write there is a write in the whole tree. */
  lemma AssignRight<V>(t: Tree<V>, k: string, v: V)
    requires t.Node? && Ordered(t) && k in Keys(t) && k != t.key && !Less(k, t.key)
    ensures k in Keys(t.right)
    ensures Contents(Assign(t.right, k, v)) == Contents(t.right)[k := v] ==>
      Contents(Assign(t, k, v)) == Contents(t)[k := v]
  {
    LessTotal(k, t.key);
    MapAddRight(Contents(t.left), Contents(t.right), t.key, t.val, k, v);
  }

  lemma KeySetJoin<V>(a: seq<(string, V)>, k: string, v: V, b: seq<(string, V)>)
    ensures KeySet(a + [(k, v)] + b) == KeySet(a) + {k} + KeySet(b)
  {
    var s := a + [(k, v)] + b;
    forall x | x in KeySet(s) ensures x in KeySet(a) + {k} + KeySet(b) {
      var i :| 0 <= i < |s| && s[i].0 == x;
      if i < |a| { assert s[i] == a[i]; } else if i > |a| { assert s[i] == b[i - |a| - 1]; }
    }
    forall x | x in KeySet(a) + {k} + KeySet(b) ensures x in KeySet(s) {
      if x in KeySet(a) {
        var i :| 0 <= i < |a| && a[i].0 == x;
        assert s[i] == a[i];
      } else if x in KeySet(b) {
        var i :| 0 <= i < |b| && b[i].0 == x;
        assert s[|a| + 1 + i] == b[i];
      } else {
        assert s[|a|].0 == x;
      }
    }
  }

  /** `qdict_iter_recurse` visits exactly the keys of the tree. */
  lemma {:induction false} InOrderKeys<V>(t: Tree<V>)
    ensures KeySet(InOrder(t)) == Keys(t)
  {
    if t.Node? {
      InOrderKeys(t.left);
      InOrderKeys(t.right);
      KeySetJoin(InOrder(t.left), t.key, t.val, InOrder(t.right));
    }
  }

  /** `qdict_iter_recurse` visits the keys in strictly ascending `strcmp` order. */
  lemma {:induction false} InOrderAscending<V>(t: Tree<V>)
    requires Ordered(t)
    ensures StrictlyAscending(InOrder(t))
  {
    if t.Node? {
      InOrderAscending(t.left);
      InOrderAscending(t.right);
      InOrderKeys(t.left);
      InOrderKeys(t.right);
      AscendingJoin(InOrder(t.left), t.key, t.val, InOrder(t.right));
    }
  }

  /** Two ascending runs, all keys of the first below `k` and all of the second above, joined around `k`. */
  lemma AscendingJoin<V>(sl: seq<(string, V)>, k: string, v: V, sr: seq<(string, V)>)
    requires StrictlyAscending(sl) && StrictlyAscending(sr)
    requires forall x | x in KeySet(sl) :: Less(x, k)
    requires forall x | x in KeySet(sr) :: Less(k, x)
    ensures StrictlyAscending(sl + [(k, v)] + sr)
  {
    var s := sl + [(k, v)] + sr;
    forall i, j | 0 <= i < j < |s| ensures Less(s[i].0, s[j].0) {
      if j < |sl| {
        assert s[i] == sl[i] && s[j] == sl[j];
      } else if i > |sl| {
        assert s[i] == sr[i - |sl| - 1] && s[j] == sr[j - |sl| - 1];
      } else if i == |sl| {
        assert s[j] == sr[j - |sl| - 1];
        assert sr[j - |sl| - 1].0 in KeySet(sr);
      } else if j == |sl| {
        assert s[i] == sl[i];
        assert sl[i].0 in KeySet(sl);
      } else {
        assert s[i] == sl[i] && s[j] == sr[j - |sl| - 1];
        assert sl[i].0 in KeySet(sl);
        assert sr[j - |sl| - 1].0 in KeySet(sr);
        LessTransitive(sl[i].0, k, sr[j - |sl| - 1].0);
      }
    }
  }

  lemma MapLookupLeft<V>(a: map<string, V>, b: map<string, V>, x: string, vx: V, y: string)
    requires y in a && y !in b && y != x
    ensures y in a + b + map[x := vx] && (a + b + map[x := vx])[y] == a[y]
  {
  }

  lemma MapLookupRight<V>(a: map<string, V>, b: map<string, V>, x: string, vx: V, y: string)
    requires y in b && y != x
    ensures y in a + b + map[x := vx] && (a + b + map[x := vx])[y] == b[y]
  {
  }

  /** Each visit hands the callback the payload stored under the visited key. */
  lemma InOrderValues<V>(t: Tree<V>)
    requires Ordered(t)
    ensures forall i | 0 <= i < |InOrder(t)| :: InOrder(t)[i].0 in Contents(t) && Contents(t)[InOrder(t)[i].0] == InOrder(t)[i].1
  {
    forall i | 0 <= i < |InOrder(t)| ensures InOrder(t)[i].0 in Contents(t) && Contents(t)[InOrder(t)[i].0] == InOrder(t)[i].1 {
      InOrderValue(t, i);
    }
  }

  /** The visit at position `i` of the in-order walk. */
  lemma {:induction false} InOrderValue<V>(t: Tree<V>, i: nat)
    requires Ordered(t) && i < |InOrder(t)|
    ensures InOrder(t)[i].0 in Contents(t) && Contents(t)[InOrder(t)[i].0] == InOrder(t)[i].1
  {
    var sl, sr := InOrder(t.left), InOrder(t.right);
    var s := InOrder(t);
    assert s == sl + [(t.key, t.val)] + sr;
    if i < |sl| {
      InOrderValue(t.left, i);
      InOrderKeys(t.left);
      assert s[i] == sl[i];
      assert sl[i].0 in KeySet(sl);
      LeftVisit(t, sl[i].0, sl[i].1);
    } else if i > |sl| {
      InOrderValue(t.right, i - |sl| - 1);
      assert s[i] == sr[i - |sl| - 1];
      RightVisit(t, s[i].0, s[i].1);
    }
  }

  /** An entry of the left subtree is an entry of the tree. */
  lemma LeftVisit<V>(t: Tree<V>, y: string, v: V)
    requires t.Node? && Ordered(t) && y in Keys(t.left)
    requires y in Contents(t.left) && Contents(t.left)[y] == v
    ensures y in Contents(t) && Contents(t)[y] == v
  {
    LessIrreflexive(t.key);
    assert y !in Keys(t.right) by {
      if y in Keys(t.right) { LessAsymmetric(y, t.key); }
    }
    ContentsKeys(t.right);
    MapLookupLeft(Contents(t.left), Contents(t.right), t.key, t.val, y);
  }

  /** An entry of the right subtree is an entry of the tree. */
  lemma RightVisit<V>(t: Tree<V>, y: string, v: V)
    requires t.Node? && Ordered(t)
    requires y in Contents(t.right) && Contents(t.right)[y] == v
    ensures y in Contents(t) && Contents(t)[y] == v
  {
    ContentsKeys(t.right);
    LessIrreflexive(t.key);
    MapLookupRight(Contents(t.left), Contents(t.right), t.key, t.val, y);
  }

  /** The payload of `k`, found by the same descent as `qdict_find`. */
  function Lookup<V>(t: Tree<V>, k: string): (v: V)
    requires Ordered(t) && k in Keys(t)
    ensures k in Contents(t) && Contents(t)[k] == v
  {
    ContentsKeys(t);
    if k == t.key then t.val
    else if Less(k, t.key) then
      LookupLeft(t, k);
      Lookup(t.left, k)
    else
      LookupRight(t, k);
      Lookup(t.right, k)
  }

  lemma LookupLeft<V>(t: Tree<V>, k: string)
    requires t.Node? && Ordered(t) && k in Keys(t) && Less(k, t.key)
    ensures k in Keys(t.left) && k != t.key && k !in Contents(t.right)
  {
    LessIrreflexive(k);
    ContentsKeys(t.right);
    if k in Keys(t.right) {
      LessAsymmetric(k, t.key);
    }
  }

  lemma LookupRight<V>(t: Tree<V>, k: string)
    requires t.Node? && Ordered(t) && k in Keys(t) && k != t.key && !Less(k, t.key)
    ensures k in Keys(t.right)
  {
    LessTotal(k, t.key);
  }

  class Dict<V> {
    const zero: V
    var root: Tree<V>

    ghost predicate Valid()
      reads this
    {
      Avl(root)
    }

    /** The entries, as a map from key to payload. */
    function Entries(): map<string, V>
      reads this
    {
      Contents(root)
    }

    /** `qdict_new`: an empty dictionary whose payloads start as `zero`. */
    constructor (zero: V)
      ensures Valid() && Entries() == map[] && this.zero == zero
    {
      this.zero := zero;
      root := Nil;
    }

    /**
     * `qdict_find`: searches for `key`. A present key yields its payload when
     * the FIND flag is set and NULL otherwise, and changes nothing; an absent
     * key is inserted with a zero payload when the ADD flag is set (yielding
     * that payload), and otherwise NULL is returned.
     */
    method Find(key: string, mode: nat) returns (p: Ptr)
      requires Valid()
      modifies this
      ensures Valid()
      ensures key in old(Entries()) ==>
        Entries() == old(Entries()) && p == (if HasFind(mode) then Payload(key) else Null)
      ensures key !in old(Entries()) && HasAdd(mode) ==>
        Entries() == old(Entries())[key := zero] && p == Payload(key)
      ensures key !in old(Entries()) && !HasAdd(mode) ==>
        Entries() == old(Entries()) && p == Null
    {
      ContentsKeys(root);
      var t := root;
      while t.Node? && t.key != key
        invariant root == old(root)
        invariant Ordered(t)
        invariant key in Keys(root) <==> key in Keys(t)
        decreases t
      {
        if Less(key, t.key) {
          if key in Keys(t.right) { LessAsymmetric(key, t.key); }
          t := t.left;
        } else {
          t := t.right;
        }
      }
      if t.Node? {
        p := if HasFind(mode) then Payload(key) else Null;
        return;
      }
      if !HasAdd(mode) {
        p := Null;
        return;
      }
      root := Insert(root, key, zero);
      p := Payload(key);
    }

    /** Stores `v` through a pointer returned by `Find` (`*p = v`). */
    method Store(p: Ptr, v: V)
      requires Valid() && p.Payload? && p.key in Entries()
      modifies this
      ensures Valid()
      ensures Entries() == old(Entries())[p.key := v]
    {
      ContentsKeys(root);
      AssignAvl(root, p.key, v);
      AssignContents(root, p.key, v);
      root := Assign(root, p.key, v);
    }

    /** Reads the payload behind a pointer returned by `Find` (`*p`). */
    function Get(p: Ptr): (v: V)
      requires Valid() && p.Payload? && p.key in Entries()
      reads this
      ensures v == Entries()[p.key]
    {
      ContentsKeys(root);
      Lookup(root, p.key)
    }

    /** `qdict_iter`: the entries in visiting order. */
    function Iter(): (visits: seq<(string, V)>)
      requires Valid()
      reads this
      ensures StrictlyAscending(visits)
      ensures KeySet(visits) == Entries().Keys
      ensures forall i | 0 <= i < |visits| :: visits[i].0 in Entries() && Entries()[visits[i].0] == visits[i].1
    {
      InOrderAscending(root);
      InOrderKeys(root);
      InOrderValues(root);
      ContentsKeys(root);
      InOrder(root)
    }
  }
}
