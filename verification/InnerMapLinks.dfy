/** The heap side of `InnerMap`: nodes linked to lists, the trees that pairs of buckets
    share, and the array of pointers to both, as a mirror of a table value. */
module InnerMapLinks {
  import opened InnerMapSpec
  import opened InnerMapOrder

  /** `std::set` of the nodes of a pair of buckets, by its contract. */
  class Tree<K, V> {
    ghost const pair: nat
    var items: seq<Node<K, V>>

    constructor (ghost pair: nat)
      ensures this.pair == pair && items == []
    {
      this.pair, items := pair, [];
    }

    method Insert(less: (K, K) -> bool, n: Node<K, V>)
      modifies this
      ensures items == TreeAdd(less, old(items), n)
    {
      items := TreeAdd(less, items, n);
    }

    method Erase(n: Node<K, V>)
      modifies this
      ensures items == Without(old(items), n)
    {
      items := Without(items, n);
    }
  }

  // ---------- The next links ----------

  /** The nodes of a list, each linked to the next one and the last to none. */
  ghost predicate Chained<K, V>(ns: seq<Node<K, V>>)
    reads ns
  {
    forall i | 0 <= i < |ns| :: ns[i].next == At(ns, i + 1)
  }

  /** The nodes of a tree: none of them is linked. */
  ghost predicate Loose<K, V>(ns: seq<Node<K, V>>)
    reads ns
  {
    forall n | n in ns :: n.next == null
  }

  ghost predicate LinkOk<K, V>(v: Bucket<K, V>)
    reads v.Nodes()
  {
    match v
    case Empty => true
    case Chain(ns) => Chained(ns)
    case Shared(ns) => Loose(ns)
  }

  /** The links of a bucket are right, and its nodes are among `nodes`. */
  ghost predicate LinkedIn<K, V>(v: Bucket<K, V>, nodes: set<Node<K, V>>)
    reads nodes
  {
    (forall n | n in v.Nodes() :: n in nodes) && LinkOk(v)
  }

  /** From bucket `from` on, all links are right. */
  ghost predicate Strung<K, V>(view: Table<K, V>, from: nat, nodes: set<Node<K, V>>)
    reads nodes
  {
    forall b: nat | from <= b < |view| :: LinkedIn(view[b], nodes)
  }

  /** Every one of `nodes` is in the map. */
  ghost predicate Tracks<K, V>(nodes: set<Node<K, V>>, m: map<K, Node<K, V>>) {
    forall n | n in nodes :: n.key in m && m[n.key] == n
  }

  lemma StrungAt<K, V>(view: Table<K, V>, from: nat, nodes: set<Node<K, V>>, b: nat)
    requires Strung(view, from, nodes) && from <= b < |view|
    ensures LinkOk(view[b]) && forall n | n in view[b].Nodes() :: n in nodes
  {}

  /** All buckets but `b` and, for a pair, its sibling, in terms of `nodes` only. */
  ghost predicate StrungBut<K, V>(view: Table<K, V>, b: nat, pair: bool, nodes: set<Node<K, V>>)
    reads nodes
  {
    forall c: nat | c < |view| && c != b && !(pair && c == Sibling(b)) :: LinkedIn(view[c], nodes)
  }

  ghost function NodeSet<K, V>(ns: seq<Node<K, V>>): set<Node<K, V>> {
    set n | n in ns
  }

  lemma StrungPush<K, V>(view: Table<K, V>, nodes: set<Node<K, V>>, b: nat, node: Node<K, V>)
    requires Strung(view, 0, nodes) && b < |view| && Chained([node] + view[b].Nodes())
    ensures Strung(PushFront(view, b, node), 0, nodes + {node})
  {
    hide Chained, LinkOk;
    var view' := PushFront(view, b, node);
    ChainLinks([node] + view[b].Nodes());
    forall c: nat | c < |view'| ensures LinkedIn(view'[c], nodes + {node}) {
      assert LinkedIn(view[c], nodes);
    }
  }

  lemma StrungAdd<K, V>(less: (K, K) -> bool, view: Table<K, V>, nodes: set<Node<K, V>>, b: nat, node: Node<K, V>)
    requires Strung(view, 0, nodes) && b < |view| && Sibling(b) < |view| && view[b].Shared? && node.next == null
    ensures Strung(AddToTree(less, view, b, node), 0, nodes + {node})
  {
    hide Sibling;
    var view', tree' := AddToTree(less, view, b, node), TreeAdd(less, view[b].tree, node);
    assert LinkedIn(view[b], nodes);
    TreeAddNodes(less, view[b].tree, node);
    TreeLinks(view[b]);
    forall n | n in tree' ensures n.next == null && n in nodes + {node} {
      assert n == node || n in view[b].tree;
    }
    LooseLinks(tree');
    hide LinkOk;
    forall c: nat | c < |view'| ensures LinkedIn(view'[c], nodes + {node}) {
      assert LinkedIn(view[c], nodes);
    }
  }

  /** The other buckets depend on no node of a bucket, or of the lists of a pair. */
  lemma OthersStrung<K, V>(view: Table<K, V>, hash: K -> nat, m: map<K, Node<K, V>>, nodes: set<Node<K, V>>, b: nat,
      pair: bool)
    requires Represents(view, hash, m) && Strung(view, 0, nodes) && b < |view| && Sibling(b) < |view| && Sibling(b) != b
    requires view[b].Shared? ==> pair
    ensures StrungBut(view, b, pair, nodes - NodeSet(view[b].Nodes())
      - if pair then NodeSet(view[Sibling(b)].Nodes()) else {})
  {
    hide Represents, LinkOk;
    forall c: nat | c < |view| && c != b && !(pair && c == Sibling(b))
      ensures LinkedIn(view[c], nodes - NodeSet(view[b].Nodes())
        - if pair then NodeSet(view[Sibling(b)].Nodes()) else {})
    {
      assert LinkedIn(view[c], nodes);
      NodesApart(view, hash, m, b, c);
      if pair {
        NodesApart(view, hash, m, Sibling(b), c);
      }
    }
  }

  /** The other buckets and the new contents of a pair. */
  lemma StrungPair<K, V>(view: Table<K, V>, b: nat, v: Bucket<K, V>, others: set<Node<K, V>>, nodes: set<Node<K, V>>)
    requires b < |view| && Sibling(b) < |view| && StrungBut(view, b, true, others) && others <= nodes
    requires LinkOk(v) && forall n | n in v.Nodes() :: n in nodes
    ensures Strung(SetPair(view, b, v), 0, nodes)
  {
    hide LinkOk, Sibling;
    var view' := SetPair(view, b, v);
    forall c: nat | c < |view'| ensures LinkedIn(view'[c], nodes) {
      if c != b && c != Sibling(b) {
        assert LinkedIn(view[c], others);
      }
    }
  }

  lemma StrungOne<K, V>(view: Table<K, V>, b: nat, v: Bucket<K, V>, others: set<Node<K, V>>, nodes: set<Node<K, V>>)
    requires b < |view| && StrungBut(view, b, false, others) && others <= nodes
    requires LinkOk(v) && forall n | n in v.Nodes() :: n in nodes
    ensures Strung(view[b := v], 0, nodes)
  {
    hide LinkOk, Sibling;
    var view' := view[b := v];
    forall c: nat | c < |view'| ensures LinkedIn(view'[c], nodes) {
      if c != b {
        assert LinkedIn(view[c], others);
      }
    }
  }

  /** No node is in two buckets that do not share a tree. */
  lemma NodesApart<K, V>(t: Table<K, V>, hash: K -> nat, m: map<K, Node<K, V>>, b: nat, c: nat)
    requires Represents(t, hash, m) && b < |t| && c < |t|
    requires b != c && !(t[b].Shared? && c == Sibling(b))
    ensures forall n | n in t[b].Nodes() :: n !in t[c].Nodes()
  {
    hide Home, IsPowerOfTwo;
    SiblingFacts(t, b);
    SiblingFacts(t, c);
    assert BucketOk(t, hash, m, b) && BucketOk(t, hash, m, c) && ShapeOk(t, b) && ShapeOk(t, c);
    forall n | n in t[b].Nodes() && n in t[c].Nodes() ensures false {
      assert BelongsAt(t, hash, b, n.key) && BelongsAt(t, hash, c, n.key);
      HomeInPair(t, hash, b, n.key);
      HomeInPair(t, hash, c, n.key);
    }
  }

  /** `std::set::find`. */
  method TreeFind<K(==), V>(tree: Tree<K, V>, k: K) returns (node: Node?<K, V>)
    ensures node != null ==> node in tree.items && node.key == k
    ensures node == null ==> forall n | n in tree.items :: n.key != k
  {
    node := null;
    for i := 0 to |tree.items|
      invariant node == null && forall j | 0 <= j < i :: tree.items[j].key != k
    {
      if tree.items[i].key == k {
        node := tree.items[i];
        return;
      }
    }
  }

  /** What the code finds behind a bucket with no tree. */
  lemma ListAt<K, V>(table: array<Slot<K, V>>, view: Table<K, V>, trees: set<Tree<K, V>>, hash: K -> nat,
      m: map<K, Node<K, V>>, from: nat, nodes: set<Node<K, V>>, b: nat)
    requires Mirrors(table, view, trees) && Represents(view, hash, m) && Strung(view, from, nodes)
    requires from <= b < |view| && !view[b].Shared?
    ensures b < table.Length && HeadOf(table[b]) == At(view[b].Nodes(), 0)
    ensures Chained(view[b].Nodes()) && DistinctKeys(view[b].Nodes())
    ensures forall n | n in view[b].Nodes() :: n in nodes
  {
    StrungAt(view, from, nodes, b);
    assert SlotOk(table, view, trees, b) && BucketOk(view, hash, m, b);
  }

  /** Follows the links from the head. */
  method ListFind<K(==), V>(head: Node<K, V>, k: K, ghost ns: seq<Node<K, V>>) returns (node: Node?<K, V>)
    requires ns != [] && head == ns[0] && Chained(ns)
    ensures node != null ==> node in ns && node.key == k
    ensures node == null ==> forall n | n in ns :: n.key != k
  {
    node := head;
    ghost var i := 0;
    while node != null
      invariant 0 <= i <= |ns| && node == At(ns, i) && forall j | 0 <= j < i :: ns[j].key != k
      decreases |ns| - i
    {
      if node.key == k {
        return;
      }
      node := node.next;
      i := i + 1;
    }
  }

  /** Whether a node is in a list behind the head. */
  method IsBehind<K, V>(node: Node<K, V>, head: Node<K, V>, ghost ns: seq<Node<K, V>>) returns (found: bool)
    requires ns != [] && head == ns[0] && Chained(ns)
    ensures found <==> node in ns[1..]
  {
    var l := head.next;
    ghost var i := 1;
    while l != null
      invariant 1 <= i <= |ns| && l == At(ns, i) && node !in ns[1..i]
      decreases |ns| - i
    {
      if l == node {
        assert ns[1..][i - 1] == node;
        return true;
      }
      l := l.next;
      i := i + 1;
    }
    return false;
  }

  /** Puts a node in front of a list. */
  method LinkFront<K, V>(node: Node<K, V>, head: Node?<K, V>, ghost ns: seq<Node<K, V>>)
    requires head == At(ns, 0) && Chained(ns) && node !in ns
    modifies node
    ensures Chained([node] + ns)
  {
    node.next := head;
  }

  /** Takes a node out of a list; returns the new head. */
  method EraseFromLinkedList<K, V>(item: Node<K, V>, head: Node<K, V>,
      ghost ns: seq<Node<K, V>>) returns (rest: Node?<K, V>)
    requires ns != [] && head == ns[0] && Chained(ns) && item in ns && DistinctKeys(ns)
    modifies ns
    ensures Chained(Without(ns, item)) && rest == At(Without(ns, item), 0)
    decreases |ns|
  {
    ChainedTail(ns);
    if head == item {
      return head.next;
    } else {
      var next: Node<K, V> := head.next;
      HeadIsNew(ns);
      WithoutNodes(ns[1..], item);
      head.next := EraseFromLinkedList(item, next, ns[1..]);
      ChainedCons(head, Without(ns[1..], item));
      return head;
    }
  }

  lemma ChainedTail<K, V>(ns: seq<Node<K, V>>)
    requires ns != [] && Chained(ns)
    ensures Chained(ns[1..]) && ns[0].next == At(ns[1..], 0)
    ensures ns == [ns[0]] + ns[1..]
  {
    forall i | 0 <= i < |ns[1..]| ensures ns[1..][i].next == At(ns[1..], i + 1) {
      assert ns[i + 1].next == At(ns, i + 2);
    }
    assert ns[0].next == At(ns, 1);
  }

  lemma ChainedCons<K, V>(n: Node<K, V>, ns: seq<Node<K, V>>)
    requires Chained(ns) && n.next == At(ns, 0)
    ensures Chained([n] + ns)
  {
    forall i | 0 <= i < |[n] + ns| ensures ([n] + ns)[i].next == At([n] + ns, i + 1) {
      if i > 0 {
        assert ns[i - 1].next == At(ns, i);
      }
    }
  }

  // ---------- Buckets ----------

  /** What a bucket of the array holds: the head of a list, or a tree. */
  datatype Slot<K, V> = Null | List(head: Node<K, V>) | TreeRef(tree: Tree<K, V>)

  /** Whether two buckets hold the same pointer. */
  predicate SamePointer<K, V>(x: Slot<K, V>, y: Slot<K, V>) {
    match x
    case Null => y.Null?
    case List(head) => y.List? && y.head == head
    case TreeRef(tree) => y.TreeRef? && y.tree == tree
  }

  /** The first node of the list, if it is a list. */
  function HeadOf<K, V>(slot: Slot<K, V>): Node?<K, V> {
    if slot.List? then slot.head else null
  }

  predicate IsNonEmptyList<K, V>(table: array<Slot<K, V>>, b: nat)
    requires b < table.Length && Sibling(b) < table.Length
    reads table
  {
    !table[b].Null? && !SamePointer(table[b], table[Sibling(b)])
  }

  predicate IsTree<K, V>(table: array<Slot<K, V>>, b: nat)
    requires b < table.Length && Sibling(b) < table.Length
    reads table
  {
    !table[b].Null? && !IsNonEmptyList(table, b)
  }

  // ---------- The array mirrors a table value ----------

  ghost predicate SlotOk<K, V>(table: array<Slot<K, V>>, view: Table<K, V>, trees: set<Tree<K, V>>, b: nat)
    requires b < table.Length == |view|
    reads table, trees
  {
    match table[b]
    case Null => view[b].Empty?
    case List(head) => view[b].Chain? && view[b].list != [] && view[b].list[0] == head
    case TreeRef(tree) =>
      && tree in trees && tree.pair == Even(b) && view[b] == Shared(tree.items)
      && Sibling(b) < table.Length && table[Sibling(b)] == table[b]
  }

  ghost predicate Mirrors<K, V>(table: array<Slot<K, V>>, view: Table<K, V>, trees: set<Tree<K, V>>)
    reads table, trees
  {
    table.Length == |view| && forall b: nat | b < |view| :: SlotOk(table, view, trees, b)
  }

  /** The pointer comparisons tell lists from trees in every reachable table. */
  lemma PointerTest<K, V>(table: array<Slot<K, V>>, view: Table<K, V>, trees: set<Tree<K, V>>, hash: K -> nat,
      m: map<K, Node<K, V>>, b: nat)
    requires Mirrors(table, view, trees) && Represents(view, hash, m) && b < |view|
    ensures table.Length == |view| && Sibling(b) < |view|
    ensures table[b].Null? <==> view[b].Empty?
    ensures IsNonEmptyList(table, b) <==> view[b].Chain?
    ensures IsTree(table, b) <==> view[b].Shared?
    ensures table[b].List? ==> view[b].Chain? && view[b].list != [] && view[b].list[0] == table[b].head
    ensures table[b].TreeRef? ==> table[b].tree in trees && view[b] == Shared(table[b].tree.items)
  {
    SiblingFacts(view, b);
    var c := Sibling(b);
    assert SlotOk(table, view, trees, b) && SlotOk(table, view, trees, c);
    assert ShapeOk(view, b) && ShapeOk(view, c);
    if view[b].Chain? && view[c].Chain? {
      HeadsDiffer(view, hash, m, b);
    }
  }

  lemma HeadsDiffer<K, V>(t: Table<K, V>, hash: K -> nat, m: map<K, Node<K, V>>, b: nat)
    requires Represents(t, hash, m) && b < |t| && Sibling(b) < |t|
    requires t[b].Chain? && t[Sibling(b)].Chain? && t[b].list != [] && t[Sibling(b)].list != []
    ensures t[b].list[0] != t[Sibling(b)].list[0]
  {
    hide Home, IsPowerOfTwo;
    SiblingFacts(t, b);
    var c := Sibling(b);
    assert BucketOk(t, hash, m, b) && BucketOk(t, hash, m, c);
    var x, y := t[b].list[0], t[c].list[0];
    assert x in t[b].Nodes() && y in t[c].Nodes();
    assert BelongsAt(t, hash, b, x.key) && BelongsAt(t, hash, c, y.key);
  }

  // ---------- Changes to the array ----------

  lemma SamePair(b: nat, c: nat)
    ensures Even(b) == Even(c) <==> c == b || c == Sibling(b)
    ensures Sibling(b) != b && Sibling(Sibling(b)) == b
  {}

  // ---------- Facts for the operations ----------

  function IndexOf<K, V>(ns: seq<Node<K, V>>, n: Node<K, V>): (i: nat)
    requires n in ns
    ensures i < |ns| && ns[i] == n
  {
    if ns[0] == n then 0 else 1 + IndexOf(ns[1..], n)
  }

  lemma AtIs<K, V>(ns: seq<Node<K, V>>, p: nat)
    ensures At(ns, p) == if p < |ns| then ns[p] else null
  {}

  lemma ChainAt<K, V>(ns: seq<Node<K, V>>, j: nat)
    requires Chained(ns) && j < |ns|
    ensures if ns[j].next == null then j + 1 == |ns| else j + 1 < |ns| && ns[j + 1] == ns[j].next
  {}

  lemma AfterIs<K, V>(t: Table<K, V>, b: nat)
    requires b < |t|
    ensures After(t, b) == if t[b].Shared? then b + 2 else b + 1
  {}

  /** A node that is in a list is in its place; a search finds no other bucket. */
  lemma InPlace<K, V>(t: Table<K, V>, hash: K -> nat, m: map<K, Node<K, V>>, b: nat, n: Node<K, V>)
    requires Represents(t, hash, m) && b < |t|
    ensures t[b].Chain? && n in t[b].Nodes() ==> Home(|t|, hash, n.key) == b
  {
    hide Home, IsPowerOfTwo;
    assert BucketOk(t, hash, m, b);
    if t[b].Chain? && n in t[b].Nodes() {
      assert BelongsAt(t, hash, b, n.key);
    }
  }

  /** A shared place is the even bucket of its pair. */
  lemma PlaceEven<K, V>(t: Table<K, V>, hash: K -> nat, m: map<K, Node<K, V>>, b: nat, n: Node<K, V>)
    requires Represents(t, hash, m) && b < |t|
    requires b == if t[Home(|t|, hash, n.key)].Shared? then Even(Home(|t|, hash, n.key)) else Home(|t|, hash, n.key)
    ensures t[b].Shared? ==> b % 2 == 0
    ensures Boundary(t, b) && Even(b) <= b
  {
    ShapeAt(t, hash, m, Home(|t|, hash, n.key));
    hide Home;
  }

  /** Erasing empties no bucket before the first and, unless at the first, not the first. */
  lemma ErasedFirst<K, V>(t: Table<K, V>, hash: K -> nat, m: map<K, Node<K, V>>, first: nat, b: nat, n: Node<K, V>)
    requires Represents(t, hash, m) && IsFirst(t, first) && b < |t| && n in t[b].Nodes()
    requires t[b].Shared? ==> b % 2 == 0
    ensures Sibling(b) < |t| && |Erased(t, b, n)| == |t|
    ensures forall c: nat | c < first :: Erased(t, b, n)[c].Empty?
    ensures b != first ==> IsFirst(Erased(t, b, n), first)
  {
    SiblingFacts(t, b);
    ShapeAt(t, hash, m, b);
    hide Represents, Without;
  }

  lemma PresentAt<K, V>(t: Table<K, V>, hash: K -> nat, m: map<K, Node<K, V>>, b: nat, n: Node<K, V>)
    requires Represents(t, hash, m) && b < |t| && n in t[b].Nodes()
    ensures n.key in m && m[n.key] == n
  {
    assert BucketOk(t, hash, m, b);
  }

  lemma FirstOf<K, V>(t: Table<K, V>, first: nat)
    requires IsFirst(t, first)
    ensures first <= |t|
  {}

  /** Empty buckets add nothing to the order. */
  lemma {:induction false} OrderFromFirst<K, V>(t: Table<K, V>, b: nat, first: nat)
    requires b <= first && IsFirst(t, first)
    ensures OrderFrom(t, b) == OrderFrom(t, first)
    decreases first - b
  {
    if b < first {
      OrderFromFirst(t, b + 1, first);
      OrderStep(t, b);
    }
  }

  lemma BelongsHome<K, V>(t: Table<K, V>, hash: K -> nat, k: K)
    requires |t| > 0
    ensures BelongsAt(t, hash, Home(|t|, hash, k), k)
  {}

  lemma BelongsMeans<K, V>(t: Table<K, V>, hash: K -> nat, b: nat, k: K)
    requires b < |t| && BelongsAt(t, hash, b, k)
    ensures t[b].Shared? ==> Even(Home(|t|, hash, k)) == Even(b)
    ensures !t[b].Shared? ==> Home(|t|, hash, k) == b
  {}

  /** The bucket that a search returns is one where the key belongs. */
  lemma PlaceBelongs<K, V>(t: Table<K, V>, hash: K -> nat, m: map<K, Node<K, V>>, k: K, b: nat)
    requires Represents(t, hash, m)
    requires b == if t[Home(|t|, hash, k)].Shared? then Even(Home(|t|, hash, k)) else Home(|t|, hash, k)
    ensures b < |t| && BelongsAt(t, hash, b, k)
  {
    var h := Home(|t|, hash, k);
    hide Home;
    ShapeAt(t, hash, m, h);
    hide Represents;
    EvenAgain(h);
    hide Even;
  }

  lemma EvenAgain(h: nat)
    ensures Even(h) <= h && Even(Even(h)) == Even(h)
  {}

  lemma AddedShape<K, V>(less: (K, K) -> bool, t: Table<K, V>, b: nat, n: Node<K, V>)
    requires b < |t| && Sibling(b) < |t|
    ensures |AddToTree(less, t, b, n)| == |t| && AddToTree(less, t, b, n)[b].Shared?
  {}

  /** Where the first bucket is after an insertion. */
  lemma FirstAfter<K, V>(less: (K, K) -> bool, t: Table<K, V>, first: nat, b: nat, n: Node<K, V>)
    requires b < |t| && |t| % 2 == 0 && Sibling(b) < |t| && IsFirst(t, first)
    requires t[b].Shared? ==> Even(b) < |t| && t[Even(b)] == t[b]
    ensures t[b].Empty? ==> IsFirst(PushFront(t, b, n), Min(first, b))
    ensures t[b].Chain? ==> IsFirst(PushFront(t, b, n), first)
    ensures t[b].Chain? ==> IsFirst(AddToTree(less, Convert(less, t, b), b, n), Min(first, Even(b)))
    ensures t[b].Shared? ==> IsFirst(AddToTree(less, t, b, n), first)
  {
    hide TreeAdd, TreeAddAll, Sibling;
    FirstOfOne(t, first, b, Chain([n] + t[b].Nodes()));
    var converted := Convert(less, t, b);
    FirstOfPair(t, first, b, converted[b]);
    FirstOfPair(converted, Min(first, Even(b)), b, Shared(TreeAdd(less, converted[b].Nodes(), n)));
    FirstOfPair(t, first, b, Shared(TreeAdd(less, t[b].Nodes(), n)));
  }

  /** What an insertion does to the table, case by case. */
  lemma InsertedCases<K, V>(less: (K, K) -> bool, t: Table<K, V>, first: nat, b: nat, n: Node<K, V>)
    requires b < |t| && |t| % 2 == 0 && Sibling(b) < |t| && IsFirst(t, first)
    requires t[b].Shared? ==> Even(b) < |t| && t[Even(b)] == t[b]
    ensures var t' := Inserted(less, t, b, n);
      && |t'| == |t|
      && (t[b].Empty? ==> t' == PushFront(t, b, n) && !t'[b].Shared? && IsFirst(t', Min(first, b)))
      && (t[b].Chain? && |t[b].list| < MAX_LENGTH ==> t' == PushFront(t, b, n) && !t'[b].Shared? && IsFirst(t', first))
      && (t[b].Chain? && |t[b].list| >= MAX_LENGTH ==>
        t' == AddToTree(less, Convert(less, t, b), b, n) && t'[b].Shared? && IsFirst(t', Min(first, Even(b))))
      && (t[b].Shared? ==> t' == AddToTree(less, t, b, n) && t'[b].Shared? && IsFirst(t', first))
  {
    FirstAfter(less, t, first, b, n);
    AddedShape(less, t, b, n);
    ConvertSize(less, t, b);
    AddedShape(less, Convert(less, t, b), b, n);
    hide Sibling, Even, IsFirst, Convert, AddToTree;
  }

  lemma OneAhead<K, V>(m: map<K, Node<K, V>>, ns: seq<Node<K, V>>)
    requires ns != [] && DistinctKeys(ns)
    ensures WithNodes(m, ns) == WithNodes(m[ns[0].key := ns[0]], ns[1..])
    ensures DistinctKeys(ns[1..]) && forall n | n in ns[1..] :: n in ns && n != ns[0] && n.key != ns[0].key
  {
    HeadIsNew(ns);
  }

  lemma NoneAhead<K, V>(m: map<K, Node<K, V>>)
    ensures WithNodes(m, []) == m
  {}

  lemma BoundaryWithin<K, V>(t: Table<K, V>, b: nat)
    requires Boundary(t, b)
    ensures b <= |t|
  {}

  lemma EmptyMirrors<K, V>(table: array<Slot<K, V>>, view: Table<K, V>)
    requires table.Length == |view| && forall b: nat | b < |view| :: table[b] == Null && view[b] == Empty
    ensures Mirrors(table, view, {})
  {}

  lemma SizeFacts<K, V>(table: array<Slot<K, V>>, view: Table<K, V>, trees: set<Tree<K, V>>, hash: K -> nat,
      m: map<K, Node<K, V>>)
    requires Mirrors(table, view, trees) && Represents(view, hash, m)
    ensures table.Length == |view| >= MIN_TABLE_SIZE && IsPowerOfTwo(|view|)
  {}

  lemma NotAmong<K, V>(ns: seq<Node<K, V>>, node: Node<K, V>, nodes: set<Node<K, V>>)
    requires node !in nodes && forall n | n in ns :: n in nodes
    ensures node !in ns
  {}

  lemma NotInSet<K, V>(x: seq<Node<K, V>>, y: seq<Node<K, V>>, nodes: set<Node<K, V>>)
    ensures forall n | n in nodes - NodeSet(x) - NodeSet(y) :: n in nodes && n !in x && n !in y
    ensures nodes - NodeSet(x) - NodeSet(y) <= nodes
  {}

  lemma NotInRest<K, V>(ns: seq<Node<K, V>>, rest: set<Node<K, V>>)
    ensures forall n | n in rest - NodeSet(ns) :: n in rest && n !in ns
    ensures rest - NodeSet(ns) <= rest
  {}

  /** The buckets from the next boundary on depend on no node of this one. */
  lemma StrungAfter<K, V>(t: Table<K, V>, hash: K -> nat, m: map<K, Node<K, V>>, i: nat, rest: set<Node<K, V>>)
    requires Represents(t, hash, m) && i < |t| && Boundary(t, i) && Strung(t, i, rest)
    ensures Strung(t, After(t, i), rest - NodeSet(t[i].Nodes()))
  {
    hide Represents, LinkOk;
    forall c: nat | After(t, i) <= c < |t| ensures LinkedIn(t[c], rest - NodeSet(t[i].Nodes())) {
      assert LinkedIn(t[c], rest);
      NodesApart(t, hash, m, i, c);
    }
  }

  lemma BucketAt<K, V>(t: Table<K, V>, hash: K -> nat, m: map<K, Node<K, V>>, b: nat)
    requires Represents(t, hash, m) && b < |t|
    ensures DistinctKeys(t[b].Nodes()) && forall n | n in t[b].Nodes() :: n.key in m && m[n.key] == n
  {
    assert BucketOk(t, hash, m, b);
  }

  lemma PairShared<K, V>(t: Table<K, V>, hash: K -> nat, m: map<K, Node<K, V>>, b: nat)
    requires Represents(t, hash, m) && b < |t| && t[b].Shared?
    ensures Sibling(b) < |t| && Sibling(b) != b && t[Sibling(b)] == t[b]
  {
    SiblingFacts(t, b);
    ShapeAt(t, hash, m, b);
  }

  lemma WithoutAmong<K, V>(ns: seq<Node<K, V>>, node: Node<K, V>, nodes: set<Node<K, V>>)
    requires DistinctKeys(ns) && forall n | n in ns :: n in nodes
    ensures forall n | n in Without(ns, node) :: n in nodes - {node}
  {
    WithoutNodes(ns, node);
  }

  lemma TracksMore<K, V>(nodes: set<Node<K, V>>, m: map<K, Node<K, V>>, node: Node<K, V>)
    requires Tracks(nodes, m) && node.key !in m
    ensures Tracks(nodes + {node}, m[node.key := node])
  {}

  lemma TracksLess<K, V>(nodes: set<Node<K, V>>, m: map<K, Node<K, V>>, node: Node<K, V>)
    requires Tracks(nodes, m) && node.key in m && m[node.key] == node
    ensures Tracks(nodes - {node}, m - {node.key})
  {}

  lemma LooseWithout<K, V>(v: Bucket<K, V>, node: Node<K, V>)
    requires LinkOk(v) && v.Shared?
    ensures Loose(Without(v.Nodes(), node))
  {
    WithoutWithin(v.tree, node);
  }

  lemma WithoutWithin<K, V>(ns: seq<Node<K, V>>, node: Node<K, V>)
    ensures forall n | n in Without(ns, node) :: n in ns
  {}

  lemma ErasedList<K, V>(t: Table<K, V>, b: nat, n: Node<K, V>)
    requires b < |t| && Sibling(b) < |t| && t[b].Chain?
    ensures Erased(t, b, n) == t[b := ListOf(Without(t[b].Nodes(), n))] && |Erased(t, b, n)| == |t|
  {}

  lemma ErasedTree<K, V>(t: Table<K, V>, b: nat, n: Node<K, V>)
    requires b < |t| && Sibling(b) < |t| && t[b].Shared?
    ensures Erased(t, b, n) == SetPair(t, b, TreeOf(Without(t[b].Nodes(), n))) && |Erased(t, b, n)| == |t|
  {}

  /** Only that node is gone, and the others keep their order. */
  lemma {:induction false} WithoutParts<K, V>(ns: seq<Node<K, V>>, n: Node<K, V>) returns (i: nat)
    requires n in ns
    ensures i < |ns| && ns[i] == n && Without(ns, n) == ns[..i] + ns[i + 1..]
    decreases |ns|
  {
    if ns[0] == n {
      i := 0;
    } else {
      i := WithoutParts(ns[1..], n);
      assert [ns[0]] + ns[1..][..i] == ns[..i + 1] && ns[1..][i + 1..] == ns[i + 2..];
      i := i + 1;
    }
  }

  lemma ErasedAt<K, V>(t: Table<K, V>, b: nat, n: Node<K, V>)
    requires b < |t| && Sibling(b) < |t| && t[b].Chain? && n in t[b].Nodes()
    ensures exists i | 0 <= i < |t[b].list| && t[b].list[i] == n ::
      Erased(t, b, n)[b].Nodes() == t[b].list[..i] + t[b].list[i + 1..]
  {
    var i := WithoutParts(t[b].list, n);
  }

  lemma AddedTree<K, V>(less: (K, K) -> bool, t: Table<K, V>, b: nat, n: Node<K, V>)
    requires b < |t| && Sibling(b) < |t| && t[b].Shared?
    ensures |AddToTree(less, t, b, n)| == |t| && AddToTree(less, t, b, n)[b].Shared?
    ensures multiset(AddToTree(less, t, b, n)[b].tree) == multiset(t[b].tree) + multiset{n}
  {
    TreeAddMultiset(less, t[b].tree, n);
  }

  lemma ConvertedTree<K, V>(less: (K, K) -> bool, t: Table<K, V>, b: nat)
    requires b < |t| && Sibling(b) < |t|
    ensures var t' := Convert(less, t, b);
      && |t'| == |t| && t'[b].Shared? && t'[Sibling(b)] == t'[b]
      && multiset(t'[b].tree) == multiset(t[b].Nodes()) + multiset(t[Sibling(b)].Nodes())
  {
    TreeAddAllMultiset(less, [], t[b].Nodes() + t[Sibling(b)].Nodes());
    hide TreeAddAll;
  }

  lemma ListOfLinks<K, V>(ns: seq<Node<K, V>>)
    requires Chained(ns)
    ensures LinkOk(ListOf(ns)) && ListOf(ns).Nodes() == ns
  {}

  lemma TreeOfLinks<K, V>(ns: seq<Node<K, V>>)
    requires Loose(ns)
    ensures LinkOk(TreeOf(ns)) && TreeOf(ns).Nodes() == ns
  {}

  lemma SomeNodes<K, V>(v: Bucket<K, V>)
    requires v.Nodes() != []
    ensures v.Chain? || v.Shared?
  {}

  lemma PushIs<K, V>(view: Table<K, V>, b: nat, node: Node<K, V>)
    requires b < |view|
    ensures PushFront(view, b, node) == view[b := Chain([node] + view[b].Nodes())]
  {}

  lemma ConvertIs<K, V>(less: (K, K) -> bool, view: Table<K, V>, b: nat)
    requires b < |view| && Sibling(b) < |view|
    ensures Convert(less, view, b) ==
      SetPair(view, b, Shared(TreeAddAll(less, [], view[b].Nodes() + view[Sibling(b)].Nodes())))
    ensures |Convert(less, view, b)| == |view|
  {}

  lemma ChainLinks<K, V>(ns: seq<Node<K, V>>)
    requires Chained(ns)
    ensures LinkOk(Chain(ns))
  {}

  lemma TreeLinks<K, V>(v: Bucket<K, V>)
    requires LinkOk(v) && v.Shared?
    ensures forall n | n in v.tree :: n.next == null
  {}

  lemma LooseLinks<K, V>(ns: seq<Node<K, V>>)
    requires Loose(ns)
    ensures LinkOk(Shared(ns)) && Shared(ns).Nodes() == ns
  {}

  /** The keys of both lists of a pair are different. */
  lemma PairDistinct<K, V>(t: Table<K, V>, hash: K -> nat, m: map<K, Node<K, V>>, b: nat)
    requires Represents(t, hash, m) && b < |t| && Sibling(b) < |t| && !t[b].Shared? && !t[Sibling(b)].Shared?
    ensures DistinctKeys(t[b].Nodes()) && DistinctKeys(t[Sibling(b)].Nodes())
    ensures forall x, y | x in t[b].Nodes() && y in t[Sibling(b)].Nodes() :: x.key != y.key
  {
    hide Home, IsPowerOfTwo;
    SiblingFacts(t, b);
    assert BucketOk(t, hash, m, b) && BucketOk(t, hash, m, Sibling(b));
    forall x, y | x in t[b].Nodes() && y in t[Sibling(b)].Nodes() ensures x.key != y.key {
      assert BelongsAt(t, hash, b, x.key) && BelongsAt(t, hash, Sibling(b), y.key);
    }
  }

  lemma ShapeAt<K, V>(t: Table<K, V>, hash: K -> nat, m: map<K, Node<K, V>>, b: nat)
    requires Represents(t, hash, m) && b < |t|
    ensures |t| % 2 == 0 && ShapeOk(t, b)
    ensures t[b].Shared? ==> Even(b) < |t| && t[Even(b)] == t[b]
  {
    SiblingFacts(t, b);
    assert ShapeOk(t, b);
  }

  lemma NeitherShared<K, V>(t: Table<K, V>, hash: K -> nat, m: map<K, Node<K, V>>, b: nat)
    requires Represents(t, hash, m) && b < |t| && !t[b].Shared?
    ensures Sibling(b) < |t| && Sibling(b) != b && !t[Sibling(b)].Shared?
  {
    SiblingFacts(t, b);
    ShapeAt(t, hash, m, Sibling(b));
  }

  lemma SlotsOf<K, V>(table: array<Slot<K, V>>, view: Table<K, V>, trees: set<Tree<K, V>>)
    requires Mirrors(table, view, trees)
    ensures table.Length == |view| && forall b: nat | b < |view| :: SlotOk(table, view, trees, b)
  {}

  lemma MirrorsFrom<K, V>(table: array<Slot<K, V>>, view: Table<K, V>, trees: set<Tree<K, V>>)
    requires table.Length == |view| && forall b: nat | b < |view| :: SlotOk(table, view, trees, b)
    ensures Mirrors(table, view, trees)
  {}

  /** The tree of a shared bucket. */
  lemma TreeAt<K, V>(table: array<Slot<K, V>>, view: Table<K, V>, trees: set<Tree<K, V>>, hash: K -> nat,
      m: map<K, Node<K, V>>, b: nat)
    requires Mirrors(table, view, trees) && Represents(view, hash, m) && b < |view| && view[b].Shared?
    ensures Sibling(b) < |view| && table[b].TreeRef? && table[Sibling(b)] == table[b]
    ensures table[b].tree in trees && table[b].tree.pair == Even(b) && view[b] == Shared(table[b].tree.items)
  {
    SiblingFacts(view, b);
    assert SlotOk(table, view, trees, b);
  }

  lemma EmptyRepresents<K, V>(t: Table<K, V>, hash: K -> nat)
    requires |t| >= MIN_TABLE_SIZE && IsPowerOfTwo(|t|) && forall b: nat | b < |t| :: t[b] == Empty
    ensures Represents(t, hash, map[]) && IsFirst(t, |t|)
  {
    PowerOfTwoIsEven(|t|);
  }
}
