/** `InnerMap`, the chaining hash table of protobuf's `Map`: its operations, which refine
    a mathematical map. */
module InnerMapTable {
  import opened InnerMapSpec
  import opened InnerMapOrder
  import opened InnerMapLinks
  import opened InnerMapSorted

  /** An iterator: the node is always right, the bucket may be stale. */
  datatype Iterator<K, V> = Iterator(node: Node?<K, V>, bucket: nat)

  class InnerMap<K(==, !new), V> {
    const hash: K -> nat
    const less: (K, K) -> bool
    var table: array<Slot<K, V>>
    var numElements: nat
    var first: nat
    ghost var view: Table<K, V>
    ghost var trees: set<Tree<K, V>>
    ghost var contents: map<K, Node<K, V>>
    ghost var nodes: set<Node<K, V>>

    ghost predicate Linked()
      reads `table, `view, `trees, `contents, `nodes, table, trees, nodes
    {
      Mirrors(table, view, trees) && Represents(view, hash, contents)
        && Strung(view, 0, nodes) && Tracks(nodes, contents) && Ordered(less, view)
    }

    ghost predicate Ok()
      reads `table, `view, `trees, `contents, `nodes, `first, table, trees, nodes
    {
      Linked() && IsFirst(view, first)
    }

    ghost predicate Valid()
      reads this, table, trees, nodes
    {
      Ok() && numElements == |contents|
    }

    /** Where key `k` is to be found or put. */
    ghost function Place(k: K): nat
      reads `view
      requires |view| > 0
    {
      var b := Home(|view|, hash, k);
      if view[b].Shared? then Even(b) else b
    }

    constructor (n: nat, hash: K -> nat, less: (K, K) -> bool)
      requires n < MIN_TABLE_SIZE || IsPowerOfTwo(n)
      ensures Valid() && contents == map[] && fresh(table) && fresh(trees) && nodes == {}
      ensures this.hash == hash && this.less == less
      ensures |view| == if n < 8 then 8 else n
    {
      var size := if n < MIN_TABLE_SIZE then MIN_TABLE_SIZE else n;
      this.hash, this.less := hash, less;
      numElements, first := 0, size;
      table := new Slot<K, V>[size](_ => Null);
      view := seq(size, _ => Empty);
      trees, contents, nodes := {}, map[], {};
      new;
      MinimumIsPower();
      EmptyRepresents(view, hash);
      EmptyOrdered(less, view);
      assert forall b: nat | b < |view| :: SlotOk(table, view, trees, b);
    }

    method BucketNumber(k: K) returns (b: nat)
      requires table.Length == |view| > 0
      ensures b == Home(|view|, hash, k) == hash(k) % |view|
    {
      b := hash(k) % table.Length;
    }

    method FindHelper(k: K) returns (node: Node?<K, V>, b: nat)
      requires Linked()
      ensures b < |view| && b == Place(k)
      ensures var h := hash(k) % |view|; b == if view[h].Shared? then h - h % 2 else h
      ensures node == if k in contents then contents[k] else null
      ensures node != null ==> node in view[b].Nodes()
    {
      b := BucketNumber(k);
      node := null;
      FoundIffPresent(view, hash, contents, k);
      assert Even(b) == b - b % 2;
      PointerTest(table, view, trees, hash, contents, b);
      ShapeAt(view, hash, contents, b);
      StrungAt(view, 0, nodes, b);
      hide Represents, Mirrors, Home, Even, Sibling, ShapeOk, IsNonEmptyList, IsTree, Strung, Chained;
      if IsNonEmptyList(table, b) {
        node := ListFind(table[b].head, k, view[b].list);
      } else if IsTree(table, b) {
        node := TreeFind(table[b].tree, k);
        b := Even(b);
      }
    }

    /** The node goes to the front of a list that has room. */
    method InsertUniqueInList(b: nat, node: Node<K, V>) returns (it: Iterator<K, V>)
      requires Linked() && b < |view| && (view[b].Empty? || (view[b].Chain? && |view[b].list| < 8))
      requires node.key !in contents && Home(|view|, hash, node.key) == b
      modifies `view, `contents, `nodes, table, node
      ensures Linked() && view == PushFront(old(view), b, node)
      ensures view == old(view)[b := Chain([node] + old(view[b].Nodes()))]
      ensures contents == old(contents)[node.key := node] && nodes == old(nodes) + {node}
      ensures it == Iterator(node, b)
    {
      hide *;
      PushedReady(b, node);
      PushIs(view, b, node);
      PushNode(b, node);
      contents := contents[node.key := node];
      LinkedFrom();
      it := Iterator(node, b);
    }

    lemma PushedReady(b: nat, node: Node<K, V>)
      requires Linked() && b < |view| && (view[b].Empty? || (view[b].Chain? && |view[b].list| < 8))
      requires node.key !in contents && Home(|view|, hash, node.key) == b
      ensures Represents(PushFront(view, b, node), hash, contents[node.key := node])
      ensures Tracks(nodes + {node}, contents[node.key := node]) && Ordered(less, PushFront(view, b, node))
    {
      PushFrontKeeps(view, hash, contents, b, node);
      OrderedPush(less, view, b, node);
      hide *;
      Parts();
      TracksMore(nodes, contents, node);
    }

    /** The links and the bucket of that insertion. */
    method PushNode(b: nat, node: Node<K, V>)
      requires Linked() && b < |view| && !view[b].Shared? && node.key !in contents
      modifies `view, `nodes, table, node
      ensures Mirrors(table, view, trees) && Strung(view, 0, nodes) && nodes == old(nodes) + {node}
      ensures view == PushFront(old(view), b, node)
    {
      ListAt(table, view, trees, hash, contents, 0, nodes, b);
      assert Mirrors(table, view, trees) && Strung(view, 0, nodes) && node !in nodes;
      hide *;
      NotAmong(view[b].Nodes(), node, nodes);
      LinkFront(node, HeadOf(table[b]), view[b].Nodes());
      StrungPush(view, nodes, b, node);
      nodes := nodes + {node};
      SetList(b, node, [node] + view[b].Nodes());
      PushIs(old(view), b, node);
    }

    /** Bucket `b` gets a list of this head. */
    method SetList(b: nat, head: Node<K, V>, ghost ns: seq<Node<K, V>>)
      requires Mirrors(table, view, trees) && b < |view| && !view[b].Shared? && ns != [] && ns[0] == head
      modifies `view, table
      ensures Mirrors(table, view, trees) && view == old(view)[b := Chain(ns)]
    {
      SlotsOf(table, view, trees);
      hide Mirrors, Sibling, Even;
      table[b] := List(head);
      view := view[b := Chain(ns)];
      forall c: nat | c < |view| ensures SlotOk(table, view, trees, c) {
        assert old(SlotOk(table, view, trees, c)) && old(SlotOk(table, view, trees, b));
      }
      MirrorsFrom(table, view, trees);
    }

    /** The node goes to the tree of its pair; it is linked to no other node. */
    method InsertUniqueInTree(b: nat, node: Node<K, V>) returns (it: Iterator<K, V>)
      requires Linked() && b < |view| && view[b].Shared?
      requires node.key !in contents && Even(Home(|view|, hash, node.key)) == Even(b)
      modifies `view, `contents, `nodes, trees, node
      ensures Linked() && Sibling(b) < |view| && view == AddToTree(less, old(view), b, node)
      ensures view[b].Shared? && multiset(view[b].tree) == multiset(old(view[b].tree)) + multiset{node}
      ensures StrictTotal(less) ==>
        forall i, j | 0 <= i < j < |view[b].tree| :: less(view[b].tree[i].key, view[b].tree[j].key)
      ensures contents == old(contents)[node.key := node] && nodes == old(nodes) + {node}
      ensures it == Iterator(node, Even(b))
    {
      hide *;
      AddedReady(b, node);
      AddNode(b, node);
      contents := contents[node.key := node];
      LinkedFrom();
      AddedTree(less, old(view), b, node);
      Ascending(b);
      it := Iterator(node, Even(b));
    }

    lemma AddedReady(b: nat, node: Node<K, V>)
      requires Linked() && b < |view| && view[b].Shared?
      requires node.key !in contents && Even(Home(|view|, hash, node.key)) == Even(b)
      ensures Sibling(b) < |view| && Represents(AddToTree(less, view, b, node), hash, contents[node.key := node])
      ensures Tracks(nodes + {node}, contents[node.key := node]) && Ordered(less, AddToTree(less, view, b, node))
    {
      AddToTreeKeeps(less, view, hash, contents, b, node);
      hide *;
      Parts();
      PairShared(view, hash, contents, b);
      OrderedAdd(less, view, hash, contents, b, node);
      TracksMore(nodes, contents, node);
    }

    method AddNode(b: nat, node: Node<K, V>)
      requires Linked() && b < |view| && view[b].Shared? && node.key !in contents
      modifies `view, `nodes, trees, node
      ensures Sibling(b) < |view| && view == AddToTree(less, old(view), b, node)
      ensures Mirrors(table, view, trees) && Strung(view, 0, nodes) && nodes == old(nodes) + {node}
    {
      TreeAt(table, view, trees, hash, contents, b);
      assert Mirrors(table, view, trees) && Strung(view, 0, nodes) && node !in nodes;
      hide *;
      node.next := null;
      StrungAdd(less, view, nodes, b, node);
      nodes := nodes + {node};
      GrowTree(b, node);
    }

    method GrowTree(b: nat, node: Node<K, V>)
      requires Mirrors(table, view, trees) && b < |view| && Sibling(b) < |view| && view[b].Shared?
      requires table[b].TreeRef? && table[b].tree in trees && table[b].tree.pair == Even(b)
      requires view[b] == Shared(table[b].tree.items)
      modifies `view, trees
      ensures Mirrors(table, view, trees) && view == AddToTree(less, old(view), b, node)
    {
      SlotsOf(table, view, trees);
      SamePair(b, b);
      hide Mirrors, Sibling, Even, TreeAdd;
      assert old(SlotOk(table, view, trees, b));
      var tree := table[b].tree;
      tree.Insert(less, node);
      view := AddToTree(less, view, b, node);
      forall c: nat | c < |view| ensures SlotOk(table, view, trees, c) {
        assert old(SlotOk(table, view, trees, c));
        SamePair(b, c);
        SamePair(c, b);
      }
      MirrorsFrom(table, view, trees);
    }

    /** Puts the nodes of the list of bucket `b`, if there is one, into the tree, and
        cuts their links. */
    method CopyListToTree(b: nat, tree: Tree<K, V>, ghost ns: seq<Node<K, V>>) returns (count: nat)
      requires b < table.Length && HeadOf(table[b]) == At(ns, 0) && Chained(ns) && DistinctKeys(ns)
      modifies tree, ns
      ensures tree.items == TreeAddAll(less, old(tree.items), ns)
      ensures count == |ns| && Loose(ns)
      ensures var was := old(tree.items);
        StrictTotal(less) && Sorted(less, was) && (forall x, y | x in was && y in ns :: x.key != y.key) ==>
        forall i, j | 0 <= i < j < |tree.items| :: less(tree.items[i].key, tree.items[j].key)
    {
      hide TreeAdd;
      TreeAddAllSortedIf(less, tree.items, ns);
      var node := HeadOf(table[b]);
      count := 0;
      while node != null
        invariant 0 <= count <= |ns| && node == At(ns, count)
        invariant forall i | 0 <= i < |ns| :: ns[i].next == if i < count then null else At(ns, i + 1)
        invariant TreeAddAll(less, old(tree.items), ns) == TreeAddAll(less, tree.items, ns[count..])
        decreases |ns| - count
      {
        tree.Insert(less, node);
        count := count + 1;
        var next := node.next;
        node.next := null;
        node := next;
      }
    }

    /** Both lists go into the tree. */
    method CopyBoth(b: nat, tree: Tree<K, V>, ghost x: seq<Node<K, V>>, ghost y: seq<Node<K, V>>)
      requires b < table.Length && HeadOf(table[b]) == At(x, 0) && Chained(x) && DistinctKeys(x)
      requires Sibling(b) < table.Length && HeadOf(table[Sibling(b)]) == At(y, 0) && Chained(y) && DistinctKeys(y)
      requires tree.items == [] && forall n, m | n in x && m in y :: n.key != m.key
      modifies tree, x, y
      ensures tree.items == TreeAddAll(less, [], x + y) && Loose(tree.items)
      ensures forall n | n in tree.items :: n in x || n in y
    {
      TreeAddAllAppend(less, [], x, y);
      assert forall n | n in y :: n !in x;
      hide TreeAdd, DistinctKeys;
      var count := CopyListToTree(b, tree, x);
      var count' := CopyListToTree(Sibling(b), tree, y);
      PairNodes(less, x, y);
      assert count + count' == |tree.items|;
    }

    /** Buckets `b` and `b ^ 1` share a tree from now on. */
    method TreeConvert(b: nat)
      requires Linked() && b < |view| && view[b].Chain?
      modifies `view, `trees, table, nodes
      ensures Linked() && Sibling(b) < |view| && view == Convert(less, old(view), b) && view[b].Shared?
      ensures view[Sibling(b)] == view[b]
      ensures multiset(view[b].tree) == multiset(old(view[b].Nodes())) + multiset(old(view)[Sibling(b)].Nodes())
      ensures StrictTotal(less) ==>
        forall i, j | 0 <= i < j < |view[b].tree| :: less(view[b].tree[i].key, view[b].tree[j].key)
      ensures fresh(trees - old(trees)) && old(trees) <= trees
    {
      hide *;
      ConvertedReady(b);
      ConvertLinks(b);
      LinkedFrom();
      Ascending(b);
    }

    lemma ConvertedReady(b: nat)
      requires Linked() && b < |view| && view[b].Chain?
      ensures Sibling(b) < |view| && Sibling(b) != b && !view[b].Shared? && !view[Sibling(b)].Shared?
      ensures Represents(Convert(less, view, b), hash, contents) && Ordered(less, Convert(less, view, b))
      ensures Tracks(nodes, contents)
      ensures var view' := Convert(less, view, b);
        && |view'| == |view| && view'[b].Shared? && view'[Sibling(b)] == view'[b]
        && multiset(view'[b].tree) == multiset(view[b].Nodes()) + multiset(view[Sibling(b)].Nodes())
    {
      ConvertKeeps(less, view, hash, contents, b);
      NeitherShared(view, hash, contents, b);
      PairDistinct(view, hash, contents, b);
      OrderedConvert(less, view, hash, contents, b);
      hide *;
      Parts();
      ConvertedTree(less, view, b);
    }

    /** A tree of the table ascends. */
    lemma Ascending(b: nat)
      requires Linked() && b < |view| && view[b].Shared?
      ensures StrictTotal(less) ==>
        forall i, j | 0 <= i < j < |view[b].tree| :: less(view[b].tree[i].key, view[b].tree[j].key)
    {
      hide Represents, Mirrors, Strung, Tracks, StrictTotal;
    }

    lemma LinkedFrom()
      requires Mirrors(table, view, trees) && Represents(view, hash, contents) && Strung(view, 0, nodes)
      requires Tracks(nodes, contents) && Ordered(less, view)
      ensures Linked()
    {}

    lemma ConvertReady(b: nat)
      requires Linked() && b < |view| && !view[b].Shared?
      requires Sibling(b) < |view| && Sibling(b) != b && !view[Sibling(b)].Shared?
      ensures var x, y := view[b].Nodes(), view[Sibling(b)].Nodes();
        && Mirrors(table, view, trees) && b < table.Length && Sibling(b) < table.Length
        && HeadOf(table[b]) == At(x, 0) && Chained(x) && DistinctKeys(x)
        && HeadOf(table[Sibling(b)]) == At(y, 0) && Chained(y) && DistinctKeys(y)
        && (forall n, m | n in x && m in y :: n.key != m.key)
        && (forall n | n in x || n in y :: n in nodes)
        && StrungBut(view, b, true, nodes - NodeSet(x) - NodeSet(y))
    {
      ListAt(table, view, trees, hash, contents, 0, nodes, b);
      ListAt(table, view, trees, hash, contents, 0, nodes, Sibling(b));
      PairDistinct(view, hash, contents, b);
      OthersStrung(view, hash, contents, nodes, b, true);
      hide *;
    }

    /** The lists, the tree and the buckets of that conversion. */
    method ConvertLinks(b: nat)
      requires Linked() && b < |view| && !view[b].Shared?
      requires Sibling(b) < |view| && Sibling(b) != b && !view[Sibling(b)].Shared?
      modifies `view, `trees, table, nodes
      ensures Mirrors(table, view, trees) && Strung(view, 0, nodes) && view == Convert(less, old(view), b)
      ensures fresh(trees - old(trees)) && old(trees) <= trees
    {
      hide *;
      ConvertReady(b);
      ghost var x, y := view[b].Nodes(), view[Sibling(b)].Nodes();
      ghost var others := nodes - NodeSet(x) - NodeSet(y);
      NotInSet(x, y, nodes);
      var tree := new Tree<K, V>(Even(b));
      CopyBoth(b, tree, x, y);
      LooseLinks(tree.items);
      StrungPair(view, b, Shared(tree.items), others, nodes);
      ConvertIs(less, view, b);
      ShareTree(b, tree);
    }

    /** The last step of the conversion: both buckets point at the tree. */
    method ShareTree(b: nat, tree: Tree<K, V>)
      requires Mirrors(table, view, trees) && b < |view| && Sibling(b) < |view|
      requires tree !in trees && tree.pair == Even(b)
      modifies `view, `trees, table
      ensures Mirrors(table, view, trees)
      ensures view == SetPair(old(view), b, Shared(tree.items)) && trees == old(trees) + {tree}
    {
      SlotsOf(table, view, trees);
      hide Mirrors, Sibling, Even;
      SamePair(b, b);
      table[b], table[Sibling(b)] := TreeRef(tree), TreeRef(tree);
      view, trees := SetPair(view, b, Shared(tree.items)), trees + {tree};
      forall c: nat | c < |view| ensures SlotOk(table, view, trees, c) {
        assert old(SlotOk(table, view, trees, c));
        SamePair(b, c);
        SamePair(c, b);
      }
      MirrorsFrom(table, view, trees);
    }

    /** Whether the list of bucket `b` is as long as a list may be. */
    method TableEntryIsTooLong(b: nat) returns (tooLong: bool)
      requires Linked() && b < |view| && view[b].Chain?
      ensures tooLong <==> |view[b].list| >= 8
    {
      PointerTest(table, view, trees, hash, contents, b);
      ShapeAt(view, hash, contents, b);
      hide Represents, Mirrors, Sibling;
      StrungAt(view, 0, nodes, b);
      hide Strung;
      ghost var ns := view[b].list;
      var count, node := 1, table[b].head.next;
      while node != null
        invariant 1 <= count <= |ns| && node == At(ns, count)
        decreases |ns| - count
      {
        count := count + 1;
        node := node.next;
      }
      tooLong := count >= MAX_LENGTH;
    }

    lemma InsertReady(b: nat, node: Node<K, V>)
      requires Ok() && b < |view| && BelongsAt(view, hash, b, node.key)
      ensures Linked() && b < table.Length == |view| && Sibling(b) < |view|
      ensures if view[b].Shared? then Even(Home(|view|, hash, node.key)) == Even(b)
        else Home(|view|, hash, node.key) == b
      ensures table[b].Null? <==> view[b].Empty?
      ensures IsNonEmptyList(table, b) <==> view[b].Chain?
      ensures var view' := Inserted(less, view, b, node);
        && |view'| == |view|
        && (view[b].Empty? ==> view' == PushFront(view, b, node) && !view'[b].Shared? && IsFirst(view', Min(first, b)))
        && (view[b].Chain? && |view[b].list| < 8 ==>
          view' == PushFront(view, b, node) && !view'[b].Shared? && IsFirst(view', first))
        && (view[b].Chain? && |view[b].list| >= 8 ==>
          view' == AddToTree(less, Convert(less, view, b), b, node) && view'[b].Shared?
            && IsFirst(view', Min(first, Even(b))))
        && (view[b].Shared? ==> view' == AddToTree(less, view, b, node) && view'[b].Shared? && IsFirst(view', first))
        && (view'[b].Shared? <==> view[b].Shared? || (view[b].Chain? && |view[b].list| >= 8))
    {
      ShapeAt(view, hash, contents, b);
      SiblingFacts(view, b);
      PointerTest(table, view, trees, hash, contents, b);
      InsertedCases(less, view, first, b, node);
      BelongsMeans(view, hash, b, node.key);
      hide Represents, Mirrors, Strung, Tracks, Inserted, IsFirst;
    }

    lemma OkParts()
      requires Ok()
      ensures Linked() && IsFirst(view, first)
    {}

    lemma OkFrom()
      requires Linked() && IsFirst(view, first)
      ensures Ok()
    {}

    /** Puts a node with a new key where it belongs; a list that is full becomes a tree
        first, and the first bucket may move down. */
    method InsertUnique(b: nat, node: Node<K, V>) returns (it: Iterator<K, V>)
      requires Ok() && b < |view| && node.key !in contents && BelongsAt(view, hash, b, node.key)
      modifies `view, `contents, `nodes, `trees, `first, table, trees, nodes, node
      ensures Ok() && contents == old(contents)[node.key := node] && nodes == old(nodes) + {node}
      ensures |view| == old(|view|) && Sibling(b) < |view| && view == Inserted(less, old(view), b, node)
      ensures view[b].Shared? <==> old(view[b].Shared?) || (old(view[b].Chain?) && |old(view)[b].list| >= 8)
      ensures fresh(trees - old(trees)) && old(trees) <= trees
      ensures it == Iterator(node, if view[b].Shared? then Even(b) else b)
    {
      hide *;
      InsertReady(b, node);
      if table[b].Null? {
        it := InsertUniqueInList(b, node);
      } else if IsNonEmptyList(table, b) {
        var tooLong := TableEntryIsTooLong(b);
        if tooLong {
          it := InsertConverting(b, node);
        } else {
          it := InsertUniqueInList(b, node);
          OkFrom();
          return;
        }
      } else {
        it := InsertUniqueInTree(b, node);
        OkFrom();
        return;
      }
      first := Min(first, it.bucket);
      OkFrom();
    }

    /** The case of a full list: it becomes a tree, and the node goes into it. */
    method InsertConverting(b: nat, node: Node<K, V>) returns (it: Iterator<K, V>)
      requires Linked() && b < |view| && view[b].Chain?
      requires node.key !in contents && Home(|view|, hash, node.key) == b
      modifies `view, `contents, `nodes, `trees, table, trees, nodes, node
      ensures Linked() && contents == old(contents)[node.key := node] && nodes == old(nodes) + {node}
      ensures |view| == old(|view|) && Sibling(b) < |view| && view[b].Shared?
      ensures view == AddToTree(less, Convert(less, old(view), b), b, node)
      ensures fresh(trees - old(trees)) && old(trees) <= trees
      ensures it == Iterator(node, Even(b))
    {
      NeitherShared(view, hash, contents, b);
      ConvertSize(less, view, b);
      AddedShape(less, Convert(less, view, b), b, node);
      hide Represents, Mirrors, Home, Even, Convert, AddToTree, Sibling, Strung;
      TreeConvert(b);
      it := InsertUniqueInTree(b, node);
    }

    /** Puts a node of an old table into this one. */
    method TransferOne(node: Node<K, V>)
      requires Ok() && node.key !in contents
      modifies `view, `contents, `nodes, `trees, `first, table, trees, nodes, node
      ensures Ok() && |view| == old(|view|)
      ensures contents == old(contents)[node.key := node] && nodes == old(nodes) + {node}
      ensures fresh(trees - old(trees)) && old(trees) <= trees
    {
      SizeFacts(table, view, trees, hash, contents);
      hide Ok, Home, BelongsAt, Inserted, Even, Sibling;
      var b := BucketNumber(node.key);
      BelongsHome(view, hash, node.key);
      var it := InsertUnique(b, node);
    }

    /** Puts the nodes of an old list into this table; a node's link is read before
        the insertion changes it. */
    method TransferList(head: Node<K, V>, ghost ns: seq<Node<K, V>>)
      requires Ok() && ns != [] && head == ns[0] && Chained(ns) && DistinctKeys(ns)
      requires forall n | n in ns :: n.key !in contents && n !in nodes
      modifies `view, `contents, `nodes, `trees, `first, table, trees, nodes, ns
      ensures Ok() && contents == WithNodes(old(contents), ns) && |view| == old(|view|)
      ensures forall n | n in nodes :: n in old(nodes) || n in ns
      ensures fresh(trees - old(trees)) && old(trees) <= trees
    {
      hide Ok, WithNodes, DistinctKeys, Chained;
      var node: Node?<K, V> := head;
      ghost var rest := ns;
      while node != null
        invariant node == At(rest, 0) && Chained(rest) && DistinctKeys(rest) && forall n | n in rest :: n in ns
        invariant Ok() && WithNodes(old(contents), ns) == WithNodes(contents, rest) && |view| == old(|view|)
        invariant forall n | n in rest :: n.key !in contents && n !in nodes
        invariant forall n | n in nodes :: n in old(nodes) || n in ns
        invariant fresh(trees - old(trees)) && old(trees) <= trees
        decreases |rest|
      {
        var next := node.next;
        ChainedTail(rest);
        OneAhead(contents, rest);
        rest := rest[1..];
        TransferOne(node);
        node := next;
      }
      NoneAhead(contents);
    }

    /** Puts the nodes of an old tree into this table. */
    method TransferTree(tree: Tree<K, V>, ghost ns: seq<Node<K, V>>)
      requires Ok() && tree !in trees && tree.items == ns && DistinctKeys(ns)
      requires forall n | n in ns :: n.key !in contents && n !in nodes
      modifies `view, `contents, `nodes, `trees, `first, table, trees, nodes, ns
      ensures Ok() && contents == WithNodes(old(contents), ns) && |view| == old(|view|)
      ensures forall n | n in nodes :: n in old(nodes) || n in ns
      ensures fresh(trees - old(trees)) && old(trees) <= trees
    {
      hide Ok, WithNodes, DistinctKeys;
      var i := 0;
      while i < |tree.items|
        invariant i <= |ns| && tree !in trees && tree.items == ns && DistinctKeys(ns[i..])
        invariant Ok() && WithNodes(old(contents), ns) == WithNodes(contents, ns[i..]) && |view| == old(|view|)
        invariant forall n | n in ns[i..] :: n.key !in contents && n !in nodes
        invariant forall n | n in nodes :: n in old(nodes) || n in ns
        invariant fresh(trees - old(trees)) && old(trees) <= trees
      {
        OneAhead(contents, ns[i..]);
        TransferOne(tree.items[i]);
        i := i + 1;
      }
      NoneAhead(contents);
    }

    /** What the old table still holds from bucket `i` on. */
    ghost predicate OldTable(oldTable: array<Slot<K, V>>, t: Table<K, V>, oldTrees: set<Tree<K, V>>,
        m: map<K, Node<K, V>>, i: nat, rest: set<Node<K, V>>)
      reads `table, `trees, `contents, `nodes, oldTable, oldTrees, rest
    {
      && oldTable != table && oldTrees !! trees && rest !! nodes
      && Represents(t, hash, m) && Mirrors(oldTable, t, oldTrees) && Strung(t, i, rest)
      && Boundary(t, i) && Moved(t, hash, m, contents, i)
    }

    /** Moves what bucket `i` of the old table has, a shared pair in one step. */
    method TransferBucket(oldTable: array<Slot<K, V>>, i: nat, ghost t: Table<K, V>, ghost oldTrees: set<Tree<K, V>>,
        ghost m: map<K, Node<K, V>>, ghost rest: set<Node<K, V>>)
      returns (next: nat, ghost rest': set<Node<K, V>>)
      requires Ok() && i < |t| && OldTable(oldTable, t, oldTrees, m, i, rest)
      modifies `view, `contents, `nodes, `trees, `first, table, trees, nodes, rest
      ensures Ok() && |view| == old(|view|) && fresh(trees - old(trees)) && old(trees) <= trees
      ensures i < next <= |t| && OldTable(oldTable, t, oldTrees, m, next, rest') && rest' <= rest
      ensures nodes <= old(nodes) + rest
    {
      hide *;
      OldBucket(oldTable, i, t, oldTrees, m, rest);
      ghost var ns := t[i].Nodes();
      rest' := rest - NodeSet(ns);
      NotInRest(ns, rest);
      next := i + 1;
      if IsNonEmptyList(oldTable, i) {
        TransferList(oldTable[i].head, ns);
      } else if IsTree(oldTable, i) {
        TransferTree(oldTable[i].tree, ns);
        next := i + 2;
      }
      OldTableFrom(oldTable, t, oldTrees, m, next, rest');
    }

    /** What the code finds at bucket `i` of the old table, and what is left after it. */
    lemma OldBucket(oldTable: array<Slot<K, V>>, i: nat, t: Table<K, V>, oldTrees: set<Tree<K, V>>,
        m: map<K, Node<K, V>>, rest: set<Node<K, V>>)
      requires Ok() && i < |t| && OldTable(oldTable, t, oldTrees, m, i, rest)
      ensures oldTable.Length == |t| && Sibling(i) < |t| && oldTable != table && oldTrees !! trees && rest !! nodes
      ensures i < After(t, i) <= |t| && After(t, i) == if IsTree(oldTable, i) then i + 2 else i + 1
      ensures IsNonEmptyList(oldTable, i) ==> !IsTree(oldTable, i) && oldTable[i].List? && t[i].Nodes() != []
      ensures IsNonEmptyList(oldTable, i) ==> t[i].Nodes()[0] == oldTable[i].head && Chained(t[i].Nodes())
      ensures IsTree(oldTable, i) ==>
        oldTable[i].TreeRef? && oldTable[i].tree in oldTrees && oldTable[i].tree.items == t[i].Nodes()
      ensures !IsNonEmptyList(oldTable, i) && !IsTree(oldTable, i) ==> WithNodes(contents, t[i].Nodes()) == contents
      ensures DistinctKeys(t[i].Nodes())
      ensures forall n | n in t[i].Nodes() :: n.key !in contents && n !in nodes && n in rest
      ensures Represents(t, hash, m) && Mirrors(oldTable, t, oldTrees) && Boundary(t, After(t, i))
      ensures Strung(t, After(t, i), rest - NodeSet(t[i].Nodes()))
      ensures Moved(t, hash, m, WithNodes(contents, t[i].Nodes()), After(t, i))
    {
      MovedMore(t, hash, m, contents, i);
      PointerTest(oldTable, t, oldTrees, hash, m, i);
      BoundaryWithin(t, After(t, i));
      StrungAt(t, i, rest, i);
      StrungAfter(t, hash, m, i, rest);
      hide Represents, Mirrors, Strung, Moved;
    }

    lemma OldTableFrom(oldTable: array<Slot<K, V>>, t: Table<K, V>, oldTrees: set<Tree<K, V>>, m: map<K, Node<K, V>>,
        i: nat, rest: set<Node<K, V>>)
      requires oldTable != table && oldTrees !! trees && rest !! nodes
      requires Represents(t, hash, m) && Mirrors(oldTable, t, oldTrees) && Strung(t, i, rest)
      requires Boundary(t, i) && Moved(t, hash, m, contents, i)
      ensures OldTable(oldTable, t, oldTrees, m, i, rest)
    {}

    /** A new table without nodes. */
    method StartOver(buckets: nat)
      requires buckets >= MIN_TABLE_SIZE && IsPowerOfTwo(buckets)
      modifies `table, `view, `contents, `nodes, `trees, `first
      ensures Ok() && contents == map[] && nodes == {} && trees == {} && |view| == buckets && fresh(table)
    {
      table := new Slot<K, V>[buckets](_ => Null);
      first, view, trees, contents, nodes := buckets, seq(buckets, _ => Empty), {}, map[], {};
      EmptyRepresents(view, hash);
      EmptyOrdered(less, view);
      EmptyMirrors(table, view);
    }

    method Resize(newBuckets: nat)
      requires Ok() && newBuckets >= MIN_TABLE_SIZE && IsPowerOfTwo(newBuckets)
      modifies `table, `view, `contents, `nodes, `trees, `first, nodes
      ensures Ok() && contents == old(contents) && nodes == old(nodes) && |view| == newBuckets
      ensures fresh(table) && fresh(trees)
    {
      hide *;
      NodesDetermined();
      OldTableReady();
      ghost var m, t, oldTrees, rest := contents, view, trees, nodes;
      var oldTable, i := table, first;
      StartOver(newBuckets);
      OldTableFrom(oldTable, t, oldTrees, m, i, rest);
      while i < oldTable.Length
        invariant Ok() && fresh(table) && fresh(trees) && |view| == newBuckets
        invariant i <= |t| == oldTable.Length && OldTable(oldTable, t, oldTrees, m, i, rest)
        invariant rest <= old(nodes) && nodes <= old(nodes)
      {
        i, rest := TransferBucket(oldTable, i, t, oldTrees, m, rest);
      }
      AllMoved(oldTable, t, oldTrees, m, rest);
      NodesDetermined();
    }

    /** The nodes are those of the map. */
    lemma NodesDetermined()
      requires Ok()
      ensures nodes == contents.Values
    {
      forall k | k in contents ensures contents[k] in nodes {
        assert KeyOk(view, hash, contents, k);
        assert LinkedIn(view[Home(|view|, hash, k)], nodes);
      }
      hide Represents, Mirrors, Strung;
    }

    lemma OldTableReady()
      requires Ok()
      ensures Represents(view, hash, contents) && Mirrors(table, view, trees) && Strung(view, first, nodes)
      ensures Boundary(view, first) && Moved(view, hash, contents, map[], first) && first <= |view| == table.Length
    {
      MovedStart(view, hash, contents, first);
      hide Represents;
    }

    lemma AllMoved(oldTable: array<Slot<K, V>>, t: Table<K, V>, oldTrees: set<Tree<K, V>>, m: map<K, Node<K, V>>,
        rest: set<Node<K, V>>)
      requires OldTable(oldTable, t, oldTrees, m, |t|, rest)
      ensures contents == m
    {
      MovedAll(t, hash, m, contents);
    }

    /** Doubles the table if the load gets high, shrinks it if the load is low. */
    method ResizeIfLoadIsOutOfRange(newSize: nat) returns (resized: bool)
      requires Ok()
      modifies `table, `view, `contents, `nodes, `trees, `first, nodes
      ensures Ok() && contents == old(contents) && nodes == old(nodes)
      ensures |view| == NextSize(old(|view|), newSize)
      ensures newSize >= old(|view|) * 12 / 16 && old(|view|) <= 0x800_0000_0000_0000 ==> |view| == 2 * old(|view|)
      ensures old(|view|) * 12 / 16 / 4 < newSize < old(|view|) * 12 / 16 ==> |view| == old(|view|)
      ensures resized <==> |view| != old(|view|)
      ensures if resized then fresh(table) && fresh(trees)
        else table == old(table) && view == old(view) && trees == old(trees)
    {
      SizeFacts(table, view, trees, hash, contents);
      NextSizeFits(|view|, newSize);
      ghost var k := NextSizeExact(|view|, newSize);
      hide Pow2;
      hide Ok, IsPowerOfTwo, ShiftRight, LeastShift;
      var buckets := table.Length;
      var hi := HighCutoff(buckets);
      var lo := hi / 4;
      if newSize >= hi {
        if buckets <= MAX_SIZE / 2 {
          Resize(buckets * 2);
          return true;
        }
      } else if newSize <= lo && buckets > MIN_TABLE_SIZE {
        var shift := ReductionShift(newSize * 5 / 4 + 1, hi);
        var shrunk := ShiftRight(buckets, shift);
        var newBuckets := if shrunk > MIN_TABLE_SIZE then shrunk else MIN_TABLE_SIZE;
        if newBuckets != buckets {
          Resize(newBuckets);
          return true;
        }
      }
      return false;
    }

    /** Makes room for one more element; the bucket where `k` goes may be another then. */
    method MakeRoom(k: K, b: nat) returns (b': nat)
      requires Ok() && k !in contents && |view| > 0 && b == Place(k)
      modifies `table, `view, `contents, `nodes, `trees, `first, nodes
      ensures Ok() && contents == old(contents) && nodes == old(nodes)
      ensures |view| == NextSize(old(|view|), numElements + 1)
      ensures b' < |view| && BelongsAt(view, hash, b', k)
      ensures (table == old(table) && trees == old(trees)) || (fresh(table) && fresh(trees))
    {
      hide Represents, Mirrors, Home, IsFirst, NextSize, Even, BelongsAt;
      b' := b;
      var resized := ResizeIfLoadIsOutOfRange(numElements + 1);
      if resized {
        var node: Node?<K, V>;
        node, b' := FindHelper(k);
      }
      PlaceBelongs(view, hash, contents, k, b');
    }

    /** Inserts the pair if the key is not present; says whether it did. */
    method Insert(k: K, v: V) returns (it: Iterator<K, V>, inserted: bool)
      requires Valid()
      modifies this, table, trees, nodes
      ensures Valid() && k in contents && it.node == contents[k]
      ensures inserted <==> k !in old(contents)
      ensures !inserted ==> contents == old(contents) && view == old(view) && nodes == old(nodes)
      ensures inserted ==> fresh(it.node) && it.node.key == k && it.node.value == v
      ensures inserted ==> contents == old(contents)[k := it.node] && nodes == old(nodes) + {it.node}
      ensures |view| == if inserted then NextSize(old(|view|), |contents|) else old(|view|)
      ensures (table == old(table) || fresh(table)) && fresh(trees - old(trees))
    {
      hide *;
      ValidParts();
      var node, b := FindHelper(k);
      if node != null {
        it, inserted := Iterator(node, b), false;
      } else {
        it := InsertNew(k, v, b);
        inserted := true;
      }
    }

    /** Bucket `b` is where the search for the new key ended. */
    method InsertNew(k: K, v: V, b: nat) returns (it: Iterator<K, V>)
      requires Valid() && k !in contents && |view| > 0 && b == Place(k)
      modifies this, table, trees, nodes
      ensures Valid() && fresh(it.node) && it.node != null && it.node.key == k && it.node.value == v
      ensures contents == old(contents)[k := it.node] && nodes == old(nodes) + {it.node}
      ensures |view| == NextSize(old(|view|), |contents|)
      ensures (table == old(table) || fresh(table)) && fresh(trees - old(trees))
    {
      hide *;
      ValidParts();
      var b' := MakeRoom(k, b);
      var n := new Node<K, V>(k, v);
      it := InsertUnique(b', n);
      numElements := numElements + 1;
      ValidFrom();
    }

    lemma ValidParts()
      requires Valid()
      ensures Ok() && Linked() && |view| > 0 && first <= |view| == table.Length && numElements == |contents|
    {
      SizeFacts(table, view, trees, hash, contents);
    }

    lemma ValidFrom()
      requires Ok() && numElements == |contents|
      ensures Valid()
    {}

    // ---------- Iterators and erasing ----------

    /** Finds the bucket of the iterator's node, whatever has happened to the map since
        the iterator was made; says whether the node is in a list. */
    method Revalidate(it: Iterator<K, V>) returns (b: nat, isList: bool)
      requires Linked() && it.node != null && it.node.key in contents && contents[it.node.key] == it.node
      ensures b < |view| && it.node in view[b].Nodes() && b == Place(it.node.key)
      ensures isList <==> view[b].Chain?
      ensures !isList ==> view[b].Shared?
    {
      hide *;
      var node: Node<K, V> := it.node;
      Sizes();
      b := it.bucket % table.Length;
      Bucket(b);
      if table[b].List? && table[b].head == node {
        PlaceIs(b, node);
        return b, true;
      }
      if IsNonEmptyList(table, b) {
        var among := IsBehind(node, table[b].head, view[b].Nodes());
        if among {
          PlaceIs(b, node);
          return b, true;
        }
      }
      var found: Node?<K, V>;
      found, b := FindHelper(node.key);
      Bucket(b);
      SomeNodes(view[b]);
      isList := !IsTree(table, b);
    }

    lemma Parts()
      requires Linked()
      ensures Mirrors(table, view, trees) && Represents(view, hash, contents) && Strung(view, 0, nodes)
      ensures Tracks(nodes, contents) && Ordered(less, view)
    {}

    lemma Sizes()
      requires Linked()
      ensures table.Length == |view| > 0
    {
      SizeFacts(table, view, trees, hash, contents);
    }

    /** What the code finds at a bucket. */
    lemma Bucket(b: nat)
      requires Linked() && b < |view|
      ensures Sibling(b) < |view| == table.Length
      ensures IsNonEmptyList(table, b) <==> view[b].Chain?
      ensures IsTree(table, b) <==> view[b].Shared?
      ensures table[b].List? ==> IsNonEmptyList(table, b)
      ensures IsNonEmptyList(table, b) ==>
        table[b].List? && view[b].Nodes() != [] && view[b].Nodes()[0] == table[b].head && Chained(view[b].Nodes())
      ensures IsTree(table, b) ==> table[b].TreeRef? && table[b].tree.items == view[b].Nodes() != []
      ensures !IsNonEmptyList(table, b) && !IsTree(table, b) ==> view[b].Nodes() == []
    {
      PointerTest(table, view, trees, hash, contents, b);
      ShapeAt(view, hash, contents, b);
      StrungAt(view, 0, nodes, b);
      hide Represents, Mirrors, Strung;
    }

    /** A node that is in a list is in its place. */
    lemma PlaceIs(b: nat, node: Node<K, V>)
      requires Linked() && b < |view| && view[b].Chain? && node in view[b].Nodes()
      ensures b == Place(node.key)
    {
      InPlace(view, hash, contents, b, node);
    }

    /** Takes the node out of its list. */
    method EraseFromList(b: nat, node: Node<K, V>)
      requires Linked() && b < |view| && view[b].Chain? && node in view[b].Nodes()
      modifies `view, `contents, `nodes, table, nodes
      ensures Linked() && contents == old(contents) - {node.key} && nodes == old(nodes) - {node}
      ensures Sibling(b) < |view| && view == Erased(old(view), b, node)
      ensures exists i | 0 <= i < |old(view)[b].list| && old(view)[b].list[i] == node ::
        view[b].Nodes() == old(view)[b].list[..i] + old(view)[b].list[i + 1..]
    {
      hide *;
      EraseReady(b, node);
      ListReady(b);
      ErasedAt(view, b, node);
      ghost var ns := view[b].Nodes();
      ghost var others := nodes - NodeSet(ns);
      NotInRest(ns, nodes);
      ErasedList(view, b, node);
      var head := EraseFromLinkedList(node, table[b].head, ns);
      ListOfLinks(Without(ns, node));
      StrungOne(view, b, ListOf(Without(ns, node)), others, nodes - {node});
      nodes, contents := nodes - {node}, contents - {node.key};
      SetHead(b, head, Without(ns, node));
      LinkedFrom();
    }

    /** What is left is right for the map without the key. */
    lemma EraseReady(b: nat, node: Node<K, V>)
      requires Linked() && b < |view| && node in view[b].Nodes()
      ensures Mirrors(table, view, trees) && Sibling(b) < |view| == table.Length && DistinctKeys(view[b].Nodes())
      ensures Represents(Erased(view, b, node), hash, contents - {node.key})
      ensures Tracks(nodes - {node}, contents - {node.key}) && Ordered(less, Erased(view, b, node))
      ensures forall n | n in view[b].Nodes() :: n in nodes
      ensures forall n | n in Without(view[b].Nodes(), node) :: n in nodes - {node}
    {
      hide *;
      Parts();
      Bucket(b);
      ErasedKeeps(view, hash, contents, b, node);
      OrderedErase(less, view, b, node);
      BucketAt(view, hash, contents, b);
      StrungAt(view, 0, nodes, b);
      WithoutAmong(view[b].Nodes(), node, nodes);
      TracksLess(nodes, contents, node);
    }

    lemma ListReady(b: nat)
      requires Linked() && b < |view| && view[b].Chain?
      ensures Sibling(b) < |view| == table.Length
      ensures view[b].Nodes() != [] && table[b].List? && table[b].head == view[b].Nodes()[0] && Chained(view[b].Nodes())
      ensures StrungBut(view, b, false, nodes - NodeSet(view[b].Nodes()))
    {
      Bucket(b);
      NeitherShared(view, hash, contents, b);
      OthersStrung(view, hash, contents, nodes, b, false);
      hide *;
    }

    lemma TreeReady(b: nat, node: Node<K, V>)
      requires Linked() && b < |view| && view[b].Shared? && node in view[b].Nodes()
      ensures Sibling(b) < |view| == table.Length
      ensures table[b].TreeRef? && table[b].tree in trees && table[b].tree.pair == Even(b)
      ensures table[b].tree.items == view[b].Nodes()
      ensures Loose(Without(view[b].Nodes(), node)) && StrungBut(view, b, true, nodes - NodeSet(view[b].Nodes()))
    {
      hide *;
      Parts();
      var ns := view[b].Nodes();
      TreeAt(table, view, trees, hash, contents, b);
      Bucket(b);
      PairShared(view, hash, contents, b);
      BucketAt(view, hash, contents, b);
      StrungAt(view, 0, nodes, b);
      LooseWithout(view[b], node);
      OthersStrung(view, hash, contents, nodes, b, true);
      assert nodes - NodeSet(ns) - NodeSet(ns) == nodes - NodeSet(ns);
    }

    /** Bucket `b` gets a list of this head, or none. */
    method SetHead(b: nat, head: Node?<K, V>, ghost ns: seq<Node<K, V>>)
      requires Mirrors(table, view, trees) && b < |view| && !view[b].Shared? && head == At(ns, 0)
      modifies `view, table
      ensures Mirrors(table, view, trees) && view == old(view)[b := ListOf(ns)]
    {
      SlotsOf(table, view, trees);
      hide Mirrors, Sibling, Even;
      table[b] := if head == null then Null else List(head);
      view := view[b := ListOf(ns)];
      forall c: nat | c < |view| ensures SlotOk(table, view, trees, c) {
        assert old(SlotOk(table, view, trees, c)) && old(SlotOk(table, view, trees, b));
      }
      MirrorsFrom(table, view, trees);
    }

    /** Takes the node out of the tree of its pair. */
    method EraseFromTree(b: nat, node: Node<K, V>)
      requires Linked() && b < |view| && b % 2 == 0 && view[b].Shared? && node in view[b].Nodes()
      modifies `view, `contents, `nodes, table, trees
      ensures Linked() && contents == old(contents) - {node.key} && nodes == old(nodes) - {node}
      ensures Sibling(b) < |view| && view == Erased(old(view), b, node)
    {
      hide *;
      EraseReady(b, node);
      TreeReady(b, node);
      ghost var others := nodes - NodeSet(view[b].Nodes());
      NotInRest(view[b].Nodes(), nodes);
      ErasedTree(view, b, node);
      TreeOfLinks(Without(view[b].Nodes(), node));
      StrungPair(view, b, TreeOf(Without(view[b].Nodes(), node)), others, nodes - {node});
      nodes, contents := nodes - {node}, contents - {node.key};
      ShrinkTree(b, node);
      LinkedFrom();
    }

    method ShrinkTree(b: nat, node: Node<K, V>)
      requires Mirrors(table, view, trees) && b < |view| && b % 2 == 0 && Sibling(b) < |view| && view[b].Shared?
      requires table[b].TreeRef? && table[b].tree in trees && table[b].tree.pair == Even(b)
      requires table[b].tree.items == view[b].Nodes()
      modifies `view, table, trees
      ensures Mirrors(table, view, trees)
      ensures view == SetPair(old(view), b, TreeOf(Without(old(view[b].Nodes()), node)))
    {
      SlotsOf(table, view, trees);
      assert Sibling(b) == b + 1;
      SamePair(b, b);
      hide Mirrors, Even, Sibling, Without;
      assert old(SlotOk(table, view, trees, b));
      var tree := table[b].tree;
      tree.Erase(node);
      if tree.items == [] {
        table[b], table[b + 1] := Null, Null;
      }
      view := SetPair(view, b, TreeOf(tree.items));
      forall c: nat | c < |view| ensures SlotOk(table, view, trees, c) {
        assert old(SlotOk(table, view, trees, c));
        SamePair(b, c);
        SamePair(c, b);
      }
      MirrorsFrom(table, view, trees);
    }

    /** Erases the iterator's node. */
    method Erase(it: Iterator<K, V>)
      requires Valid() && it.node != null && it.node.key in contents && contents[it.node.key] == it.node
      modifies this, table, trees, nodes
      ensures Valid() && contents == old(contents) - {it.node.key} && nodes == old(nodes) - {it.node}
      ensures |view| == old(|view|) && table == old(table) && trees == old(trees)
    {
      hide *;
      ValidParts();
      var b, isList := Revalidate(it);
      EraseAt(b, isList, it.node);
      numElements := numElements - 1;
      ValidFrom();
    }

    method EraseAt(b: nat, isList: bool, node: Node<K, V>)
      requires Ok() && b < |view| && b == Place(node.key) && node in view[b].Nodes()
      requires if isList then view[b].Chain? else view[b].Shared?
      modifies `view, `contents, `nodes, `first, table, trees, nodes
      ensures Ok() && node.key in old(contents) && contents == old(contents) - {node.key}
      ensures nodes == old(nodes) - {node}
      ensures |view| == old(|view|) && Sibling(b) < |view| && view == Erased(old(view), b, node)
    {
      hide *;
      EraseAtReady(b, node);
      if isList {
        EraseFromList(b, node);
      } else {
        EraseFromTree(b, node);
      }
      if b == first {
        SkipEmpty();
      } else {
        OkFrom();
      }
    }

    lemma EraseAtReady(b: nat, node: Node<K, V>)
      requires Ok() && b < |view| && b == Place(node.key) && node in view[b].Nodes()
      ensures Linked() && node.key in contents && first <= |view| && Sibling(b) < |view|
      ensures view[b].Shared? ==> b % 2 == 0
      ensures |Erased(view, b, node)| == |view| && forall c: nat | c < first :: Erased(view, b, node)[c].Empty?
      ensures b != first ==> IsFirst(Erased(view, b, node), first)
    {
      PlaceEven(view, hash, contents, b, node);
      ErasedFirst(view, hash, contents, first, b, node);
      FirstOf(view, first);
      PresentAt(view, hash, contents, b, node);
      hide *;
    }

    /** Moves the first bucket up to one that is not empty. */
    method SkipEmpty()
      requires Linked() && first <= |view| && forall c: nat | c < first :: view[c].Empty?
      modifies `first
      ensures Ok()
    {
      Sizes();
      hide Linked, Sibling, IsTree, IsNonEmptyList;
      while first < table.Length && table[first].Null?
        invariant Linked() && first <= |view| && forall c: nat | c < first :: view[c].Empty?
      {
        EmptyAt(first);
        first := first + 1;
      }
      if first < table.Length {
        EmptyAt(first);
      }
      OkFrom();
    }

    lemma EmptyAt(b: nat)
      requires Linked() && b < |view|
      ensures b < table.Length && (table[b].Null? <==> view[b].Empty?)
    {
      PointerTest(table, view, trees, hash, contents, b);
    }

    /** The first node at or after the boundary `start`, in the order of iteration. */
    method SearchFrom(start: nat) returns (it: Iterator<K, V>)
      requires Linked() && Boundary(view, start)
      ensures it.node == At(OrderFrom(view, start), 0)
    {
      Sizes();
      hide Linked, Sibling, IsTree, IsNonEmptyList;
      var b := start;
      while b < table.Length
        invariant Boundary(view, b) && OrderFrom(view, start) == OrderFrom(view, b)
      {
        Bucket(b);
        OrderStep(view, b);
        BoundaryNext(b);
        if IsNonEmptyList(table, b) {
          return Iterator(table[b].head, b);
        } else if IsTree(table, b) {
          return Iterator(table[b].tree.items[0], b);
        }
        b := b + 1;
      }
      it := Iterator(null, b);
    }

    lemma BoundaryNext(b: nat)
      requires Linked() && b < |view| && Boundary(view, b)
      ensures Boundary(view, After(view, b))
    {
      AfterIsBoundary(view, b);
    }

    method Begin() returns (it: Iterator<K, V>)
      requires Ok()
      ensures it.node == At(OrderFrom(view, 0), 0)
      ensures first <= |view| && forall b: nat | b < first :: view[b].Empty?
      ensures first < |view| ==> !view[first].Empty?
    {
      FirstIsBoundary(view, first);
      OrderFromFirst(view, 0, first);
      it := SearchFrom(first);
    }

    /** `++`: the node after the iterator's in the order of iteration. Its link is
        followed if it has one; only at the end of a list or in a tree the bucket is
        needed. */
    method Next(it: Iterator<K, V>, ghost p: nat) returns (next: Iterator<K, V>)
      requires Linked() && p < |OrderFrom(view, 0)| && it.node == OrderFrom(view, 0)[p]
      ensures next.node == At(OrderFrom(view, 0), p + 1)
    {
      hide *;
      var node: Node<K, V> := it.node;
      InOrder(node, p);
      if node.next == null {
        var b, isList := Revalidate(it);
        Bucket(b);
        if isList {
          EndOfList(b, node, p);
          next := SearchFrom(b + 1);
        } else {
          var items := table[b].tree.items;
          var j := IndexOf(items, node);
          AfterInTree(b, node, j, p);
          if j + 1 == |items| {
            next := SearchFrom(b + 2);
          } else {
            next := Iterator(items[j + 1], b);
          }
        }
      } else {
        LinkInOrder(node, p);
        next := Iterator(node.next, it.bucket);
      }
    }

    lemma InOrder(node: Node<K, V>, p: nat)
      requires Linked() && p < |OrderFrom(view, 0)| && node == OrderFrom(view, 0)[p]
      ensures node.key in contents && contents[node.key] == node
    {
      OrderIsContents(view, hash, contents);
      assert node in OrderFrom(view, 0);
    }

    /** What follows a node in a bucket that is its place. */
    lemma NextAt(b: nat, node: Node<K, V>, j: nat, p: nat)
      requires Linked() && b < |view| && b == Place(node.key) && j < |view[b].Nodes()| && view[b].Nodes()[j] == node
      requires p < |OrderFrom(view, 0)| && node == OrderFrom(view, 0)[p]
      ensures At(OrderFrom(view, 0), p + 1)
           == if j + 1 < |view[b].Nodes()| then view[b].Nodes()[j + 1] else At(OrderFrom(view, After(view, b)), 0)
      ensures Boundary(view, After(view, b))
    {
      PlaceEven(view, hash, contents, b, node);
      hide *;
      Parts();
      NextInOrder(view, hash, contents, b, j, p);
      BoundaryNext(b);
    }

    lemma EndOfList(b: nat, node: Node<K, V>, p: nat)
      requires Linked() && b < |view| && b == Place(node.key) && view[b].Chain? && node in view[b].Nodes()
      requires node.next == null
      requires p < |OrderFrom(view, 0)| && node == OrderFrom(view, 0)[p]
      ensures At(OrderFrom(view, 0), p + 1) == At(OrderFrom(view, b + 1), 0) && Boundary(view, b + 1)
    {
      hide *;
      Bucket(b);
      AfterIs(view, b);
      var j := IndexOf(view[b].Nodes(), node);
      ChainAt(view[b].Nodes(), j);
      NextAt(b, node, j, p);
    }

    lemma AfterInTree(b: nat, node: Node<K, V>, j: nat, p: nat)
      requires Linked() && b < |view| && b == Place(node.key) && view[b].Shared? && j < |view[b].Nodes()|
      requires view[b].Nodes()[j] == node
      requires p < |OrderFrom(view, 0)| && node == OrderFrom(view, 0)[p]
      ensures At(OrderFrom(view, 0), p + 1)
           == if j + 1 == |view[b].Nodes()| then At(OrderFrom(view, b + 2), 0) else view[b].Nodes()[j + 1]
      ensures Boundary(view, b + 2)
    {
      hide *;
      AfterIs(view, b);
      NextAt(b, node, j, p);
    }

    /** Only a node in a list has a link, and it leads to its successor. */
    lemma LinkInOrder(node: Node<K, V>, p: nat)
      requires Linked() && p < |OrderFrom(view, 0)| && node == OrderFrom(view, 0)[p] && node.next != null
      ensures At(OrderFrom(view, 0), p + 1) == node.next
    {
      hide *;
      InOrder(node, p);
      var b := Placed(node);
      OnlyChains(b, node);
      Bucket(b);
      var j := IndexOf(view[b].Nodes(), node);
      ChainAt(view[b].Nodes(), j);
      NextAt(b, node, j, p);
    }

    lemma OnlyChains(b: nat, node: Node<K, V>)
      requires Linked() && b < |view| && node in view[b].Nodes() && node.next != null
      ensures view[b].Chain?
    {
      StrungAt(view, 0, nodes, b);
    }

    lemma Placed(node: Node<K, V>) returns (b: nat)
      requires Linked() && node.key in contents && contents[node.key] == node
      ensures |view| > 0 && b == Place(node.key) && b < |view| && node in view[b].Nodes()
    {
      var h := Home(|view|, hash, node.key);
      assert KeyOk(view, hash, contents, node.key);
      ShapeAt(view, hash, contents, h);
      b := if view[h].Shared? then Even(h) else h;
    }

    /** A loop from begin to end. */
    method Walk() returns (visited: seq<Node<K, V>>)
      requires Ok()
      ensures visited == OrderFrom(view, 0)
    {
      hide *;
      OkParts();
      ghost var order := OrderFrom(view, 0);
      visited := [];
      var it := Begin();
      while it.node != null
        invariant |visited| <= |order| && visited == order[..|visited|]
        invariant it.node == At(order, |visited|)
        decreases |order| - |visited|
      {
        var node: Node<K, V> := it.node;
        AtIs(order, |visited|);
        it := Next(it, |visited|);
        visited := visited + [node];
      }
      AtIs(order, |visited|);
    }

    /** It sees every node of the map exactly once, and nothing else: the nodes of one tree
        in the order of their keys, and otherwise bucket after bucket. */
    method Iterate() returns (visited: seq<Node<K, V>>)
      requires Valid()
      ensures visited == OrderFrom(view, 0)
      ensures DistinctKeys(visited) && |visited| == numElements
      ensures forall n :: n in visited <==> n.key in contents && contents[n.key] == n
      ensures |view| > 0 && forall i, j | 0 <= i < j < |visited| :: Precedes(less, view, hash, visited[i], visited[j])
    {
      hide *;
      ValidParts();
      visited := Walk();
      WalkSeesAll(visited);
      WalkAscends();
    }

    lemma WalkSeesAll(visited: seq<Node<K, V>>)
      requires Linked() && visited == OrderFrom(view, 0)
      ensures DistinctKeys(visited) && |visited| == |contents|
      ensures forall n :: n in visited <==> n.key in contents && contents[n.key] == n
    {
      OrderIsContents(view, hash, contents);
    }

    lemma WalkAscends()
      requires Linked()
      ensures |view| > 0 && var order := OrderFrom(view, 0);
        forall i, j | 0 <= i < j < |order| :: Precedes(less, view, hash, order[i], order[j])
    {
      hide *;
      Parts();
      Sizes();
      StartsAt(view);
      OrderAscends(less, view, hash, contents, 0);
    }
  }

  /** By how much to shrink so that the elements still fit with some room. */
  method ReductionShift(hypothetical: nat, cutoff: nat) returns (shift: nat)
    requires hypothetical > 0
    ensures shift == LeastShift(hypothetical, cutoff, 1)
  {
    shift := 1;
    while ShiftLeft(hypothetical, shift) < cutoff
      invariant LeastShift(hypothetical, cutoff, 1) == LeastShift(hypothetical, cutoff, shift)
      decreases cutoff - ShiftLeft(hypothetical, shift)
    {
      ShiftGrows(hypothetical, shift);
      shift := shift + 1;
    }
  }
}
