/** The trees of `InnerMap` are sorted: what every operation of the table keeps, and what
    that means for the order of iteration. */
module InnerMapSorted {
  import opened InnerMapSpec
  import opened InnerMapOrder
  import opened InnerMapLinks

  /** What a `std::set` asks of its comparison; equal keys are those not less either way. */
  ghost predicate StrictTotal<K(!new)>(less: (K, K) -> bool) {
    && (forall a :: !less(a, a))
    && (forall a, b, c | less(a, b) && less(b, c) :: less(a, c))
    && (forall a, b :: a == b || less(a, b) || less(b, a))
  }

  /** Integer keys are ordered that way. */
  lemma IntegersAreTotal()
    ensures StrictTotal((a: int, b: int) => a < b)
  {}

  /** Keys ascend strictly. */
  ghost predicate Sorted<K, V>(less: (K, K) -> bool, ns: seq<Node<K, V>>) {
    forall i, j | 0 <= i < j < |ns| :: less(ns[i].key, ns[j].key)
  }

  ghost predicate Ordered<K(!new), V>(less: (K, K) -> bool, t: Table<K, V>) {
    StrictTotal(less) ==> forall b: nat | b < |t| && t[b].Shared? :: Sorted(less, t[b].tree)
  }

  // ---------- One tree ----------

  /** Where a node goes: behind the lesser keys and before the greater ones. */
  lemma {:induction false} PlaceParts<K(!new), V>(less: (K, K) -> bool, tree: seq<Node<K, V>>, k: K)
    requires StrictTotal(less) && Sorted(less, tree) && forall n | n in tree :: n.key != k
    ensures var p := Place(less, tree, k);
      && (forall i | 0 <= i < p :: less(tree[i].key, k))
      && (forall i | p <= i < |tree| :: less(k, tree[i].key))
    decreases |tree|
  {
    if tree != [] {
      var first := tree[0];
      assert first in tree;
      if less(k, first.key) {
        forall i | 0 <= i < |tree| ensures less(k, tree[i].key) {
          assert i > 0 ==> less(first.key, tree[i].key);
        }
      } else {
        var rest := tree[1..];
        assert forall n | n in rest :: n in tree;
        PlaceParts(less, rest, k);
        var p := Place(less, rest, k);
        assert Place(less, tree, k) == 1 + p;
        forall i | 1 <= i < |tree| ensures tree[i] == rest[i - 1] {}
      }
    }
  }

  /** Adding a node with a new key keeps a tree sorted. */
  lemma TreeAddSorted<K(!new), V>(less: (K, K) -> bool, tree: seq<Node<K, V>>, n: Node<K, V>)
    requires StrictTotal(less) && Sorted(less, tree) && forall x | x in tree :: x.key != n.key
    ensures Sorted(less, TreeAdd(less, tree, n))
  {
    PlaceParts(less, tree, n.key);
    var p := Place(less, tree, n.key);
    hide Place;
    var all := tree[..p] + [n] + tree[p..];
    forall i, j | 0 <= i < j < |all| ensures less(all[i].key, all[j].key) {
      if i != p && j != p {
        assert all[i] == tree[if i < p then i else i - 1] && all[j] == tree[if j < p then j else j - 1];
      } else if i == p {
        assert all[j] == tree[j - 1];
      } else {
        assert all[i] == tree[i];
      }
    }
  }

  lemma {:induction false} TreeAddAllSorted<K(!new), V>(less: (K, K) -> bool, tree: seq<Node<K, V>>,
      ns: seq<Node<K, V>>)
    requires StrictTotal(less) && Sorted(less, tree) && DistinctKeys(ns)
    requires forall x, y | x in tree && y in ns :: x.key != y.key
    ensures Sorted(less, TreeAddAll(less, tree, ns))
    decreases |ns|
  {
    if ns != [] {
      var tree' := TreeAdd(less, tree, ns[0]);
      TreeAddSorted(less, tree, ns[0]);
      TreeAddNodes(less, tree, ns[0]);
      HeadIsNew(ns);
      hide TreeAdd;
      forall x, y | x in tree' && y in ns[1..] ensures x.key != y.key {
        assert y in ns;
      }
      TreeAddAllSorted(less, tree', ns[1..]);
    }
  }

  lemma TreeAddAllSortedIf<K(!new), V>(less: (K, K) -> bool, tree: seq<Node<K, V>>, ns: seq<Node<K, V>>)
    requires DistinctKeys(ns)
    ensures StrictTotal(less) && Sorted(less, tree) && (forall x, y | x in tree && y in ns :: x.key != y.key) ==>
      Sorted(less, TreeAddAll(less, tree, ns))
  {
    if StrictTotal(less) && Sorted(less, tree) && (forall x, y | x in tree && y in ns :: x.key != y.key) {
      TreeAddAllSorted(less, tree, ns);
    }
  }

  lemma {:induction false} WithoutSorted<K, V>(less: (K, K) -> bool, ns: seq<Node<K, V>>, n: Node<K, V>)
    requires Sorted(less, ns)
    ensures Sorted(less, Without(ns, n))
    decreases |ns|
  {
    if ns != [] && ns[0] != n {
      var rest := Without(ns[1..], n);
      WithoutSorted(less, ns[1..], n);
      WithoutWithin(ns[1..], n);
      forall j | 0 <= j < |rest| ensures less(ns[0].key, rest[j].key) {
        assert rest[j] in ns[1..];
      }
      assert Without(ns, n) == [ns[0]] + rest;
    }
  }

  // ---------- The table ----------

  lemma EmptyOrdered<K(!new), V>(less: (K, K) -> bool, t: Table<K, V>)
    requires forall b: nat | b < |t| :: t[b] == Empty
    ensures Ordered(less, t)
  {}

  lemma OrderedPush<K(!new), V>(less: (K, K) -> bool, t: Table<K, V>, b: nat, n: Node<K, V>)
    requires Ordered(less, t) && b < |t|
    ensures Ordered(less, PushFront(t, b, n))
  {}

  lemma OrderedSetPair<K(!new), V>(less: (K, K) -> bool, t: Table<K, V>, b: nat, v: Bucket<K, V>)
    requires Ordered(less, t) && b < |t| && Sibling(b) < |t|
    requires StrictTotal(less) && v.Shared? ==> Sorted(less, v.tree)
    ensures Ordered(less, SetPair(t, b, v))
  {
    hide Sibling, StrictTotal, Sorted;
  }

  lemma OrderedAdd<K(!new), V>(less: (K, K) -> bool, t: Table<K, V>, hash: K -> nat, m: map<K, Node<K, V>>, b: nat,
      n: Node<K, V>)
    requires Represents(t, hash, m) && Ordered(less, t) && b < |t| && Sibling(b) < |t| && t[b].Shared? && n.key !in m
    ensures Ordered(less, AddToTree(less, t, b, n))
  {
    BucketAt(t, hash, m, b);
    hide Represents;
    if StrictTotal(less) {
      TreeAddSorted(less, t[b].tree, n);
    }
    hide TreeAdd, Sorted, StrictTotal;
    OrderedSetPair(less, t, b, Shared(TreeAdd(less, t[b].Nodes(), n)));
  }

  lemma OrderedConvert<K(!new), V>(less: (K, K) -> bool, t: Table<K, V>, hash: K -> nat, m: map<K, Node<K, V>>, b: nat)
    requires Represents(t, hash, m) && Ordered(less, t) && b < |t| && Sibling(b) < |t|
    requires !t[b].Shared? && !t[Sibling(b)].Shared?
    ensures Ordered(less, Convert(less, t, b))
  {
    var x, y := t[b].Nodes(), t[Sibling(b)].Nodes();
    PairDistinct(t, hash, m, b);
    hide Represents, Sibling;
    BothDistinct(x, y);
    if StrictTotal(less) {
      TreeAddAllSorted(less, [], x + y);
    }
    hide TreeAddAll, Sorted, StrictTotal;
    OrderedSetPair(less, t, b, Shared(TreeAddAll(less, [], x + y)));
  }

  lemma BothDistinct<K, V>(a: seq<Node<K, V>>, b: seq<Node<K, V>>)
    requires DistinctKeys(a) && DistinctKeys(b) && forall x, y | x in a && y in b :: x.key != y.key
    ensures DistinctKeys(a + b)
  {
    forall i, j | 0 <= i < j < |a + b| ensures (a + b)[i].key != (a + b)[j].key {
      if i < |a| <= j {
        assert a[i] in a && b[j - |a|] in b;
      }
    }
  }

  lemma OrderedErase<K(!new), V>(less: (K, K) -> bool, t: Table<K, V>, b: nat, n: Node<K, V>)
    requires Ordered(less, t) && b < |t| && Sibling(b) < |t|
    ensures Ordered(less, Erased(t, b, n))
  {
    if t[b].Shared? {
      if StrictTotal(less) {
        WithoutSorted(less, t[b].tree, n);
      }
      hide Without, Sorted, StrictTotal;
      OrderedSetPair(less, t, b, TreeOf(Without(t[b].Nodes(), n)));
    }
  }

  // ---------- The order of iteration ----------

  /** `x` comes before `y` in the order of iteration: in one tree by their keys, and
      otherwise by their buckets. */
  ghost predicate Precedes<K(!new), V>(less: (K, K) -> bool, t: Table<K, V>, hash: K -> nat, x: Node<K, V>,
      y: Node<K, V>)
    requires |t| > 0
  {
    var a, b := Home(|t|, hash, x.key), Home(|t|, hash, y.key);
    if t[a].Shared? && a / 2 == b / 2 then StrictTotal(less) ==> less(x.key, y.key) else a <= b
  }

  lemma InOneBucket<K(!new), V>(less: (K, K) -> bool, t: Table<K, V>, hash: K -> nat, b: nat,
      x: Node<K, V>, y: Node<K, V>, i: nat, j: nat)
    requires Ordered(less, t) && b < |t| && Boundary(t, b) && i < j < |t[b].Nodes()|
    requires t[b].Nodes()[i] == x && t[b].Nodes()[j] == y
    requires b <= Home(|t|, hash, x.key) < After(t, b) && b <= Home(|t|, hash, y.key) < After(t, b)
    requires Shaped(t)
    ensures Precedes(less, t, hash, x, y)
  {
    SiblingFacts(t, b);
    assert ShapeOk(t, b);
    hide Home, StrictTotal;
  }

  lemma InLaterBucket<K(!new), V>(less: (K, K) -> bool, t: Table<K, V>, hash: K -> nat, b: nat, x: Node<K, V>,
      y: Node<K, V>)
    requires b < |t| && Boundary(t, b)
    requires b <= Home(|t|, hash, x.key) < After(t, b) <= Home(|t|, hash, y.key)
    requires Shaped(t)
    ensures Precedes(less, t, hash, x, y)
  {
    var a := Home(|t|, hash, x.key);
    SiblingFacts(t, a);
    assert ShapeOk(t, a);
    hide Home, StrictTotal;
  }

  lemma {:induction false} OrderAscends<K(!new), V>(less: (K, K) -> bool, t: Table<K, V>, hash: K -> nat,
      m: map<K, Node<K, V>>, b: nat)
    requires Represents(t, hash, m) && Ordered(less, t) && Boundary(t, b)
    ensures var order := OrderFrom(t, b);
      forall i, j | 0 <= i < j < |order| :: Precedes(less, t, hash, order[i], order[j])
    decreases |t| - b
  {
    if b < |t| {
      var ns, rest := t[b].Nodes(), OrderFrom(t, After(t, b));
      AfterIsBoundary(t, b);
      OrderAscends(less, t, hash, m, After(t, b));
      OrderVisits(t, hash, m, After(t, b));
      BucketCovers(t, hash, m, b);
      OrderStep(t, b);
      hide Represents, OrderFrom;
      forall i, j | 0 <= i < j < |ns + rest| ensures Precedes(less, t, hash, (ns + rest)[i], (ns + rest)[j]) {
        if j < |ns| {
          assert ns[i] in ns && ns[j] in ns;
          InOneBucket(less, t, hash, b, ns[i], ns[j], i, j);
        } else if i < |ns| {
          assert ns[i] in ns && rest[j - |ns|] in rest;
          InLaterBucket(less, t, hash, b, ns[i], rest[j - |ns|]);
        }
      }
    }
  }

  lemma StartsAt<K, V>(t: Table<K, V>)
    ensures Boundary(t, 0)
  {}

  /** Of two nodes in one tree, the one visited first has the lesser key; of any other two,
      the one visited first is in a bucket that does not come later. */
  lemma IterationAscends<K(!new), V>(less: (K, K) -> bool, t: Table<K, V>, hash: K -> nat, m: map<K, Node<K, V>>,
      i: nat, j: nat)
    requires Represents(t, hash, m) && Ordered(less, t) && i < j < |OrderFrom(t, 0)|
    ensures |t| > 0 && var order := OrderFrom(t, 0);
      var a, b := hash(order[i].key) % |t|, hash(order[j].key) % |t|;
      if t[a].Shared? && a / 2 == b / 2 then StrictTotal(less) ==> less(order[i].key, order[j].key) else a <= b
  {
    OrderAscends(less, t, hash, m, 0);
    assert Precedes(less, t, hash, OrderFrom(t, 0)[i], OrderFrom(t, 0)[j]);
  }
}
