/** The bucket table of `InnerMap` as a value: what each bucket holds, and what the
    table's operations do to it, for any hash function and any key order. */
module InnerMapSpec {

  const MIN_TABLE_SIZE: nat := 8
  const MAX_LENGTH: nat := 8

  /** The key-value pair lives in the node from insertion to erasure; the map refers
      to it and never copies it. `next` links the nodes of a list. */
  class Node<K, V> {
    const key: K
    const value: V
    var next: Node?<K, V>

    constructor (key: K, value: V)
      ensures this.key == key && this.value == value
    {
      this.key, this.value, next := key, value, null;
    }
  }

  /** A bucket: nothing, a list of its own, or the tree it shares with its sibling. */
  datatype Bucket<K, V> = Empty | Chain(list: seq<Node<K, V>>) | Shared(tree: seq<Node<K, V>>) {
    function Nodes(): seq<Node<K, V>> {
      match this
      case Empty => []
      case Chain(ns) => ns
      case Shared(ns) => ns
    }
  }

  type Table<K, V> = seq<Bucket<K, V>>

  /** `b ^ 1`. */
  function Sibling(b: nat): nat {
    if b % 2 == 0 then b + 1 else b - 1
  }

  /** `b & ~1`. */
  function Even(b: nat): nat {
    b - b % 2
  }

  predicate IsPowerOfTwo(n: nat) {
    n == 1 || (n > 1 && n % 2 == 0 && IsPowerOfTwo(n / 2))
  }

  /** `hash` already includes the seed. The mask of a power of two is the remainder. */
  function Home<K>(buckets: nat, hash: K -> nat, k: K): (b: nat)
    requires buckets > 0
    ensures b < buckets
  {
    hash(k) % buckets
  }

  // ---------- The invariant ----------

  /** The number of buckets is a power of two of at least 8, so siblings exist. */
  ghost predicate Sized<K, V>(t: Table<K, V>) {
    |t| >= MIN_TABLE_SIZE && IsPowerOfTwo(|t|)
  }

  /** A list is not empty and at most 8 long; a tree is not empty and in both buckets
      of its pair. */
  ghost predicate ShapeOk<K, V>(t: Table<K, V>, b: nat)
    requires b < |t|
  {
    match t[b]
    case Empty => true
    case Chain(ns) => 1 <= |ns| <= MAX_LENGTH
    case Shared(ns) => ns != [] && Sibling(b) < |t| && t[Sibling(b)] == t[b]
  }

  ghost predicate Shaped<K, V>(t: Table<K, V>) {
    |t| % 2 == 0 && forall b: nat | b < |t| :: ShapeOk(t, b)
  }

  ghost predicate DistinctKeys<K, V>(ns: seq<Node<K, V>>) {
    forall i, j | 0 <= i < j < |ns| :: ns[i].key != ns[j].key
  }

  /** Whether bucket `b` is where key `k` belongs. */
  ghost predicate BelongsAt<K, V>(t: Table<K, V>, hash: K -> nat, b: nat, k: K)
    requires b < |t|
  {
    if t[b].Shared? then Even(Home(|t|, hash, k)) == Even(b) else Home(|t|, hash, k) == b
  }

  /** Everything in bucket `b` belongs there and is what the map has for its key. */
  ghost predicate BucketOk<K, V>(t: Table<K, V>, hash: K -> nat, m: map<K, Node<K, V>>, b: nat)
    requires b < |t|
  {
    && DistinctKeys(t[b].Nodes())
    && forall n | n in t[b].Nodes() :: BelongsAt(t, hash, b, n.key) && n.key in m && m[n.key] == n
  }

  /** Key `k` of the map is in its bucket. */
  ghost predicate KeyOk<K, V>(t: Table<K, V>, hash: K -> nat, m: map<K, Node<K, V>>, k: K)
    requires |t| > 0 && k in m
  {
    m[k].key == k && m[k] in t[Home(|t|, hash, k)].Nodes()
  }

  /** The table holds exactly the nodes of `m`, each once, each at its bucket. */
  ghost predicate Holds<K, V>(t: Table<K, V>, hash: K -> nat, m: map<K, Node<K, V>>)
    requires |t| > 0
  {
    && (forall b: nat | b < |t| :: BucketOk(t, hash, m, b))
    && (forall k | k in m :: KeyOk(t, hash, m, k))
  }

  ghost predicate Represents<K, V>(t: Table<K, V>, hash: K -> nat, m: map<K, Node<K, V>>) {
    Sized(t) && Shaped(t) && Holds(t, hash, m)
  }

  /** `first` is the least bucket that is not empty, or the number of buckets. */
  ghost predicate IsFirst<K, V>(t: Table<K, V>, first: nat) {
    && first <= |t|
    && (forall b: nat | b < first :: t[b].Empty?)
    && (first < |t| ==> !t[first].Empty?)
  }

  lemma PowerOfTwoIsEven(n: nat)
    requires IsPowerOfTwo(n) && n >= 2
    ensures n % 2 == 0
  {}

  lemma SiblingFacts<K, V>(t: Table<K, V>, b: nat)
    requires |t| % 2 == 0 && b < |t|
    ensures Sibling(b) < |t| && Sibling(b) != b && Sibling(Sibling(b)) == b
    ensures Even(Sibling(b)) == Even(b) && (Even(b) == b || Even(b) == Sibling(b))
  {}

  /** Two buckets of a pair are equal and not empty exactly if they share a tree: the
      pointer comparison of the code tells lists from trees. */
  lemma SharedIffEqual<K, V>(t: Table<K, V>, hash: K -> nat, m: map<K, Node<K, V>>, b: nat)
    requires Represents(t, hash, m) && b < |t|
    ensures Sibling(b) < |t|
    ensures t[b].Shared? <==> !t[b].Empty? && t[b] == t[Sibling(b)]
  {
    SiblingFacts(t, b);
    var c := Sibling(b);
    assert ShapeOk(t, b);
    assert BucketOk(t, hash, m, b) && BucketOk(t, hash, m, c);
    if t[b].Chain? {
      var n := t[b].list[0];
      assert n in t[b].Nodes() && BelongsAt(t, hash, b, n.key);
      assert t[c].Chain? ==> (n in t[c].Nodes() ==> BelongsAt(t, hash, c, n.key));
    }
  }

  /** Searching the key's own bucket finds exactly the node the map has for it. */
  lemma FoundIffPresent<K, V>(t: Table<K, V>, hash: K -> nat, m: map<K, Node<K, V>>, k: K)
    requires Represents(t, hash, m)
    ensures k in m ==> m[k] in t[Home(|t|, hash, k)].Nodes()
    ensures forall n | n in t[Home(|t|, hash, k)].Nodes() && n.key == k :: k in m && m[k] == n
  {
    assert BucketOk(t, hash, m, Home(|t|, hash, k));
    assert k in m ==> KeyOk(t, hash, m, k);
  }

  // ---------- Trees ----------

  /** Where a node goes in the order of the tree: before the first greater key. */
  function Place<K, V>(less: (K, K) -> bool, tree: seq<Node<K, V>>, k: K): (p: nat)
    ensures p <= |tree|
  {
    if tree == [] || less(k, tree[0].key) then 0 else 1 + Place(less, tree[1..], k)
  }

  function TreeAdd<K, V>(less: (K, K) -> bool, tree: seq<Node<K, V>>, n: Node<K, V>): seq<Node<K, V>> {
    var p := Place(less, tree, n.key);
    tree[..p] + [n] + tree[p..]
  }

  function TreeAddAll<K, V>(less: (K, K) -> bool, tree: seq<Node<K, V>>, ns: seq<Node<K, V>>): seq<Node<K, V>>
    decreases |ns|
  {
    if ns == [] then tree else TreeAddAll(less, TreeAdd(less, tree, ns[0]), ns[1..])
  }

  lemma TreeAddNodes<K, V>(less: (K, K) -> bool, tree: seq<Node<K, V>>, n: Node<K, V>)
    ensures forall x :: x in TreeAdd(less, tree, n) <==> x == n || x in tree
    ensures |TreeAdd(less, tree, n)| == |tree| + 1
    ensures DistinctKeys(tree) && (forall x | x in tree :: x.key != n.key) ==> DistinctKeys(TreeAdd(less, tree, n))
  {
    var p := Place(less, tree, n.key);
    hide Place;
    AddedNodes(tree, tree[..p], tree[p..], n);
  }

  /** Adding keeps every node that is there and adds one. */
  lemma TreeAddMultiset<K, V>(less: (K, K) -> bool, tree: seq<Node<K, V>>, n: Node<K, V>)
    ensures multiset(TreeAdd(less, tree, n)) == multiset(tree) + multiset{n}
  {
    var p := Place(less, tree, n.key);
    assert tree == tree[..p] + tree[p..];
  }

  lemma {:induction false} TreeAddAllMultiset<K, V>(less: (K, K) -> bool, tree: seq<Node<K, V>>, ns: seq<Node<K, V>>)
    ensures multiset(TreeAddAll(less, tree, ns)) == multiset(tree) + multiset(ns)
    decreases |ns|
  {
    if ns != [] {
      TreeAddMultiset(less, tree, ns[0]);
      TreeAddAllMultiset(less, TreeAdd(less, tree, ns[0]), ns[1..]);
      assert ns == [ns[0]] + ns[1..];
    }
  }

  lemma AddedNodes<K, V>(tree: seq<Node<K, V>>, before: seq<Node<K, V>>, after: seq<Node<K, V>>, n: Node<K, V>)
    requires tree == before + after
    ensures forall x :: x in before + [n] + after <==> x == n || x in tree
    ensures DistinctKeys(tree) && (forall x | x in tree :: x.key != n.key) ==> DistinctKeys(before + [n] + after)
  {
    var all := before + [n] + after;
    if DistinctKeys(tree) && (forall x | x in tree :: x.key != n.key) {
      forall i, j | 0 <= i < j < |all| ensures all[i].key != all[j].key {
        if i == |before| {
          assert all[j] == tree[j - 1] && tree[j - 1] in tree;
        } else if j == |before| {
          assert all[i] == tree[i] && tree[i] in tree;
        } else {
          var i', j' := if i < |before| then i else i - 1, if j < |before| then j else j - 1;
          assert all[i] == tree[i'] && all[j] == tree[j'];
        }
      }
    }
  }

  lemma {:induction false} TreeAddAllNodes<K, V>(less: (K, K) -> bool, tree: seq<Node<K, V>>, ns: seq<Node<K, V>>)
    requires DistinctKeys(tree) && DistinctKeys(ns)
    requires forall x, y | x in tree && y in ns :: x.key != y.key
    ensures forall x :: x in TreeAddAll(less, tree, ns) <==> x in tree || x in ns
    ensures |TreeAddAll(less, tree, ns)| == |tree| + |ns|
    ensures DistinctKeys(TreeAddAll(less, tree, ns))
    decreases |ns|
  {
    if ns != [] {
      TreeAddNodes(less, tree, ns[0]);
      var tree' := TreeAdd(less, tree, ns[0]);
      forall x, y | x in tree' && y in ns[1..] ensures x.key != y.key {
        assert y in ns;
      }
      TreeAddAllNodes(less, tree', ns[1..]);
      assert ns == [ns[0]] + ns[1..];
    }
  }

  lemma {:induction false} TreeAddAllAppend<K, V>(less: (K, K) -> bool, tree: seq<Node<K, V>>, a: seq<Node<K, V>>,
      b: seq<Node<K, V>>)
    ensures TreeAddAll(less, tree, a + b) == TreeAddAll(less, TreeAddAll(less, tree, a), b)
    decreases |a|
  {
    if a == [] {
      assert a + b == b;
    } else {
      assert (a + b)[1..] == a[1..] + b;
      TreeAddAllAppend(less, TreeAdd(less, tree, a[0]), a[1..], b);
    }
  }

  // ---------- Operations on the table ----------

  /** Both buckets of a pair. */
  function SetPair<K, V>(t: Table<K, V>, b: nat, v: Bucket<K, V>): Table<K, V>
    requires b < |t| && Sibling(b) < |t|
  {
    t[b := v][Sibling(b) := v]
  }

  function PushFront<K, V>(t: Table<K, V>, b: nat, n: Node<K, V>): Table<K, V>
    requires b < |t|
  {
    t[b := Chain([n] + t[b].Nodes())]
  }

  function Convert<K, V>(less: (K, K) -> bool, t: Table<K, V>, b: nat): Table<K, V>
    requires b < |t| && Sibling(b) < |t|
  {
    SetPair(t, b, Shared(TreeAddAll(less, [], t[b].Nodes() + t[Sibling(b)].Nodes())))
  }

  function AddToTree<K, V>(less: (K, K) -> bool, t: Table<K, V>, b: nat, n: Node<K, V>): Table<K, V>
    requires b < |t| && Sibling(b) < |t|
  {
    SetPair(t, b, Shared(TreeAdd(less, t[b].Nodes(), n)))
  }

  /** `InsertUnique`: a list that is already 8 long becomes a tree first. */
  function Inserted<K, V>(less: (K, K) -> bool, t: Table<K, V>, b: nat, n: Node<K, V>): Table<K, V>
    requires b < |t| && Sibling(b) < |t|
  {
    match t[b]
    case Empty => PushFront(t, b, n)
    case Chain(ns) => if |ns| >= MAX_LENGTH then AddToTree(less, Convert(less, t, b), b, n) else PushFront(t, b, n)
    case Shared(_) => AddToTree(less, t, b, n)
  }

  function Without<K, V>(ns: seq<Node<K, V>>, n: Node<K, V>): seq<Node<K, V>> {
    if ns == [] then []
    else if ns[0] == n then ns[1..]
    else [ns[0]] + Without(ns[1..], n)
  }

  lemma {:induction false} WithoutNodes<K, V>(ns: seq<Node<K, V>>, n: Node<K, V>)
    requires DistinctKeys(ns)
    ensures DistinctKeys(Without(ns, n))
    ensures forall x :: x in Without(ns, n) <==> x in ns && x != n
    ensures |Without(ns, n)| == if n in ns then |ns| - 1 else |ns|
    decreases |ns|
  {
    if ns != [] {
      HeadIsNew(ns);
      assert ns == [ns[0]] + ns[1..];
      if ns[0] == n {
        assert Without(ns, n) == ns[1..];
      } else {
        WithoutNodes(ns[1..], n);
        WithoutCons(ns, n, Without(ns[1..], n));
      }
    }
  }

  lemma WithoutCons<K, V>(ns: seq<Node<K, V>>, n: Node<K, V>, rest: seq<Node<K, V>>)
    requires ns != [] && DistinctKeys(ns) && ns[0] != n
    requires rest == Without(ns[1..], n) && DistinctKeys(rest)
    requires forall x :: x in rest <==> x in ns[1..] && x != n
    ensures Without(ns, n) == [ns[0]] + rest && DistinctKeys(Without(ns, n))
    ensures forall x :: x in Without(ns, n) <==> x in ns && x != n
  {
    HeadIsNew(ns);
    assert ns == [ns[0]] + ns[1..];
    forall x | x in rest ensures x.key != ns[0].key {
    }
    ConsDistinct(ns[0], rest);
  }

  lemma ConsDistinct<K, V>(n: Node<K, V>, ns: seq<Node<K, V>>)
    requires DistinctKeys(ns) && forall x | x in ns :: x.key != n.key
    ensures DistinctKeys([n] + ns)
  {
    forall i, j | 0 <= i < j < |[n] + ns| ensures ([n] + ns)[i].key != ([n] + ns)[j].key {
      assert ns[j - 1] in ns;
    }
  }

  lemma HeadIsNew<K, V>(ns: seq<Node<K, V>>)
    requires DistinctKeys(ns) && ns != []
    ensures forall x | x in ns[1..] :: x.key != ns[0].key
  {
    forall x | x in ns[1..] ensures x.key != ns[0].key {
      var j :| 1 <= j < |ns| && ns[j] == x;
    }
  }

  function Erased<K, V>(t: Table<K, V>, b: nat, n: Node<K, V>): Table<K, V>
    requires b < |t| && Sibling(b) < |t|
  {
    var rest := Without(t[b].Nodes(), n);
    if t[b].Shared? then SetPair(t, b, TreeOf(rest)) else t[b := ListOf(rest)]
  }

  function ListOf<K, V>(ns: seq<Node<K, V>>): Bucket<K, V> {
    if ns == [] then Empty else Chain(ns)
  }

  function TreeOf<K, V>(ns: seq<Node<K, V>>): Bucket<K, V> {
    if ns == [] then Empty else Shared(ns)
  }

  // ---------- The operations keep the invariant ----------

  /** Whether key `k` has its home at bucket `b`, or, for a pair, at `b` or its sibling. */
  ghost predicate Here<K>(buckets: nat, hash: K -> nat, b: nat, pair: bool, k: K)
    requires buckets > 0
  {
    if pair then Even(Home(buckets, hash, k)) == Even(b) else Home(buckets, hash, k) == b
  }

  /** `m'` differs from `m` only in keys that are here. */
  ghost predicate SameElsewhere<K, V>(m: map<K, Node<K, V>>, m': map<K, Node<K, V>>, buckets: nat, hash: K -> nat,
      b: nat, pair: bool)
    requires buckets > 0
  {
    && (forall k | k in m && !Here(buckets, hash, b, pair, k) :: k in m' && m[k] == m'[k])
    && (forall k | k in m' && !Here(buckets, hash, b, pair, k) :: k in m)
  }

  /** `ns` are the nodes that `m` has for the keys that are here. */
  ghost predicate Covers<K, V>(ns: seq<Node<K, V>>, m: map<K, Node<K, V>>, buckets: nat, hash: K -> nat, b: nat,
      pair: bool)
    requires buckets > 0
  {
    && DistinctKeys(ns)
    && (forall n | n in ns :: Here(buckets, hash, b, pair, n.key) && n.key in m && m[n.key] == n)
    && (forall k | k in m && Here(buckets, hash, b, pair, k) :: m[k].key == k && m[k] in ns)
  }

  /** A table that differs from `t` in the buckets that are here, and holds there
      what `m'` has for them. */
  lemma ReplacedHolds<K, V>(t: Table<K, V>, t': Table<K, V>, hash: K -> nat, m: map<K, Node<K, V>>,
      m': map<K, Node<K, V>>, b: nat, pair: bool)
    requires |t'| == |t| > 0 && |t| % 2 == 0 && b < |t| && Sibling(b) < |t|
    requires Holds(t, hash, m) && Shaped(t)
    requires forall c: nat | c < |t| && !(c == b || (pair && c == Sibling(b))) :: t'[c] == t[c]
    requires pair ==> !t'[b].Chain? && t'[Sibling(b)] == t'[b]
    requires !pair ==> !t[b].Shared? && !t'[b].Shared?
    requires SameElsewhere(m, m', |t|, hash, b, pair)
    requires Covers(t'[b].Nodes(), m', |t|, hash, b, pair)
    ensures Holds(t', hash, m')
  {
    hide Holds, Covers;
    HoldsBuckets(t, hash, m);
    forall c: nat | c < |t'| ensures BucketOk(t', hash, m', c) {
      if c == b || (pair && c == Sibling(b)) {
        BucketHere(t', hash, m', b, pair, c);
      } else {
        BucketElsewhere(t, t', hash, m, m', b, pair, c);
      }
    }
    forall k | k in m' ensures KeyOk(t', hash, m', k) {
      KeyReplaced(t, t', hash, m, m', b, pair, k);
    }
    HoldsFrom(t', hash, m');
  }

  lemma HoldsBuckets<K, V>(t: Table<K, V>, hash: K -> nat, m: map<K, Node<K, V>>)
    requires |t| > 0 && Holds(t, hash, m)
    ensures forall c: nat | c < |t| :: BucketOk(t, hash, m, c)
    ensures forall k | k in m :: KeyOk(t, hash, m, k)
  {}

  lemma HoldsFrom<K, V>(t: Table<K, V>, hash: K -> nat, m: map<K, Node<K, V>>)
    requires |t| > 0
    requires forall c: nat | c < |t| :: BucketOk(t, hash, m, c)
    requires forall k | k in m :: KeyOk(t, hash, m, k)
    ensures Holds(t, hash, m)
  {}

  lemma BucketHere<K, V>(t': Table<K, V>, hash: K -> nat, m': map<K, Node<K, V>>, b: nat, pair: bool, c: nat)
    requires b < |t'| && c < |t'| && Sibling(b) < |t'| && |t'| % 2 == 0
    requires c == b || (pair && c == Sibling(b))
    requires if pair then !t'[b].Chain? && t'[Sibling(b)] == t'[b] else !t'[b].Shared?
    requires Covers(t'[b].Nodes(), m', |t'|, hash, b, pair)
    ensures BucketOk(t', hash, m', c)
  {
    hide Home;
    SiblingFacts(t', b);
  }

  lemma BucketElsewhere<K, V>(t: Table<K, V>, t': Table<K, V>, hash: K -> nat, m: map<K, Node<K, V>>,
      m': map<K, Node<K, V>>, b: nat, pair: bool, c: nat)
    requires |t'| == |t| > 0 && |t| % 2 == 0 && b < |t| && c < |t| && Shaped(t)
    requires !(c == b || (pair && c == Sibling(b))) && t'[c] == t[c]
    requires !pair ==> !t[b].Shared?
    requires BucketOk(t, hash, m, c)
    requires SameElsewhere(m, m', |t|, hash, b, pair)
    ensures BucketOk(t', hash, m', c)
  {
    hide Home;
    SiblingFacts(t, c);
    SiblingFacts(t, b);
    assert ShapeOk(t, c) && ShapeOk(t, b);
    forall n | n in t[c].Nodes() ensures n.key in m' && m'[n.key] == n && BelongsAt(t', hash, c, n.key) {
      assert BelongsAt(t, hash, c, n.key);
      HomeInPair(t, hash, c, n.key);
      NotHere(c, b, Home(|t|, hash, n.key));
      assert !Here(|t|, hash, b, pair, n.key);
    }
  }

  lemma NotHere(c: nat, b: nat, h: nat)
    requires Even(h) == Even(c)
    ensures Even(h) == Even(b) ==> c == b || c == Sibling(b)
  {}

  /** The home of a key that belongs at `c` is `c` or, if `c` is shared, its sibling. */
  lemma HomeInPair<K, V>(t: Table<K, V>, hash: K -> nat, c: nat, k: K)
    requires |t| % 2 == 0 && c < |t| && BelongsAt(t, hash, c, k)
    ensures Home(|t|, hash, k) == c || (t[c].Shared? && Home(|t|, hash, k) == Sibling(c))
    ensures Even(Home(|t|, hash, k)) == Even(c)
  {
    hide Home;
  }

  lemma KeyReplaced<K, V>(t: Table<K, V>, t': Table<K, V>, hash: K -> nat, m: map<K, Node<K, V>>,
      m': map<K, Node<K, V>>, b: nat, pair: bool, k: K)
    requires |t'| == |t| > 0 && |t| % 2 == 0 && b < |t| && Sibling(b) < |t|
    requires forall c: nat | c < |t| && !(c == b || (pair && c == Sibling(b))) :: t'[c] == t[c]
    requires pair ==> t'[Sibling(b)] == t'[b]
    requires forall x | x in m :: KeyOk(t, hash, m, x)
    requires SameElsewhere(m, m', |t|, hash, b, pair)
    requires Covers(t'[b].Nodes(), m', |t|, hash, b, pair)
    requires k in m'
    ensures KeyOk(t', hash, m', k)
  {
    hide Home, Even, Sibling, DistinctKeys;
    HereMeans(t, hash, b, pair, k);
    if Here(|t|, hash, b, pair, k) {
      hide SameElsewhere;
    } else {
      hide Covers;
      assert KeyOk(t, hash, m, k);
    }
  }

  lemma HereMeans<K, V>(t: Table<K, V>, hash: K -> nat, b: nat, pair: bool, k: K)
    requires |t| % 2 == 0 && b < |t|
    ensures Here(|t|, hash, b, pair, k) <==> Home(|t|, hash, k) == b || (pair && Home(|t|, hash, k) == Sibling(b))
  {
    hide Home;
    SiblingFacts(t, b);
    NotHere(Home(|t|, hash, k), b, Home(|t|, hash, k));
  }

  /** Replacing one bucket that is not shared. */
  lemma SetOneKeeps<K, V>(t: Table<K, V>, hash: K -> nat, m: map<K, Node<K, V>>, b: nat, v: Bucket<K, V>,
      m': map<K, Node<K, V>>)
    requires Represents(t, hash, m) && b < |t|
    requires !t[b].Shared? && !v.Shared? && (v.Chain? ==> 1 <= |v.list| <= MAX_LENGTH)
    requires SameElsewhere(m, m', |t|, hash, b, false)
    requires Covers(v.Nodes(), m', |t|, hash, b, false)
    ensures Represents(t[b := v], hash, m')
  {
    hide IsPowerOfTwo, Holds, Covers, SameElsewhere;
    SiblingFacts(t, b);
    var t' := t[b := v];
    forall c: nat | c < |t'| ensures ShapeOk(t', c) {
      assert ShapeOk(t, c);
      SiblingFacts(t, c);
    }
    ReplacedHolds(t, t', hash, m, m', b, false);
  }

  /** Replacing both buckets of a pair. */
  lemma SetPairKeeps<K, V>(t: Table<K, V>, hash: K -> nat, m: map<K, Node<K, V>>, b: nat, v: Bucket<K, V>,
      m': map<K, Node<K, V>>)
    requires Represents(t, hash, m) && b < |t| && Sibling(b) < |t|
    requires !v.Chain? && (v.Shared? ==> v.tree != [])
    requires SameElsewhere(m, m', |t|, hash, b, true)
    requires Covers(v.Nodes(), m', |t|, hash, b, true)
    ensures Represents(SetPair(t, b, v), hash, m')
  {
    hide IsPowerOfTwo, Holds, Covers, SameElsewhere;
    SiblingFacts(t, b);
    var t' := SetPair(t, b, v);
    forall c: nat | c < |t'| ensures ShapeOk(t', c) {
      assert ShapeOk(t, c);
      SiblingFacts(t, c);
    }
    ReplacedHolds(t, t', hash, m, m', b, true);
  }

  /** The nodes of a list are the map's nodes for its bucket. */
  lemma ListCovers<K, V>(t: Table<K, V>, hash: K -> nat, m: map<K, Node<K, V>>, b: nat)
    requires Represents(t, hash, m) && b < |t| && !t[b].Shared?
    ensures Covers(t[b].Nodes(), m, |t|, hash, b, false)
  {
    hide IsPowerOfTwo, Home;
    assert BucketOk(t, hash, m, b);
    forall k | k in m && Here(|t|, hash, b, false, k) ensures m[k].key == k && m[k] in t[b].Nodes() {
      assert KeyOk(t, hash, m, k);
    }
  }

  /** The nodes of both buckets of a pair are the map's nodes for the pair. */
  lemma PairCovers<K, V>(t: Table<K, V>, hash: K -> nat, m: map<K, Node<K, V>>, b: nat, ns: seq<Node<K, V>>)
    requires Represents(t, hash, m) && b < |t| && Sibling(b) < |t| && DistinctKeys(ns)
    requires forall x :: x in ns <==> x in t[b].Nodes() || x in t[Sibling(b)].Nodes()
    ensures Covers(ns, m, |t|, hash, b, true)
  {
    hide IsPowerOfTwo, Home;
    SiblingFacts(t, b);
    var c := Sibling(b);
    assert BucketOk(t, hash, m, b) && BucketOk(t, hash, m, c);
    forall n | n in ns ensures Here(|t|, hash, b, true, n.key) && n.key in m && m[n.key] == n {
      assert n in t[b].Nodes() ==> BelongsAt(t, hash, b, n.key);
      assert n in t[c].Nodes() ==> BelongsAt(t, hash, c, n.key);
    }
    forall k | k in m && Here(|t|, hash, b, true, k) ensures m[k].key == k && m[k] in ns {
      assert KeyOk(t, hash, m, k);
      NotHere(Home(|t|, hash, k), b, Home(|t|, hash, k));
    }
  }

  /** One node more, or one node less. */
  lemma CoversMore<K, V>(ns: seq<Node<K, V>>, ns': seq<Node<K, V>>, m: map<K, Node<K, V>>, n: Node<K, V>,
      buckets: nat, hash: K -> nat, b: nat, pair: bool)
    requires buckets > 0 && Covers(ns, m, buckets, hash, b, pair)
    requires n.key !in m && Here(buckets, hash, b, pair, n.key)
    requires DistinctKeys(ns') && forall x :: x in ns' <==> x == n || x in ns
    ensures Covers(ns', m[n.key := n], buckets, hash, b, pair)
    ensures SameElsewhere(m, m[n.key := n], buckets, hash, b, pair)
  {
    hide Here;
  }

  lemma CoversLess<K, V>(ns: seq<Node<K, V>>, ns': seq<Node<K, V>>, m: map<K, Node<K, V>>, n: Node<K, V>,
      buckets: nat, hash: K -> nat, b: nat, pair: bool)
    requires buckets > 0 && Covers(ns, m, buckets, hash, b, pair)
    requires n in ns
    requires DistinctKeys(ns') && forall x :: x in ns' <==> x in ns && x != n
    ensures Covers(ns', m - {n.key}, buckets, hash, b, pair)
    ensures SameElsewhere(m, m - {n.key}, buckets, hash, b, pair)
  {
    hide Here;
  }

  lemma PushFrontKeeps<K, V>(t: Table<K, V>, hash: K -> nat, m: map<K, Node<K, V>>, b: nat, n: Node<K, V>)
    requires Represents(t, hash, m) && b < |t|
    requires t[b].Empty? || (t[b].Chain? && |t[b].list| < MAX_LENGTH)
    requires n.key !in m && Home(|t|, hash, n.key) == b
    ensures Represents(PushFront(t, b, n), hash, m[n.key := n])
  {
    hide Represents;
    ListCovers(t, hash, m, b);
    var ns := [n] + t[b].Nodes();
    assert DistinctKeys(ns);
    CoversMore(t[b].Nodes(), ns, m, n, |t|, hash, b, false);
    SetOneKeeps(t, hash, m, b, Chain(ns), m[n.key := n]);
  }

  lemma ConvertKeeps<K, V>(less: (K, K) -> bool, t: Table<K, V>, hash: K -> nat, m: map<K, Node<K, V>>, b: nat)
    requires Represents(t, hash, m) && b < |t| && t[b].Chain?
    ensures Sibling(b) < |t| && Represents(Convert(less, t, b), hash, m)
    ensures Convert(less, t, b)[b].Shared?
  {
    hide IsPowerOfTwo, Home;
    SiblingFacts(t, b);
    var c := Sibling(b);
    assert ShapeOk(t, b) && ShapeOk(t, c);
    assert BucketOk(t, hash, m, b) && BucketOk(t, hash, m, c);
    forall x, y | x in t[b].Nodes() && y in t[c].Nodes() ensures x.key != y.key {
      assert BelongsAt(t, hash, b, x.key) && BelongsAt(t, hash, c, y.key);
    }
    PairNodes(less, t[b].Nodes(), t[c].Nodes());
    var ns := TreeAddAll(less, [], t[b].Nodes() + t[c].Nodes());
    PairCovers(t, hash, m, b, ns);
    assert t[b].list[0] in ns;
    SetPairKeeps(t, hash, m, b, Shared(ns), m);
  }

  lemma PairNodes<K, V>(less: (K, K) -> bool, a: seq<Node<K, V>>, b: seq<Node<K, V>>)
    requires DistinctKeys(a) && DistinctKeys(b)
    requires forall x, y | x in a && y in b :: x.key != y.key
    ensures var tree := TreeAddAll(less, [], a + b);
      && DistinctKeys(tree) && |tree| == |a| + |b|
      && forall x :: x in tree <==> x in a || x in b
  {
    assert DistinctKeys(a + b) by {
      forall i, j | 0 <= i < j < |a + b| ensures (a + b)[i].key != (a + b)[j].key {
        if i < |a| <= j {
          assert a[i] in a && b[j - |a|] in b;
        }
      }
    }
    TreeAddAllNodes(less, [], a + b);
  }

  lemma AddToTreeKeeps<K, V>(less: (K, K) -> bool, t: Table<K, V>, hash: K -> nat, m: map<K, Node<K, V>>, b: nat,
      n: Node<K, V>)
    requires Represents(t, hash, m) && b < |t| && t[b].Shared?
    requires n.key !in m && Even(Home(|t|, hash, n.key)) == Even(b)
    ensures Sibling(b) < |t| && Represents(AddToTree(less, t, b, n), hash, m[n.key := n])
  {
    hide IsPowerOfTwo, Home, TreeAdd;
    SiblingFacts(t, b);
    assert BucketOk(t, hash, m, b) && ShapeOk(t, b);
    var ns := t[b].Nodes();
    PairCovers(t, hash, m, b, ns);
    assert forall x | x in ns :: x.key in m;
    TreeAddNodes(less, ns, n);
    CoversMore(ns, TreeAdd(less, ns, n), m, n, |t|, hash, b, true);
    SetPairKeeps(t, hash, m, b, Shared(TreeAdd(less, ns, n)), m[n.key := n]);
  }

  /** Inserting a new key: the table then represents the extended map. */
  lemma InsertedKeeps<K, V>(less: (K, K) -> bool, t: Table<K, V>, hash: K -> nat, m: map<K, Node<K, V>>, b: nat,
      n: Node<K, V>)
    requires Represents(t, hash, m) && b < |t|
    requires n.key !in m && BelongsAt(t, hash, b, n.key)
    ensures Sibling(b) < |t| && Represents(Inserted(less, t, b, n), hash, m[n.key := n])
  {
    SiblingFacts(t, b);
    hide Represents, Home, PushFront, Convert, AddToTree;
    match t[b]
    case Empty => PushFrontKeeps(t, hash, m, b, n);
    case Shared(_) => AddToTreeKeeps(less, t, hash, m, b, n);
    case Chain(ns) =>
      if |ns| >= MAX_LENGTH {
        ConvertKeeps(less, t, hash, m, b);
        ConvertSize(less, t, b);
        AddToTreeKeeps(less, Convert(less, t, b), hash, m, b, n);
      } else {
        PushFrontKeeps(t, hash, m, b, n);
      }
  }

  lemma ConvertSize<K, V>(less: (K, K) -> bool, t: Table<K, V>, b: nat)
    requires b < |t| && Sibling(b) < |t|
    ensures |Convert(less, t, b)| == |t|
  {}

  /** Erasing a node: the table then represents the map without its key. */
  lemma ErasedKeeps<K, V>(t: Table<K, V>, hash: K -> nat, m: map<K, Node<K, V>>, b: nat, n: Node<K, V>)
    requires Represents(t, hash, m) && b < |t| && n in t[b].Nodes()
    ensures Sibling(b) < |t| && Represents(Erased(t, b, n), hash, m - {n.key})
  {
    hide IsPowerOfTwo, Home, Without;
    SiblingFacts(t, b);
    var ns := t[b].Nodes();
    assert BucketOk(t, hash, m, b) && ShapeOk(t, b);
    WithoutNodes(ns, n);
    var rest := Without(ns, n);
    if t[b].Shared? {
      PairCovers(t, hash, m, b, ns);
      hide Represents;
      CoversLess(ns, rest, m, n, |t|, hash, b, true);
      SetPairKeeps(t, hash, m, b, if rest == [] then Empty else Shared(rest), m - {n.key});
    } else {
      ListCovers(t, hash, m, b);
      hide Represents;
      CoversLess(ns, rest, m, n, |t|, hash, b, false);
      SetOneKeeps(t, hash, m, b, if rest == [] then Empty else Chain(rest), m - {n.key});
    }
  }
}
