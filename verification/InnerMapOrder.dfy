/** What follows from the invariant of the bucket table: the order in which its nodes
    are visited, how the first bucket moves, and how the nodes of an old table move
    into a new one. */
module InnerMapOrder {
  import opened InnerMapSpec

  /** A place where the scans over the buckets may stop: never the second bucket of a
      shared pair. */
  ghost predicate Boundary<K, V>(t: Table<K, V>, b: nat) {
    b <= |t| && (b < |t| && t[b].Shared? ==> b % 2 == 0)
  }

  /** The next place of a scan: both buckets of a shared pair count as one. */
  function After<K, V>(t: Table<K, V>, b: nat): nat
    requires b < |t|
  {
    if t[b].Shared? then b + 2 else b + 1
  }

  lemma SharedPair<K, V>(t: Table<K, V>, b: nat)
    requires Shaped(t) && b < |t| && t[b].Shared?
    ensures b % 2 == 0 ==> b + 1 < |t| && t[b + 1].Shared?
    ensures b % 2 == 1 ==> t[b - 1].Shared?
  {
    assert ShapeOk(t, b);
  }

  lemma AfterIsBoundary<K, V>(t: Table<K, V>, b: nat)
    requires Shaped(t) && Boundary(t, b) && b < |t|
    ensures Boundary(t, After(t, b))
  {
    if t[b].Shared? {
      SharedPair(t, b);
    }
    if After(t, b) < |t| && t[After(t, b)].Shared? {
      SharedPair(t, After(t, b));
    }
  }

  // ---------- The order of iteration ----------

  ghost function OrderFrom<K, V>(t: Table<K, V>, b: nat): seq<Node<K, V>>
    decreases |t| - b
  {
    if b >= |t| then [] else t[b].Nodes() + OrderFrom(t, After(t, b))
  }

  /** From bucket `b` on, every node of the map whose home is not before `b` comes
      exactly once. */
  ghost predicate VisitsFrom<K, V>(ns: seq<Node<K, V>>, t: Table<K, V>, hash: K -> nat, m: map<K, Node<K, V>>, b: nat)
    requires |t| > 0
  {
    && DistinctKeys(ns)
    && (forall n | n in ns :: n.key in m && m[n.key] == n && Home(|t|, hash, n.key) >= b)
    && (forall k | k in m && Home(|t|, hash, k) >= b :: m[k] in ns)
  }

  lemma {:induction false} OrderVisits<K, V>(t: Table<K, V>, hash: K -> nat, m: map<K, Node<K, V>>, b: nat)
    requires Represents(t, hash, m) && Boundary(t, b)
    ensures VisitsFrom(OrderFrom(t, b), t, hash, m, b)
    decreases |t| - b
  {
    if b < |t| {
      AfterIsBoundary(t, b);
      OrderVisits(t, hash, m, After(t, b));
      BucketCovers(t, hash, m, b);
      VisitsMore(t, hash, m, b, t[b].Nodes(), OrderFrom(t, After(t, b)));
    } else {
      hide Home;
    }
  }

  /** The nodes at a boundary are those of the keys with their home from there to the
      next boundary. */
  lemma BucketCovers<K, V>(t: Table<K, V>, hash: K -> nat, m: map<K, Node<K, V>>, b: nat)
    requires Represents(t, hash, m) && Boundary(t, b) && b < |t|
    ensures DistinctKeys(t[b].Nodes())
    ensures forall n | n in t[b].Nodes() :: n.key in m && m[n.key] == n && b <= Home(|t|, hash, n.key) < After(t, b)
    ensures forall k | k in m && b <= Home(|t|, hash, k) < After(t, b) :: m[k] in t[b].Nodes()
  {
    hide IsPowerOfTwo, Home;
    SiblingFacts(t, b);
    if t[b].Shared? {
      assert ShapeOk(t, b);
      assert BucketOk(t, hash, m, b);
      PairCovers(t, hash, m, b, t[b].Nodes());
      forall k: K ensures Here(|t|, hash, b, true, k) <==> b <= Home(|t|, hash, k) < b + 2 {
        HereMeans(t, hash, b, true, k);
      }
    } else {
      ListCovers(t, hash, m, b);
    }
  }

  lemma VisitsMore<K, V>(t: Table<K, V>, hash: K -> nat, m: map<K, Node<K, V>>, b: nat, ns: seq<Node<K, V>>,
      rest: seq<Node<K, V>>)
    requires b < |t| && DistinctKeys(ns) && VisitsFrom(rest, t, hash, m, After(t, b))
    requires forall n | n in ns :: n.key in m && m[n.key] == n && b <= Home(|t|, hash, n.key) < After(t, b)
    requires forall k | k in m && b <= Home(|t|, hash, k) < After(t, b) :: m[k] in ns
    ensures VisitsFrom(ns + rest, t, hash, m, b)
  {
    hide Home;
    forall i, j | 0 <= i < j < |ns + rest| ensures (ns + rest)[i].key != (ns + rest)[j].key {
      if i < |ns| <= j {
        assert ns[i] in ns && rest[j - |ns|] in rest;
      }
    }
  }

  /** A sequence of exactly the nodes of a map, each once, is as long as the map. */
  lemma {:induction false} AsManyAsKeys<K, V>(ns: seq<Node<K, V>>, m: map<K, Node<K, V>>)
    requires DistinctKeys(ns)
    requires forall n | n in ns :: n.key in m && m[n.key] == n
    requires forall k | k in m :: m[k] in ns && m[k].key == k
    ensures |ns| == |m|
    decreases |ns|
  {
    if ns == [] {
      assert m.Keys == {};
    } else {
      var k := ns[0].key;
      assert ns[0] in ns;
      HeadIsNew(ns);
      var m' := m - {k};
      assert m.Keys == m'.Keys + {k};
      forall n | n in ns[1..] ensures n.key in m' && m'[n.key] == n {
        assert n in ns;
      }
      forall x | x in m' ensures m'[x] in ns[1..] && m'[x].key == x {
        assert ns == [ns[0]] + ns[1..];
      }
      AsManyAsKeys(ns[1..], m');
    }
  }

  /** Iterating visits every node of the map exactly once, and nothing else. */
  lemma OrderIsContents<K, V>(t: Table<K, V>, hash: K -> nat, m: map<K, Node<K, V>>)
    requires Represents(t, hash, m)
    ensures DistinctKeys(OrderFrom(t, 0))
    ensures forall n :: n in OrderFrom(t, 0) <==> n.key in m && m[n.key] == n
    ensures |OrderFrom(t, 0)| == |m|
  {
    assert forall k | k in m :: KeyOk(t, hash, m, k);
    hide Represents, Home, OrderFrom;
    assert Boundary(t, 0);
    OrderVisits(t, hash, m, 0);
    AsManyAsKeys(OrderFrom(t, 0), m);
  }

  /** The order from any boundary is a suffix of the whole order. */
  lemma {:induction false} OrderSplits<K, V>(t: Table<K, V>, c: nat, b: nat) returns (before: seq<Node<K, V>>)
    requires Shaped(t) && Boundary(t, c) && Boundary(t, b) && c <= b
    ensures OrderFrom(t, c) == before + OrderFrom(t, b)
    decreases b - c
  {
    if c == b {
      before := [];
    } else {
      AfterStays(t, c, b);
      hide Shaped, Boundary;
      var rest := OrderSplits(t, After(t, c), b);
      OrderStep(t, c);
      var ns, later := t[c].Nodes(), OrderFrom(t, b);
      before := ns + rest;
      assert ns + (rest + later) == before + later;
    }
  }

  lemma AfterStays<K, V>(t: Table<K, V>, c: nat, b: nat)
    requires Shaped(t) && Boundary(t, c) && Boundary(t, b) && c < b
    ensures Boundary(t, After(t, c)) && c < After(t, c) <= b
  {
    AfterIsBoundary(t, c);
    if t[c].Shared? {
      SharedPair(t, c);
    }
  }

  lemma OrderStep<K, V>(t: Table<K, V>, b: nat)
    requires b < |t|
    ensures OrderFrom(t, b) == t[b].Nodes() + OrderFrom(t, After(t, b))
  {}

  /** The node at position `p`, or null past the end. */
  ghost function At<K, V>(ns: seq<Node<K, V>>, p: nat): Node?<K, V> {
    if p < |ns| then ns[p] else null
  }

  /** What comes after the `j`-th node of the bucket at a boundary. */
  lemma NextInOrder<K, V>(t: Table<K, V>, hash: K -> nat, m: map<K, Node<K, V>>, b: nat, j: nat, p: nat)
    requires Represents(t, hash, m) && Boundary(t, b) && b < |t| && j < |t[b].Nodes()|
    requires p < |OrderFrom(t, 0)| && OrderFrom(t, 0)[p] == t[b].Nodes()[j]
    ensures At(OrderFrom(t, 0), p + 1)
         == if j + 1 < |t[b].Nodes()| then t[b].Nodes()[j + 1] else At(OrderFrom(t, After(t, b)), 0)
  {
    OrderIsContents(t, hash, m);
    var before := OrderSplits(t, 0, b);
    OrderStep(t, b);
    NextInParts(OrderFrom(t, 0), before, t[b].Nodes(), OrderFrom(t, After(t, b)), j, p);
  }

  lemma NextInParts<K, V>(order: seq<Node<K, V>>, before: seq<Node<K, V>>, ns: seq<Node<K, V>>, rest: seq<Node<K, V>>,
      j: nat, p: nat)
    requires DistinctKeys(order) && order == before + (ns + rest)
    requires p < |order| && j < |ns| && order[p] == ns[j]
    ensures At(order, p + 1) == if j + 1 < |ns| then ns[j + 1] else At(rest, 0)
  {
    SameKeySameIndex(order, p, |before| + j);
  }

  lemma SameKeySameIndex<K, V>(ns: seq<Node<K, V>>, i: nat, j: nat)
    requires DistinctKeys(ns) && i < |ns| && j < |ns| && ns[i] == ns[j]
    ensures i == j
  {}

  // ---------- The first bucket ----------

  function Min(a: nat, b: nat): nat {
    if a < b then a else b
  }

  lemma FirstIsBoundary<K, V>(t: Table<K, V>, first: nat)
    requires Shaped(t) && IsFirst(t, first)
    ensures Boundary(t, first)
  {
    if first < |t| && t[first].Shared? {
      SharedPair(t, first);
    }
  }

  lemma FirstOfOne<K, V>(t: Table<K, V>, first: nat, b: nat, v: Bucket<K, V>)
    requires IsFirst(t, first) && b < |t| && !v.Empty?
    ensures IsFirst(t[b := v], Min(first, b))
  {}

  lemma FirstOfPair<K, V>(t: Table<K, V>, first: nat, b: nat, v: Bucket<K, V>)
    requires IsFirst(t, first) && b < |t| && |t| % 2 == 0 && !v.Empty?
    ensures Sibling(b) < |t| && IsFirst(SetPair(t, b, v), Min(first, Even(b)))
  {
    SiblingFacts(t, b);
  }

  // ---------- Moving into a new table ----------

  ghost function WithNodes<K, V>(m: map<K, Node<K, V>>, ns: seq<Node<K, V>>): map<K, Node<K, V>>
    decreases |ns|
  {
    if ns == [] then m else WithNodes(m[ns[0].key := ns[0]], ns[1..])
  }

  lemma {:induction false} WithNodesFacts<K, V>(m: map<K, Node<K, V>>, ns: seq<Node<K, V>>)
    requires DistinctKeys(ns) && forall n | n in ns :: n.key !in m
    ensures forall n | n in ns :: n.key in WithNodes(m, ns) && WithNodes(m, ns)[n.key] == n
    ensures forall k | k in m :: k in WithNodes(m, ns) && WithNodes(m, ns)[k] == m[k]
    ensures forall k | k in WithNodes(m, ns) && k !in m :: WithNodes(m, ns)[k] in ns && WithNodes(m, ns)[k].key == k
    decreases |ns|
  {
    if ns != [] {
      HeadIsNew(ns);
      var m' := m[ns[0].key := ns[0]];
      forall n | n in ns[1..] ensures n.key !in m' {
        assert n in ns;
      }
      WithNodesFacts(m', ns[1..]);
      assert ns == [ns[0]] + ns[1..];
      assert ns[0].key in m';
    }
  }

  /** The nodes of the buckets before `b` of table `t` have been moved. */
  ghost predicate Moved<K, V>(t: Table<K, V>, hash: K -> nat, m: map<K, Node<K, V>>, done: map<K, Node<K, V>>, b: nat)
    requires |t| > 0
  {
    && (forall k | k in done :: k in m && done[k] == m[k])
    && (forall k | k in m :: k in done <==> Home(|t|, hash, k) < b)
  }

  lemma MovedStart<K, V>(t: Table<K, V>, hash: K -> nat, m: map<K, Node<K, V>>, first: nat)
    requires Represents(t, hash, m) && IsFirst(t, first)
    ensures Boundary(t, first) && Moved(t, hash, m, map[], first)
  {
    hide IsPowerOfTwo, Home;
    FirstIsBoundary(t, first);
    forall k | k in m ensures Home(|t|, hash, k) >= first {
      assert KeyOk(t, hash, m, k);
    }
  }

  lemma MovedMore<K, V>(t: Table<K, V>, hash: K -> nat, m: map<K, Node<K, V>>, done: map<K, Node<K, V>>, b: nat)
    requires Represents(t, hash, m) && Boundary(t, b) && b < |t| && Moved(t, hash, m, done, b)
    ensures Boundary(t, After(t, b))
    ensures DistinctKeys(t[b].Nodes()) && forall n | n in t[b].Nodes() :: n.key !in done
    ensures Moved(t, hash, m, WithNodes(done, t[b].Nodes()), After(t, b))
  {
    AfterIsBoundary(t, b);
    BucketCovers(t, hash, m, b);
    hide Represents, Home, Boundary, DistinctKeys, WithNodes;
    var ns := t[b].Nodes();
    WithNodesFacts(done, ns);
    assert b <= After(t, b);
    hide After;
    MovedBy(t, hash, m, done, WithNodes(done, ns), ns, b, After(t, b));
  }

  lemma MovedBy<K, V>(t: Table<K, V>, hash: K -> nat, m: map<K, Node<K, V>>, done: map<K, Node<K, V>>,
      done': map<K, Node<K, V>>,
      ns: seq<Node<K, V>>, b: nat, b': nat)
    requires |t| > 0 && b <= b' && Moved(t, hash, m, done, b)
    requires forall n | n in ns :: n.key in m && m[n.key] == n && b <= Home(|t|, hash, n.key) < b'
    requires forall k | k in m && b <= Home(|t|, hash, k) < b' :: m[k] in ns
    requires forall k | k in m :: m[k].key == k
    requires forall n | n in ns :: n.key in done' && done'[n.key] == n
    requires forall k | k in done :: k in done' && done'[k] == done[k]
    requires forall k | k in done' && k !in done :: done'[k] in ns && done'[k].key == k
    ensures Moved(t, hash, m, done', b')
  {
    hide Home;
  }

  lemma MovedAll<K, V>(t: Table<K, V>, hash: K -> nat, m: map<K, Node<K, V>>, done: map<K, Node<K, V>>)
    requires |t| > 0 && Moved(t, hash, m, done, |t|)
    ensures done == m
  {
    hide Home;
    assert forall k | k in m :: Home(|t|, hash, k) < |t|;
    assert done.Keys == m.Keys;
  }

  // ---------- How many buckets ----------

  const MAX_SIZE: nat := 0x1000_0000_0000_0000

  /** `x << k` and `x >> k`. */
  function ShiftLeft(x: nat, k: nat): nat {
    if k == 0 then x else 2 * ShiftLeft(x, k - 1)
  }

  function ShiftRight(x: nat, k: nat): nat {
    if k == 0 then x else ShiftRight(x / 2, k - 1)
  }

  function HighCutoff(buckets: nat): nat {
    buckets * 12 / 16
  }

  /** The first shift from `k` on that brings `x` to the cutoff. */
  ghost function LeastShift(x: nat, cutoff: nat, k: nat): nat
    requires x > 0
    decreases cutoff - ShiftLeft(x, k)
  {
    ShiftGrows(x, k);
    if ShiftLeft(x, k) < cutoff then LeastShift(x, cutoff, k + 1) else k
  }

  lemma {:induction false} ShiftGrows(x: nat, k: nat)
    requires x > 0
    ensures 0 < ShiftLeft(x, k) < ShiftLeft(x, k + 1)
  {
    if k > 0 {
      ShiftGrows(x, k - 1);
    }
  }

  /** How many buckets the table has after it is asked to make room for `size` elements. */
  ghost function NextSize(buckets: nat, size: nat): nat {
    var hi := HighCutoff(buckets);
    if size >= hi then
      if buckets <= MAX_SIZE / 2 then buckets * 2 else buckets
    else if size <= hi / 4 && buckets > MIN_TABLE_SIZE then
      var shrunk := ShiftRight(buckets, LeastShift(size * 5 / 4 + 1, hi, 1));
      if shrunk > MIN_TABLE_SIZE then shrunk else MIN_TABLE_SIZE
    else
      buckets
  }

  function Pow2(k: nat): (p: nat)
    ensures p > 0
  {
    if k == 0 then 1 else 2 * Pow2(k - 1)
  }

  lemma {:induction false} ShiftLeftIs(x: nat, k: nat)
    ensures ShiftLeft(x, k) == x * Pow2(k)
  {
    if k > 0 {
      ShiftLeftIs(x, k - 1);
      TimesTwice(x, Pow2(k - 1));
    }
  }

  lemma TimesTwice(x: nat, p: nat)
    ensures 2 * (x * p) == x * (2 * p)
  {}

  lemma {:induction false} ShiftRightIs(x: nat, k: nat)
    ensures ShiftRight(x, k) == x / Pow2(k)
  {
    if k > 0 {
      ShiftRightIs(x / 2, k - 1);
      DivideTwice(x, Pow2(k - 1));
    }
  }

  lemma DivideTwice(x: nat, p: nat)
    requires p > 0
    ensures 2 * p > 0 && x / 2 / p == x / (2 * p)
  {
    var q, h := x / 2 / p, x / 2;
    var a, c := h % p, x % 2;
    assert h == p * q + a;
    TimesTwice(p, q);
    assert x == 2 * h + c == 2 * p * q + (2 * a + c);
    QuotientIs(x, 2 * p, q, 2 * a + c);
  }

  lemma QuotientIs(x: nat, d: nat, q: nat, a: nat)
    requires a < d && x == d * q + a
    ensures x / d == q
  {
    var q' := x / d;
    assert d * q' <= x < d * q' + d;
    if q' < q {
      OneMore(d, q', q);
    } else if q' > q {
      OneMore(d, q, q');
    }
  }

  lemma {:induction false} OneMore(d: nat, q: nat, q': nat)
    requires q < q'
    ensures d * q + d <= d * q'
    decreases q'
  {
    if q + 1 < q' {
      OneMore(d, q, q' - 1);
    }
  }

  /** No lesser shift brings `x` to the cutoff. */
  lemma {:induction false} LeastShiftIs(x: nat, cutoff: nat, k: nat)
    requires x > 0
    ensures var s := LeastShift(x, cutoff, k);
      && k <= s && x * Pow2(s) >= cutoff
      && (forall j | k <= j < s :: x * Pow2(j) < cutoff)
    decreases cutoff - ShiftLeft(x, k)
  {
    ShiftGrows(x, k);
    ShiftLeftIs(x, k);
    if ShiftLeft(x, k) < cutoff {
      LeastShiftIs(x, cutoff, k + 1);
    }
  }

  /** The number of buckets in numbers. Up to 3/16 of the load is low, from 12/16 on it is
      high; a table shrinks to the greatest size that leaves room for a quarter more. */
  lemma NextSizeExact(buckets: nat, size: nat) returns (k: nat)
    ensures size >= buckets * 12 / 16 ==>
      NextSize(buckets, size) == if buckets <= 0x800_0000_0000_0000 then 2 * buckets else buckets
    ensures buckets * 12 / 16 / 4 < size < buckets * 12 / 16 || (size < buckets * 12 / 16 && buckets <= 8) ==>
      NextSize(buckets, size) == buckets
    ensures size < buckets * 12 / 16 && size <= buckets * 12 / 16 / 4 && buckets > 8 ==>
      && 1 <= k && (size * 5 / 4 + 1) * Pow2(k) >= buckets * 12 / 16
      && (forall j | 1 <= j < k :: (size * 5 / 4 + 1) * Pow2(j) < buckets * 12 / 16)
      && NextSize(buckets, size) == if buckets / Pow2(k) > 8 then buckets / Pow2(k) else 8
  {
    var x, hi := size * 5 / 4 + 1, buckets * 12 / 16;
    k := LeastShift(x, hi, 1);
    LeastShiftIs(x, hi, 1);
    ShiftRightIs(buckets, k);
    assert HighCutoff(buckets) == hi;
    hide ShiftRight, LeastShift, Pow2;
  }

  /** Growing and shrinking keep the number of buckets a power of two of at least 8,
      and within the largest size. */
  lemma NextSizeFits(buckets: nat, size: nat)
    requires IsPowerOfTwo(buckets) && MIN_TABLE_SIZE <= buckets
    ensures IsPowerOfTwo(NextSize(buckets, size)) && MIN_TABLE_SIZE <= NextSize(buckets, size)
    ensures NextSize(buckets, size) <= buckets * 2
    ensures buckets <= MAX_SIZE ==> NextSize(buckets, size) <= MAX_SIZE
  {
    hide LeastShift, ShiftRight, IsPowerOfTwo;
    MinimumIsPower();
    DoubleIsPower(buckets);
    if size * 5 / 4 + 1 > 0 {
      ShiftRightKeepsPower(buckets, LeastShift(size * 5 / 4 + 1, HighCutoff(buckets), 1));
    }
    hide HighCutoff;
  }

  lemma MinimumIsPower()
    ensures IsPowerOfTwo(MIN_TABLE_SIZE)
  {
    assert IsPowerOfTwo(2);
    assert IsPowerOfTwo(4);
  }

  lemma DoubleIsPower(n: nat)
    requires IsPowerOfTwo(n)
    ensures IsPowerOfTwo(n * 2)
  {}

  lemma {:induction false} ShiftRightKeepsPower(x: nat, k: nat)
    requires x == 0 || IsPowerOfTwo(x)
    ensures ShiftRight(x, k) == 0 || IsPowerOfTwo(ShiftRight(x, k))
    ensures ShiftRight(x, k) <= x
  {
    if k > 0 {
      ShiftRightKeepsPower(x / 2, k - 1);
    }
  }
}
