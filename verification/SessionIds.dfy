/** Session ids: the clock in seconds times 100000 plus a counter that runs through
    1..100000. `times` are all clock readings since the start, one per candidate. */
module SessionIds {

  const SPAN: int := 100000

  /** The counter at candidate number `i`. */
  function Counter(i: nat): int {
    i % SPAN + 1
  }

  function Candidate(times: seq<int>, i: nat): int
    requires i < |times|
  {
    times[i] * SPAN + Counter(i)
  }

  /** The code's own step of the counter. */
  lemma CounterStep(i: nat)
    ensures 1 <= Counter(i) <= SPAN
    ensures Counter(i + 1) == Counter(i) % SPAN + 1
  {
    if i % SPAN == SPAN - 1 {
      assert (i + 1) % SPAN == 0;
    } else {
      assert (i + 1) % SPAN == i % SPAN + 1;
    }
  }

  lemma SameResidue(i: nat, j: nat)
    requires i < j
    ensures Counter(i) == Counter(j) <==> (j - i) % SPAN == 0
  {
    var d := j - i;
    assert j == (i / SPAN + d / SPAN) * SPAN + (i % SPAN + d % SPAN);
    if i % SPAN + d % SPAN < SPAN {
      assert j % SPAN == i % SPAN + d % SPAN;
    } else {
      assert j == (i / SPAN + d / SPAN + 1) * SPAN + (i % SPAN + d % SPAN - SPAN);
      assert j % SPAN == i % SPAN + d % SPAN - SPAN;
    }
  }

  /** Whatever the clock does, two candidates coincide only if their counters do. */
  lemma EqualCandidates(times: seq<int>, i: nat, j: nat)
    requires i < j < |times|
    ensures Candidate(times, i) == Candidate(times, j) <==> times[i] == times[j] && (j - i) % SPAN == 0
  {
    SameResidue(i, j);
    CounterStep(i);
    CounterStep(j);
    if Candidate(times, i) == Candidate(times, j) {
      assert (times[i] - times[j]) * SPAN == Counter(j) - Counter(i);
    }
  }

  /** Any 100000 consecutive candidates are pairwise distinct, for any clock. */
  lemma ConsecutiveDistinct(times: seq<int>, i: nat, j: nat)
    requires i < j < |times| && j - i < SPAN
    ensures Candidate(times, i) != Candidate(times, j)
  {
    EqualCandidates(times, i, j);
  }

  ghost predicate NonDecreasing(times: seq<int>) {
    forall i, j | 0 <= i <= j < |times| :: times[i] <= times[j]
  }

  ghost function DrawsIn(times: seq<int>, t: int): set<int> {
    set i | 0 <= i < |times| && times[i] == t
  }

  /** At most 100000 candidates are drawn in any one second. */
  ghost predicate RateRespected(times: seq<int>) {
    forall t :: |DrawsIn(times, t)| <= SPAN
  }

  ghost predicate AllDistinct(times: seq<int>) {
    forall i, j | 0 <= i < j < |times| :: Candidate(times, i) != Candidate(times, j)
  }

  function Range(from: int, to: int): (r: set<int>)
    ensures forall x :: x in r <==> from <= x < to
    decreases if from < to then to - from else 0
  {
    if from >= to then {} else Range(from, to - 1) + {to - 1}
  }

  lemma {:induction false} RangeSize(from: int, to: int)
    requires from <= to
    ensures |Range(from, to)| == to - from
    decreases if from < to then to - from else 0
  {
    if from < to {
      RangeSize(from, to - 1);
    }
  }

  lemma SubsetSize(a: set<int>, b: set<int>)
    requires a <= b
    ensures |a| <= |b|
  {
    assert b == a + (b - a);
  }

  /** With a clock that never goes back, ids are never repeated over a whole run if
      and only if no second sees more than 100000 candidates. */
  lemma DistinctIffRate(times: seq<int>)
    requires NonDecreasing(times)
    ensures AllDistinct(times) <==> RateRespected(times)
  {
    if RateRespected(times) {
      forall i, j | 0 <= i < j < |times| ensures Candidate(times, i) != Candidate(times, j) {
        if Candidate(times, i) == Candidate(times, j) {
          EqualCandidates(times, i, j);
          CrowdedSecond(times, i, j);
        }
      }
    } else {
      var t :| |DrawsIn(times, t)| > SPAN;
      var i, j := FarApart(times, t);
      EqualCandidates(times, i, i + SPAN);
      assert times[i] <= times[i + SPAN] <= times[j];
      assert Candidate(times, i) == Candidate(times, i + SPAN);
    }
  }

  /** No second is that crowded exactly if any two draws 100000 apart are in different seconds. */
  lemma RateInNumbers(times: seq<int>)
    requires NonDecreasing(times)
    ensures RateRespected(times) <==> forall i | 0 <= i && i + 100000 < |times| :: times[i] < times[i + 100000]
  {
    if RateRespected(times) {
      forall i | 0 <= i && i + SPAN < |times| ensures times[i] < times[i + SPAN] {
        if times[i] == times[i + SPAN] {
          CrowdedSecond(times, i, i + SPAN);
        }
      }
    } else {
      var t :| |DrawsIn(times, t)| > SPAN;
      var i, j := FarApart(times, t);
      assert times[i] <= times[i + SPAN] <= times[j];
    }
  }

  lemma CrowdedSecond(times: seq<int>, i: nat, j: nat)
    requires NonDecreasing(times) && i < j < |times| && times[i] == times[j] && (j - i) % SPAN == 0
    ensures !RateRespected(times)
  {
    hide Range;
    assert j - i >= SPAN;
    assert Range(i, j + 1) <= DrawsIn(times, times[i]) by {
      forall x | x in Range(i, j + 1) ensures x in DrawsIn(times, times[i]) {
        assert times[i] <= times[x] <= times[j];
      }
    }
    SubsetSize(Range(i, j + 1), DrawsIn(times, times[i]));
    RangeSize(i, j + 1);
  }

  /** More than 100000 draws of one second cannot all be near the first of them. */
  lemma FarApart(times: seq<int>, t: int) returns (i: int, j: int)
    requires |DrawsIn(times, t)| > SPAN
    ensures 0 <= i && i + SPAN <= j < |times| && times[i] == t == times[j]
  {
    hide Range;
    var draws := DrawsIn(times, t);
    i := First(times, t);
    RangeSize(i, i + SPAN);
    if draws <= Range(i, i + SPAN) {
      SubsetSize(draws, Range(i, i + SPAN));
    }
    j :| j in draws && j !in Range(i, i + SPAN);
  }

  lemma First(times: seq<int>, t: int) returns (i: int)
    requires DrawsIn(times, t) != {}
    ensures i in DrawsIn(times, t) && forall x | x in DrawsIn(times, t) :: i <= x
  {
    i := 0;
    var some :| some in DrawsIn(times, t);
    while times[i] != t
      invariant 0 <= i <= some < |times|
      invariant forall x | 0 <= x < i :: times[x] != t
      decreases some - i
    {
      i := i + 1;
    }
  }

  /** The candidates numbered `from` and later. */
  ghost function Tried(times: seq<int>, from: nat): set<int>
    requires from <= |times|
  {
    set i | from <= i < |times| :: Candidate(times, i)
  }

  /** Pigeonhole: a stretch of at most 100000 candidates has as many values. */
  lemma {:induction false} TriedSize(times: seq<int>, from: nat)
    requires from <= |times| <= from + SPAN
    ensures |Tried(times, from)| == |times| - from
    decreases |times|
  {
    if from < |times| {
      var last := |times| - 1;
      var before := times[..last];
      TriedSize(before, from);
      forall i | from <= i < last ensures Candidate(before, i) == Candidate(times, i) != Candidate(times, last) {
        ConsecutiveDistinct(times, i, last);
      }
      assert Tried(times, from) == Tried(before, from) + {Candidate(times, last)};
    } else {
      assert Tried(times, from) == {};
    }
  }

  // ---------- When the search ends ----------

  /** No live id is congruent to the counter value `c`. */
  ghost predicate Unused(live: set<int>, c: int) {
    forall id | id in live :: (id - c) % SPAN != 0
  }

  ghost predicate SomeFree(live: set<int>) {
    exists c :: 1 <= c <= SPAN && Unused(live, c)
  }

  /** All candidates from number `from` on are live. */
  ghost predicate AllTaken(times: seq<int>, from: nat, live: set<int>) {
    forall i | from <= i < |times| :: Candidate(times, i) in live
  }

  /** How many draws after number `from` the counter comes to `c`. */
  function Distance(from: nat, c: int): nat {
    (c - 1 - from) % SPAN
  }

  lemma DistanceReaches(from: nat, c: int)
    requires 1 <= c <= SPAN
    ensures Distance(from, c) < SPAN && Counter(from + Distance(from, c)) == c
  {
    var q := (c - 1 - from) / SPAN;
    assert from + Distance(from, c) == c - 1 - q * SPAN;
    assert (c - 1 - q * SPAN) % SPAN == c - 1;
  }

  /** At a free counter value the candidate is free, whatever the clock says. */
  lemma FreeCandidate(times: seq<int>, i: nat, live: set<int>, c: int)
    requires i < |times| && Counter(i) == c && Unused(live, c)
    ensures Candidate(times, i) !in live
  {
    assert (Candidate(times, i) - c) % SPAN == 0 by {
      assert Candidate(times, i) - c == times[i] * SPAN;
    }
  }

  /** With no free value the clock can keep the search going for any number of draws. */
  lemma {:induction false} BlockingClock(times: seq<int>, live: set<int>, n: nat) returns (more: seq<int>)
    requires !SomeFree(live)
    ensures |more| == n && AllTaken(times + more, |times|, live)
    decreases n
  {
    if n == 0 {
      more := [];
    } else {
      var first := BlockingClock(times, live, n - 1);
      var last := |times| + n - 1;
      var c := Counter(last);
      CounterStep(last);
      assert !Unused(live, c);
      var id :| id in live && (id - c) % SPAN == 0;
      more := first + [(id - c) / SPAN];
      forall i | |times| <= i < |times + more| ensures Candidate(times + more, i) in live {
        if i < last {
          assert Candidate(times + more, i) == Candidate(times + first, i);
        } else {
          assert Candidate(times + more, i) == id;
        }
      }
    }
  }

  /** The search ends for every clock, from wherever the counter is, if and only if
      some counter value has no live id congruent to it; and then within 100000 draws. */
  lemma SearchEndsIff(live: set<int>)
    ensures SomeFree(live) <==>
      forall times: seq<int>, from: nat | |times| >= from + SPAN :: !AllTaken(times, from, live)
  {
    if SomeFree(live) {
      var c :| 1 <= c <= SPAN && Unused(live, c);
      forall times: seq<int>, from: nat | |times| >= from + SPAN ensures !AllTaken(times, from, live) {
        DistanceReaches(from, c);
        FreeCandidate(times, from + Distance(from, c), live, c);
      }
    } else {
      var times := BlockingClock([], live, SPAN);
      assert [] + times == times;
      assert AllTaken(times, 0, live);
    }
  }

  /** The counter value congruent to an id. */
  function Value(id: int): int {
    (id - 1) % SPAN + 1
  }

  ghost function Values(live: set<int>): set<int> {
    set id | id in live :: Value(id)
  }

  lemma {:induction false} ValuesSize(live: set<int>)
    ensures |Values(live)| <= |live|
    decreases |live|
  {
    hide Value;
    if exists id :: id in live {
      var id :| id in live;
      ValuesSize(live - {id});
      assert Values(live) == Values(live - {id}) + {Value(id)};
    } else {
      assert Values(live) == {};
    }
  }

  lemma CongruentValue(id: int, c: int)
    requires 1 <= c <= SPAN && (id - c) % SPAN == 0
    ensures Value(id) == c
  {
    var q := (id - c) / SPAN;
    assert id - 1 == q * SPAN + (c - 1);
    assert (id - 1) % SPAN == c - 1;
  }

  /** Pigeonhole: fewer than 100000 live ids leave some value free. */
  lemma FewLeaveSomeFree(live: set<int>)
    requires |live| < SPAN
    ensures SomeFree(live)
  {
    hide Range, Value, Values, SomeFree;
    ValuesSize(live);
    RangeSize(1, SPAN + 1);
    if Range(1, SPAN + 1) <= Values(live) {
      SubsetSize(Range(1, SPAN + 1), Values(live));
    }
    var c :| c in Range(1, SPAN + 1) && c !in Values(live);
    ValueUnused(live, c);
  }

  lemma ValueUnused(live: set<int>, c: int)
    requires 1 <= c <= SPAN && c !in Values(live)
    ensures SomeFree(live)
  {
    hide Value;
    forall id | id in live ensures (id - c) % SPAN != 0 {
      assert Value(id) in Values(live);
      if (id - c) % SPAN == 0 {
        CongruentValue(id, c);
      }
    }
    assert Unused(live, c);
  }
}
