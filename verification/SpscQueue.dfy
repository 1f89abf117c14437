/** The single-producer single-consumer queue: a ring of fixed capacity, whose push
    and pop are atomic, and the producer's unbounded overflow cache. */
module SpscQueue {

  // ---------- The two threads, one ring operation at a time ----------

  /** Where the producer is. `Offering`: the cache was empty, the item is about to be
      offered to the ring. `Draining`: at the head of the `checkCache` loop. `Copied`:
      the front of the cache is in the ring and not yet erased from the cache. */
  datatype Pc<T> = Idle | Offering(item: T) | Draining | Copied

  /** `pushed` and `popped` record the items submitted and received so far. */
  datatype Queue<T> = Queue(capacity: nat, pc: Pc<T>, cache: seq<T>, ring: seq<T>, pushed: seq<T>, popped: seq<T>)

  datatype Step<T> =
    | BeginPush(item: T)   // producer: enter `push`
    | BeginCheck           // producer: enter `checkCache`
    | Offer                // producer: ring push of a new item
    | Drain                // producer: one test of the loop, with its ring push
    | Erase                // producer: drop the copied front of the cache
    | Pop                  // consumer: ring pop

  predicate Enabled<T>(q: Queue<T>, step: Step<T>) {
    match step
    case BeginPush(_) => q.pc.Idle?
    case BeginCheck => q.pc.Idle?
    case Offer => q.pc.Offering?
    case Drain => q.pc.Draining?
    case Erase => q.pc.Copied? && q.cache != []
    case Pop => q.ring != []
  }

  function Apply<T>(q: Queue<T>, step: Step<T>): Queue<T>
    requires Enabled(q, step)
  {
    match step
    case BeginPush(x) =>
      var q' := q.(pushed := q.pushed + [x]);
      if q.cache != [] then q'.(cache := q.cache + [x], pc := Draining) else q'.(pc := Offering(x))
    case BeginCheck => q.(pc := Draining)
    case Offer =>
      if |q.ring| < q.capacity then q.(ring := q.ring + [q.pc.item], pc := Draining)
      else q.(cache := q.cache + [q.pc.item], pc := Draining)
    case Drain =>
      if q.cache == [] then q.(pc := Idle)
      else if |q.ring| < q.capacity then q.(ring := q.ring + [q.cache[0]], pc := Copied)
      else q.(pc := Idle)
    case Erase => q.(cache := q.cache[1..], pc := Draining)
    case Pop => q.(popped := q.popped + [q.ring[0]], ring := q.ring[1..])
  }

  ghost predicate Runs<T>(q: Queue<T>, run: seq<Step<T>>, q': Queue<T>)
    decreases |run|
  {
    if run == [] then q == q'
    else Enabled(q, run[0]) && Runs(Apply(q, run[0]), run[1..], q')
  }

  /** What the producer still has to move into the ring. */
  function Held<T>(q: Queue<T>): seq<T> {
    match q.pc
    case Offering(x) => q.cache + [x]
    case Copied => if q.cache == [] then [] else q.cache[1..]
    case _ => q.cache
  }

  ghost predicate Inv<T>(q: Queue<T>) {
    && |q.ring| <= q.capacity
    && (q.pc.Offering? ==> q.cache == [])
    && (q.pc.Copied? ==> q.cache != [])
    && q.pushed == q.popped + q.ring + Held(q)
  }

  lemma StepInv<T>(q: Queue<T>, step: Step<T>)
    requires Inv(q) && Enabled(q, step)
    ensures Inv(Apply(q, step))
  {
    var q' := Apply(q, step);
    match step
    case BeginPush(x) =>
      assert q'.pushed == q.popped + q.ring + (Held(q) + [x]);
    case Offer =>
      assert q.popped + q.ring + [q.pc.item] == q.popped + (q.ring + [q.pc.item]) + [];
    case Drain =>
      if q'.pc.Copied? {
        assert q.cache == [q.cache[0]] + q.cache[1..];
        assert q.popped + q.ring + ([q.cache[0]] + q.cache[1..]) == q.popped + (q.ring + [q.cache[0]]) + q.cache[1..];
      }
    case Pop =>
      assert q.popped + q.ring == q'.popped + q'.ring;
    case _ =>
  }

  /** FIFO without loss or duplication: over every interleaving of single ring
      operations, the items pushed are the items popped, then those in the ring, then
      the live part of the cache. */
  lemma {:induction false} Fifo<T>(q0: Queue<T>, run: seq<Step<T>>, q: Queue<T>)
    requires Inv(q0) && Runs(q0, run, q)
    ensures Inv(q)
    ensures q.pushed == q.popped + q.ring + Held(q)
    ensures q.popped <= q.pushed
    decreases |run|
  {
    if run != [] {
      StepInv(q0, run[0]);
      Fifo(Apply(q0, run[0]), run[1..], q);
    }
  }

  /** Between two producer calls, the sequence of `Tasks` and `Protocol`: what was
      pushed and not yet popped. */
  function Waiting<T>(q: Queue<T>): seq<T> {
    q.ring + Held(q)
  }

  /** On that sequence every step acts as a plain queue: entering `push` appends,
      a pop takes the front, and all the other ring operations are invisible. */
  lemma StepsAsQueue<T>(q: Queue<T>, step: Step<T>)
    requires Inv(q) && Enabled(q, step)
    ensures Waiting(Apply(q, step)) ==
      match step
      case BeginPush(x) => Waiting(q) + [x]
      case Pop => Waiting(q)[1..]
      case _ => Waiting(q)
    ensures step.Pop? ==> Apply(q, step).popped == q.popped + [Waiting(q)[0]]
  {
    var q' := Apply(q, step);
    match step
    case BeginPush(x) =>
      assert q.ring + (Held(q) + [x]) == Waiting(q) + [x];
    case Offer =>
      assert q.ring + [q.pc.item] == q.ring + [q.pc.item] + [];
    case Drain =>
      if q'.pc.Copied? {
        assert q.ring + q.cache == q.ring + [q.cache[0]] + q.cache[1..];
      }
    case Erase =>
    case Pop =>
      assert (q.ring + Held(q))[1..] == q.ring[1..] + Held(q);
    case BeginCheck =>
  }

  /** The producer's end of a queue: the consumer does not change it. */
  datatype End<T> = End(pc: Pc<T>, cache: seq<T>, pushed: seq<T>)

  function EndOf<T>(q: Queue<T>): End<T> {
    End(q.pc, q.cache, q.pushed)
  }

  // ---------- The code ----------

  /** The ring, the producer's cache, and how far the producer is in `push` or
      `checkCache`. Each method is one action between two points at which the other
      thread may run; `Thread` puts them together. */
  class SpscQueue<T> {
    const capacity: nat
    var cache: seq<T>
    var ring: seq<T>
    var pc: Pc<T>
    ghost var pushed: seq<T>
    ghost var popped: seq<T>

    ghost function AsQueue(): Queue<T>
      reads this
    {
      Queue(capacity, pc, cache, ring, pushed, popped)
    }

    constructor (capacity: nat)
      ensures AsQueue() == Queue(capacity, Idle, [], [], [], [])
    {
      this.capacity := capacity;
      cache, ring, pc, pushed, popped := [], [], Idle, [], [];
    }

    predicate Can(step: Step<T>)
      reads this
      ensures Can(step) <==> Enabled(AsQueue(), step)
    {
      match step
      case BeginPush(_) => pc.Idle?
      case BeginCheck => pc.Idle?
      case Offer => pc.Offering?
      case Drain => pc.Draining?
      case Erase => pc.Copied? && cache != []
      case Pop => ring != []
    }

    /** The ring's own atomic push. */
    method RingPush(x: T) returns (ok: bool)
      modifies this`ring
      ensures ok <==> |old(ring)| < capacity
      ensures ring == if ok then old(ring) + [x] else old(ring)
    {
      ok := |ring| < capacity;
      if ok {
        ring := ring + [x];
      }
    }

    /** Enter `push`: behind a cache that is not empty, or on to the ring. */
    method EnterPush(x: T)
      requires pc.Idle?
      modifies this`cache, this`pc, this`pushed
      ensures AsQueue() == Apply(old(AsQueue()), BeginPush(x))
      ensures if old(cache) == [] then cache == [] && pc == Offering(x)
        else cache == old(cache) + [x] && pc == Draining
    {
      pushed := pushed + [x];
      if |cache| > 0 {
        cache, pc := cache + [x], Draining;
      } else {
        pc := Offering(x);
      }
    }

    /** Offer the new item to the ring, or cache it. */
    method OfferItem()
      requires pc.Offering?
      modifies this`cache, this`ring, this`pc
      ensures AsQueue() == Apply(old(AsQueue()), Offer)
      ensures if |old(ring)| < capacity then ring == old(ring) + [old(pc).item] && cache == old(cache)
        else ring == old(ring) && cache == old(cache) + [old(pc).item]
    {
      var x := pc.item;
      var ok := RingPush(x);
      if !ok {
        cache := cache + [x];
      }
      pc := Draining;
    }

    /** One test of the loop of `checkCache`, with its ring push. */
    method DrainOne()
      requires pc.Draining?
      modifies this`ring, this`pc
      ensures AsQueue() == Apply(old(AsQueue()), Drain)
      ensures if cache != [] && |old(ring)| < capacity then ring == old(ring) + [cache[0]] && pc == Copied
        else ring == old(ring) && pc == Idle
    {
      if |cache| > 0 {
        var ok := RingPush(cache[0]);
        pc := if ok then Copied else Idle;
      } else {
        pc := Idle;
      }
    }

    /** Drop the front of the cache, which is in the ring by now. */
    method EraseFront()
      requires pc.Copied? && cache != []
      modifies this`cache, this`pc
      ensures AsQueue() == Apply(old(AsQueue()), Erase)
      ensures cache == old(cache)[1..] && pc == Draining
    {
      cache, pc := cache[1..], Draining;
    }

    /** The consumer's pop; the producer may be anywhere. */
    method TakeFront() returns (item: T)
      requires ring != []
      modifies this`ring, this`popped
      ensures item == old(ring)[0] && ring == old(ring)[1..] && popped == old(popped) + [item]
      ensures AsQueue() == Apply(old(AsQueue()), Pop)
    {
      item, ring := ring[0], ring[1..];
      popped := popped + [item];
    }

    method Perform(step: Step<T>)
      requires Can(step)
      modifies this
      ensures AsQueue() == Apply(old(AsQueue()), step)
    {
      match step
      case BeginPush(x) => EnterPush(x);
      case BeginCheck => pc := Draining;
      case Offer => OfferItem();
      case Drain => DrainOne();
      case Erase => EraseFront();
      case Pop => var item := TakeFront();
    }
  }
}
