/** The two-semaphore ring buffer (examples/ccsem_producer_consumer.c): one producer, one consumer, and a buffer and
    two indices that no lock protects.

    The semaphores are used through the contract proved in Semaphore: a wait succeeds exactly when the atomic
    semaphore allows it, and blocks otherwise. */
module RingBuffer {
  import Ring
  import Semaphore

  datatype Pc =
    | AtLoop
    | AtWait        // ccsem_wait(g_empty) or ccsem_wait(g_filled)
    | AtCopy        // g_buffer[g_in] = item, or item = g_buffer[g_out]
    | AtAdvance     // g_in or g_out moves on
    | AtPost        // ccsem_post(g_filled) or ccsem_post(g_empty)
    | Finished

  /** made / taken: completed iterations.  produced / consumed: items in the order they were written and read. */
  datatype State = State(
    empty: nat, filled: nat, buffer: seq<int>, nextIn: nat, nextOut: nat, id: int, items: nat,
    producer: Pc, made: nat, consumer: Pc, taken: nat, produced: seq<int>, consumed: seq<int>)

  datatype Action = StepProducer | StepConsumer

  function Init(capacity: nat, id: int, items: nat): State
  {
    State(capacity, 0, seq(capacity, _ => 0), 0, 0, id, items, AtLoop, 0, AtLoop, 0, [], [])
  }

  const WAITED := Semaphore.Response(Semaphore.Wait, Semaphore.Success)
  const POSTED := Semaphore.Response(Semaphore.Post, Semaphore.Success)

  predicate WellFormed(s: State)
  {
    |s.buffer| > 0 && s.nextIn < |s.buffer| && s.nextOut < |s.buffer|
  }

  function ItemOf(id: int, i: nat): int
  {
    id * 100 + i
  }

  function Produce(s: State): State
    requires WellFormed(s)
  {
    match s.producer
    case AtLoop => s.(producer := if s.made < s.items then AtWait else Finished)
    case AtWait =>
      if Semaphore.Allowed(s.empty, WAITED) then s.(empty := Semaphore.Applied(s.empty, WAITED), producer := AtCopy)
      else s
    case AtCopy =>
      var item := ItemOf(s.id, s.made);
      s.(buffer := s.buffer[s.nextIn := item], producer := AtAdvance, produced := s.produced + [item])
    case AtAdvance => s.(nextIn := (s.nextIn + 1) % |s.buffer|, producer := AtPost)
    case AtPost => s.(filled := Semaphore.Applied(s.filled, POSTED), producer := AtLoop, made := s.made + 1)
    case Finished => s
  }

  function Consume(s: State): State
    requires WellFormed(s)
  {
    match s.consumer
    case AtLoop => s.(consumer := if s.taken < s.items then AtWait else Finished)
    case AtWait =>
      if Semaphore.Allowed(s.filled, WAITED) then s.(filled := Semaphore.Applied(s.filled, WAITED), consumer := AtCopy)
      else s
    case AtCopy => s.(consumer := AtAdvance, consumed := s.consumed + [s.buffer[s.nextOut]])
    case AtAdvance => s.(nextOut := (s.nextOut + 1) % |s.buffer|, consumer := AtPost)
    case AtPost => s.(empty := Semaphore.Applied(s.empty, POSTED), consumer := AtLoop, taken := s.taken + 1)
    case Finished => s
  }

  function Next(s: State, a: Action): State
  {
    if !WellFormed(s) then s else if a.StepProducer? then Produce(s) else Consume(s)
  }

  function Exec(s: State, actions: seq<Action>): State
    decreases |actions|
  {
    if actions == [] then s else Exec(Next(s, actions[0]), actions[1..])
  }

  // ---- The invariant ----

  /** Between the wait and the post: one slot is in this thread's hands. */
  function InFlight(p: Pc): nat
  {
    if p.AtCopy? || p.AtAdvance? || p.AtPost? then 1 else 0
  }

  function Copied(p: Pc): nat
  {
    if p.AtAdvance? || p.AtPost? then 1 else 0
  }

  /** How many times the index has moved on. */
  function Moves(copies: nat, p: Pc): nat
  {
    if p.AtAdvance? && copies > 0 then copies - 1 else copies
  }

  ghost predicate CountInv(s: State)
  {
    && s.empty + s.filled + InFlight(s.producer) + InFlight(s.consumer) == |s.buffer|
    && s.filled + s.taken + InFlight(s.consumer) == s.made
    && |s.produced| == s.made + Copied(s.producer) && |s.consumed| == s.taken + Copied(s.consumer)
    && (if s.producer.AtLoop? || s.producer.Finished? then s.made <= s.items else s.made < s.items)
    && (if s.consumer.AtLoop? || s.consumer.Finished? then s.taken <= s.items else s.taken < s.items)
    && (s.producer.Finished? ==> s.made == s.items)
    && (s.consumer.Finished? ==> s.taken == s.items)
  }

  ghost predicate BufferInv(s: State)
    requires WellFormed(s)
  {
    && |s.consumed| <= |s.produced| <= |s.consumed| + |s.buffer|
    && s.nextIn == Moves(|s.produced|, s.producer) % |s.buffer|
    && s.nextOut == Moves(|s.consumed|, s.consumer) % |s.buffer|
    && (forall k :: 0 <= k < |s.produced| ==> s.produced[k] == ItemOf(s.id, k))
    && (forall k :: 0 <= k < |s.consumed| ==> s.consumed[k] == s.produced[k])
    && (forall k :: |s.consumed| <= k < |s.produced| ==> s.buffer[k % |s.buffer|] == s.produced[k])
  }

  ghost predicate Inv(s: State)
  {
    WellFormed(s) && |s.buffer| < Semaphore.COUNT_LIMIT && CountInv(s) && BufferInv(s)
  }

  /** Neither counter can wrap: it stays within the capacity. */
  lemma PostsDoNotWrap(s: State)
    requires Inv(s)
    ensures s.producer.AtPost? ==> Semaphore.Applied(s.filled, POSTED) == s.filled + 1
    ensures s.consumer.AtPost? ==> Semaphore.Applied(s.empty, POSTED) == s.empty + 1
  {
  }

  lemma WriteInv(s: State)
    requires Inv(s) && s.producer.AtCopy?
    ensures Inv(Produce(s))
  {
    forall k | |s.consumed| <= k < |s.produced|
      ensures k % |s.buffer| != |s.produced| % |s.buffer|
    {
      Ring.Distinct(k, |s.produced|, |s.buffer|);
    }
  }

  lemma MoveInInv(s: State)
    requires Inv(s) && s.producer.AtAdvance?
    ensures Inv(Produce(s))
  {
    Ring.Shifted(|s.produced| - 1, 1, |s.buffer|);
  }

  lemma MoveOutInv(s: State)
    requires Inv(s) && s.consumer.AtAdvance?
    ensures Inv(Consume(s))
  {
    Ring.Shifted(|s.consumed| - 1, 1, |s.buffer|);
  }

  lemma ProduceInv(s: State)
    requires Inv(s)
    ensures Inv(Produce(s))
  {
    PostsDoNotWrap(s);
    match s.producer
    case AtCopy => WriteInv(s);
    case AtAdvance => MoveInInv(s);
    case AtLoop =>
    case AtWait =>
    case AtPost =>
    case Finished =>
  }

  lemma ConsumeInv(s: State)
    requires Inv(s)
    ensures Inv(Consume(s))
  {
    PostsDoNotWrap(s);
    match s.consumer
    case AtAdvance => MoveOutInv(s);
    case AtCopy =>
    case AtLoop =>
    case AtWait =>
    case AtPost =>
    case Finished =>
  }

  lemma NextInv(s: State, a: Action)
    requires Inv(s)
    ensures Inv(Next(s, a)) && |Next(s, a).buffer| == |s.buffer|
    ensures Next(s, a).id == s.id && Next(s, a).items == s.items
  {
    if a.StepProducer? { ProduceInv(s); } else { ConsumeInv(s); }
  }

  lemma {:induction false} ExecInv(s: State, actions: seq<Action>)
    requires Inv(s)
    ensures var s' := Exec(s, actions);
      Inv(s') && |s'.buffer| == |s.buffer| && s'.id == s.id && s'.items == s.items
    decreases |actions|
  {
    if actions != [] {
      NextInv(s, actions[0]);
      ExecInv(Next(s, actions[0]), actions[1..]);
    }
  }

  // ---- What the two semaphores achieve ----

  /** Free slots, ready items and slots in a thread's hands always add up to the capacity. */
  lemma SlotsConserved(capacity: nat, id: int, items: nat, actions: seq<Action>)
    requires 0 < capacity < Semaphore.COUNT_LIMIT
    ensures var s := Exec(Init(capacity, id, items), actions);
      s.empty + s.filled + InFlight(s.producer) + InFlight(s.consumer) == capacity
  {
    ExecInv(Init(capacity, id, items), actions);
  }

  /** Without any lock on the buffer: the consumer reads exactly the items produced, in order and each once; the slot
      being written is never one still to be read, and never the slot being read at the same time. */
  lemma ConsumedIsPrefixOfProduced(capacity: nat, id: int, items: nat, actions: seq<Action>)
    requires 0 < capacity < Semaphore.COUNT_LIMIT
    ensures var s := Exec(Init(capacity, id, items), actions);
      && s.consumed <= s.produced && (forall k :: 0 <= k < |s.produced| ==> s.produced[k] == id * 100 + k)
      && |s.buffer| == capacity
      && (s.producer.AtCopy? ==> forall k :: |s.consumed| <= k < |s.produced| ==> k % capacity != s.nextIn)
      && (s.producer.AtCopy? && s.consumer.AtCopy? ==> s.nextIn != s.nextOut)
  {
    ExecInv(Init(capacity, id, items), actions);
    var s := Exec(Init(capacity, id, items), actions);
    assert s.consumed == s.produced[..|s.consumed|];
    if s.producer.AtCopy? {
      forall k | |s.consumed| <= k < |s.produced|
        ensures k % capacity != s.nextIn
      {
        Ring.Distinct(k, |s.produced|, capacity);
      }
    }
  }

  /** It is the semaphores that make this so: put both threads at the same slot at once, as no run does, and what the
      consumer gets depends on who is first, the new item or whatever the slot held before. */
  lemma SemaphoresAreNeeded(s: State)
    requires WellFormed(s) && s.producer.AtCopy? && s.consumer.AtCopy? && s.nextIn == s.nextOut
    ensures Exec(s, [StepProducer, StepConsumer]).consumed == s.consumed + [s.id * 100 + s.made]
    ensures Exec(s, [StepConsumer, StepProducer]).consumed == s.consumed + [s.buffer[s.nextOut]]
  {
    assert Exec(Produce(s), [StepConsumer]) == Consume(Produce(s));
    assert Exec(Consume(s), [StepProducer]) == Produce(Consume(s));
  }

  predicate Blocked(s: State, a: Action)
  {
    if a.StepProducer? then s.producer.AtWait? && s.empty == 0 else s.consumer.AtWait? && s.filled == 0
  }

  /** The two threads never block together, neither is left blocked by the other's finishing, and when both have
      finished every item has been consumed and the buffer is empty again. */
  lemma NeverBothBlocked(capacity: nat, id: int, items: nat, actions: seq<Action>)
    requires 0 < capacity < Semaphore.COUNT_LIMIT
    ensures var s := Exec(Init(capacity, id, items), actions);
      && (Blocked(s, StepProducer) ==> !Blocked(s, StepConsumer) && !s.consumer.Finished?)
      && (Blocked(s, StepConsumer) ==> !s.producer.Finished?)
      && (Next(s, StepProducer) == s && Next(s, StepConsumer) == s ==> s.producer.Finished? && s.consumer.Finished?)
      && (s.producer.Finished? && s.consumer.Finished? ==>
            s.consumed == s.produced && |s.consumed| == items && s.empty == capacity && s.filled == 0)
  {
    ExecInv(Init(capacity, id, items), actions);
    var s := Exec(Init(capacity, id, items), actions);
    if Next(s, StepProducer) == s && Next(s, StepConsumer) == s {
      assert s.producer.Finished? || Blocked(s, StepProducer);
      assert s.consumer.Finished? || Blocked(s, StepConsumer);
    }
  }

  /** Steps left to a thread that has done that many of its iterations. */
  function StepsLeft(p: Pc, done: nat, items: nat): int
  {
    match p
    case AtLoop => 5 * (items - done) + 1
    case AtWait => 5 * (items - done)
    case AtCopy => 5 * (items - done) - 1
    case AtAdvance => 5 * (items - done) - 2
    case AtPost => 5 * (items - done) - 3
    case Finished => 0
  }

  /** Every action of the run changes something. */
  predicate Moving(s: State, actions: seq<Action>)
    decreases |actions|
  {
    actions == [] || (Next(s, actions[0]) != s && Moving(Next(s, actions[0]), actions[1..]))
  }

  function AllLeft(s: State): int
  {
    StepsLeft(s.producer, s.made, s.items) + StepsLeft(s.consumer, s.taken, s.items)
  }

  lemma MoveCounts(s: State, a: Action)
    requires WellFormed(s) && CountInv(s) && Next(s, a) != s
    ensures AllLeft(Next(s, a)) == AllLeft(s) - 1
  {
  }

  lemma NoneLeft(s: State)
    requires WellFormed(s) && CountInv(s)
    ensures AllLeft(s) >= 0
    ensures AllLeft(s) == 0 <==> s.producer.Finished? && s.consumer.Finished?
  {
  }

  lemma {:induction false} MovesCount(s: State, actions: seq<Action>)
    requires Inv(s) && Moving(s, actions)
    ensures |actions| + AllLeft(Exec(s, actions)) == AllLeft(s)
    decreases |actions|
  {
    if actions != [] {
      NextInv(s, actions[0]);
      MoveCounts(s, actions[0]);
      MovesCount(Next(s, actions[0]), actions[1..]);
    }
  }

  /** Every run ends: it makes at most 10 * items + 2 moves, and it has made that many exactly when both threads have
      finished. */
  lemma EveryRunEnds(capacity: nat, id: int, items: nat, actions: seq<Action>)
    requires 0 < capacity < Semaphore.COUNT_LIMIT && Moving(Init(capacity, id, items), actions)
    ensures var s := Exec(Init(capacity, id, items), actions);
      && |actions| <= 10 * items + 2
      && (|actions| == 10 * items + 2 <==> s.producer.Finished? && s.consumer.Finished?)
  {
    ExecInv(Init(capacity, id, items), actions);
    MovesCount(Init(capacity, id, items), actions);
    NoneLeft(Exec(Init(capacity, id, items), actions));
  }

  // ---- The code ----

  class ProducerConsumer {
    const buffer: array<int>
    const id: int
    const items: nat
    var empty: nat
    var filled: nat
    var nextIn: nat
    var nextOut: nat
    var producer: Pc
    var made: nat
    var consumer: Pc
    var taken: nat
    var consumed: seq<int>
    ghost var produced: seq<int>

    ghost function View(): State
      reads this, buffer
    {
      State(empty, filled, buffer[..], nextIn, nextOut, id, items, producer, made, consumer, taken, produced, consumed)
    }

    ghost predicate Valid()
      reads this, buffer
    {
      Inv(View())
    }

    /** g_empty = ccsem_create(BUFSIZE), g_filled = ccsem_create(0) */
    constructor (capacity: nat, id: int, items: nat)
      requires 0 < capacity < Semaphore.COUNT_LIMIT
      ensures View() == Init(capacity, id, items) && fresh(buffer)
      ensures Valid()
    {
      buffer := new int[capacity](_ => 0);
      this.id, this.items := id, items;
      empty, filled, nextIn, nextOut := capacity, 0, 0, 0;
      producer, made, consumer, taken := AtLoop, 0, AtLoop, 0;
      consumed, produced := [], [];
      new;
      assert buffer[..] == seq(capacity, _ => 0);
    }

    /** ccsem_wait(g_empty), which blocks at 0 */
    method WaitEmpty()
      requires Valid() && producer.AtWait?
      modifies this
      ensures View() == Next(old(View()), StepProducer)
      ensures Valid()
    {
      NextInv(View(), StepProducer);
      if empty > 0 {
        empty := empty - 1;
        producer := AtCopy;
      }
    }

    /** g_buffer[g_in] = item */
    method WriteSlot()
      requires Valid() && producer.AtCopy?
      modifies this, buffer
      ensures View() == Next(old(View()), StepProducer)
      ensures Valid()
    {
      NextInv(View(), StepProducer);
      var item := id * 100 + made;
      buffer[nextIn] := item;
      produced := produced + [item];
      producer := AtAdvance;
    }

    /** g_in = (g_in + 1) % BUFSIZE */
    method AdvanceIn()
      requires Valid() && producer.AtAdvance?
      modifies this
      ensures View() == Next(old(View()), StepProducer)
      ensures Valid()
    {
      NextInv(View(), StepProducer);
      nextIn := (nextIn + 1) % buffer.Length;
      producer := AtPost;
    }

    /** ccsem_post(g_filled) and the end of the iteration */
    method PostFilled()
      requires Valid() && producer.AtPost?
      modifies this
      ensures View() == Next(old(View()), StepProducer)
      ensures Valid()
    {
      NextInv(View(), StepProducer);
      PostsDoNotWrap(View());
      filled := filled + 1;
      made := made + 1;
      producer := AtLoop;
    }

    /** ccsem_wait(g_filled), which blocks at 0 */
    method WaitFilled()
      requires Valid() && consumer.AtWait?
      modifies this
      ensures View() == Next(old(View()), StepConsumer)
      ensures Valid()
    {
      NextInv(View(), StepConsumer);
      if filled > 0 {
        filled := filled - 1;
        consumer := AtCopy;
      }
    }

    /** item = g_buffer[g_out] */
    method ReadSlot()
      requires Valid() && consumer.AtCopy?
      modifies this
      ensures View() == Next(old(View()), StepConsumer)
      ensures Valid()
    {
      NextInv(View(), StepConsumer);
      consumed := consumed + [buffer[nextOut]];
      consumer := AtAdvance;
    }

    /** g_out = (g_out + 1) % BUFSIZE */
    method AdvanceOut()
      requires Valid() && consumer.AtAdvance?
      modifies this
      ensures View() == Next(old(View()), StepConsumer)
      ensures Valid()
    {
      NextInv(View(), StepConsumer);
      nextOut := (nextOut + 1) % buffer.Length;
      consumer := AtPost;
    }

    /** ccsem_post(g_empty) and the end of the iteration */
    method PostEmpty()
      requires Valid() && consumer.AtPost?
      modifies this
      ensures View() == Next(old(View()), StepConsumer)
      ensures Valid()
    {
      NextInv(View(), StepConsumer);
      PostsDoNotWrap(View());
      empty := empty + 1;
      taken := taken + 1;
      consumer := AtLoop;
    }

    method ProducerStep()
      requires Valid()
      modifies this, buffer
      ensures View() == Next(old(View()), StepProducer)
      ensures Valid()
    {
      match producer {
        case AtLoop =>
          NextInv(View(), StepProducer);
          producer := if made < items then AtWait else Finished;
        case AtWait => WaitEmpty();
        case AtCopy => WriteSlot();
        case AtAdvance => AdvanceIn();
        case AtPost => PostFilled();
        case Finished =>
      }
    }

    method ConsumerStep()
      requires Valid()
      modifies this
      ensures View() == Next(old(View()), StepConsumer)
      ensures Valid()
    {
      match consumer {
        case AtLoop =>
          NextInv(View(), StepConsumer);
          consumer := if taken < items then AtWait else Finished;
        case AtWait => WaitFilled();
        case AtCopy => ReadSlot();
        case AtAdvance => AdvanceOut();
        case AtPost => PostEmpty();
        case Finished =>
      }
    }

    method StepSystem(a: Action)
      requires Valid()
      modifies this, buffer
      ensures View() == Next(old(View()), a)
      ensures Valid()
    {
      if a.StepProducer? {
        ProducerStep();
      } else {
        ConsumerStep();
      }
    }

    /** Any interleaving of the two threads. */
    method Run(actions: seq<Action>)
      requires Valid()
      modifies this, buffer
      ensures View() == Exec(old(View()), actions)
      ensures Valid()
    {
      var i := 0;
      while i < |actions|
        invariant 0 <= i <= |actions|
        invariant Valid() && Exec(View(), actions[i..]) == Exec(old(View()), actions)
      {
        assert actions[i..][1..] == actions[i + 1..];
        StepSystem(actions[i]);
        i := i + 1;
      }
    }
  }
}
