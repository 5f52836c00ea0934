/** The bounded queue with two condition variables (examples/cccondvar_basic.c) and its producers and consumers.

    Any number of each, any capacity, any number of items per thread.  The mutex excludes; cccondvar_wait gives it up
    and sleeps in one step; wakeups may be spurious; cccondvar_signal wakes one sleeper on its own variable, if any:
    producers sleep on not_full, consumers on not_empty. */
module CondQueue {
  import opened Tally
  import opened Threads
  import Ring

  /** How many iterations of its for loop a thread runs, and the id a producer stamps its items with. */
  datatype Role = Producer(id: int, items: nat) | Consumer(items: nat)

  datatype Pc =
    | AtLoop
    | AtLock
    | AtTest         // while (count == QUEUE_CAPACITY) or while (count == 0)
    | AtSleep
    | Asleep
    | AtReacquire
    | AtCopy         // buf[tail] = item, or item = buf[head]
    | AtAdvance      // tail or head moves on
    | AtCount        // count++ or count--
    | AtSignal
    | AtUnlock
    | Finished

  /** A thread with its local `item` and the iterations it has completed. */
  datatype Thread = Thread(role: Role, pc: Pc, item: int, done: nat)

  datatype Entry = Entry(t: nat, item: int)

  /** `pushed` and `popped` record items in the order count moved. */
  datatype State = State(
    buf: seq<int>, head: nat, tail: nat, count: nat, holder: Holder, threads: seq<Thread>,
    pushed: seq<Entry>, popped: seq<int>)

  datatype Action = Step(t: nat) | Signal(t: nat, who: nat) | SpuriousWakeup(t: nat)

  function Start(role: Role): Thread
  {
    Thread(role, AtLoop, 0, 0)
  }

  function Init(capacity: nat, roles: seq<Role>): State
  {
    State(seq(capacity, _ => 0), 0, 0, 0, Free, seq(|roles|, i requires 0 <= i < |roles| => Start(roles[i])), [], [])
  }

  /** The item a producer makes in its i-th iteration. */
  function ItemOf(role: Role, i: nat): int
  {
    if role.Producer? then role.id * 100 + i else 0
  }

  function At(s: State, t: nat, p: Pc): State
    requires t < |s.threads|
  {
    s.(threads := s.threads[t := s.threads[t].(pc := p)])
  }

  predicate WellFormed(s: State)
  {
    |s.buf| > 0 && s.head < |s.buf| && s.tail < |s.buf|
  }

  function StepOf(s: State, t: nat): State
    requires WellFormed(s) && t < |s.threads|
  {
    var th := s.threads[t];
    var producing := th.role.Producer?;
    match th.pc
    case AtLoop =>
      if th.done < th.role.items then
        s.(threads := s.threads[t := th.(pc := AtLock, item := ItemOf(th.role, th.done))])
      else At(s, t, Finished)
    case AtLock => if s.holder == Free then At(s, t, AtTest).(holder := HeldBy(t)) else s
    case AtTest =>
      At(s, t, if s.count == (if producing then |s.buf| else 0) then AtSleep else AtCopy)
    case AtSleep => At(s, t, Asleep).(holder := Free)
    case AtReacquire => if s.holder == Free then At(s, t, AtTest).(holder := HeldBy(t)) else s
    case AtCopy =>
      if producing then At(s, t, AtAdvance).(buf := s.buf[s.tail := th.item])
      else s.(threads := s.threads[t := th.(pc := AtAdvance, item := s.buf[s.head])])
    case AtAdvance =>
      if producing then At(s, t, AtCount).(tail := (s.tail + 1) % |s.buf|)
      else At(s, t, AtCount).(head := (s.head + 1) % |s.buf|)
    case AtCount =>
      if producing then At(s, t, AtSignal).(count := s.count + 1, pushed := s.pushed + [Entry(t, th.item)])
      else At(s, t, AtSignal).(count := if s.count > 0 then s.count - 1 else 0, popped := s.popped + [th.item])
    case AtUnlock => s.(holder := Free, threads := s.threads[t := th.(pc := AtLoop, done := th.done + 1)])
    case Asleep => s
    case AtSignal => s
    case Finished => s
  }

  /** Asleep on the condition variable that t signals. */
  predicate SleepsFor(sleeper: Thread, signaller: Thread)
  {
    sleeper.pc.Asleep? && (sleeper.role.Producer? <==> signaller.role.Consumer?)
  }

  predicate NobodySleepsFor(s: State, t: nat)
    requires t < |s.threads|
  {
    forall i :: 0 <= i < |s.threads| ==> !SleepsFor(s.threads[i], s.threads[t])
  }

  function SignalOf(s: State, t: nat, who: nat): State
    requires t < |s.threads| && s.threads[t].pc.AtSignal?
  {
    if who < |s.threads| && SleepsFor(s.threads[who], s.threads[t]) then At(At(s, t, AtUnlock), who, AtReacquire)
    else if NobodySleepsFor(s, t) then At(s, t, AtUnlock)
    else s
  }

  function Next(s: State, a: Action): State
  {
    if !WellFormed(s) || a.t >= |s.threads| then s else
    match a
    case Step(t) => StepOf(s, t)
    case Signal(t, who) => if s.threads[t].pc.AtSignal? then SignalOf(s, t, who) else s
    case SpuriousWakeup(t) => if s.threads[t].pc.Asleep? then At(s, t, AtReacquire) else s
  }

  function Exec(s: State, actions: seq<Action>): State
    decreases |actions|
  {
    if actions == [] then s else Exec(Next(s, actions[0]), actions[1..])
  }

  // ---- Tallies over the threads ----

  predicate InCritical(p: Pc)
  {
    p.AtTest? || p.AtSleep? || p.AtCopy? || p.AtAdvance? || p.AtCount? || p.AtSignal? || p.AtUnlock?
  }

  /** Between entering the critical section without having slept again and having changed the count. */
  predicate Trying(p: Pc)
  {
    p.AtReacquire? || p.AtTest? || p.AtCopy? || p.AtAdvance? || p.AtCount?
  }

  /** Iterations whose effect on the count has happened. */
  function Effects(th: Thread): nat
  {
    th.done + (if th.pc.AtSignal? || th.pc.AtUnlock? then 1 else 0)
  }

  function Pushes(th: Thread): nat
  {
    if th.role.Producer? then Effects(th) else 0
  }

  function Pops(th: Thread): nat
  {
    if th.role.Consumer? then Effects(th) else 0
  }

  function SleepsNotFull(th: Thread): nat
  {
    if th.role.Producer? && th.pc.Asleep? then 1 else 0
  }

  function SleepsNotEmpty(th: Thread): nat
  {
    if th.role.Consumer? && th.pc.Asleep? then 1 else 0
  }

  /** Will fill a free slot, or pass the news of one on. */
  function MindsNotFull(th: Thread): nat
  {
    if (th.role.Producer? && Trying(th.pc)) || (th.role.Consumer? && th.pc.AtSignal?) then 1 else 0
  }

  /** Will take an item, or pass the news of one on. */
  function MindsNotEmpty(th: Thread): nat
  {
    if (th.role.Consumer? && Trying(th.pc)) || (th.role.Producer? && th.pc.AtSignal?) then 1 else 0
  }

  // ---- The invariant ----

  /** The index that the holder has already moved on without having moved the count. */
  function Ahead(s: State, producing: bool): nat
  {
    if s.holder.HeldBy? && s.holder.t < |s.threads| && s.threads[s.holder.t].pc.AtCount?
       && s.threads[s.holder.t].role.Producer? == producing
    then 1 else 0
  }

  /** The buffer read as a queue: the k-th item ever pushed sits at index k mod capacity until it is popped, and what
      has been popped is exactly what was pushed first. */
  ghost predicate QueueInv(s: State)
  {
    && WellFormed(s)
    && |s.popped| + s.count == |s.pushed| && s.count <= |s.buf|
    && s.tail == (|s.pushed| + Ahead(s, true)) % |s.buf|
    && s.head == (|s.popped| + Ahead(s, false)) % |s.buf|
    && (forall k :: 0 <= k < |s.popped| ==> s.popped[k] == s.pushed[k].item)
    && (forall k :: |s.popped| <= k < |s.pushed| ==> s.buf[k % |s.buf|] == s.pushed[k].item)
  }

  /** The holder knows that its push or pop is possible, and has copied the right item. */
  ghost predicate HolderInv(s: State, th: Thread)
    requires QueueInv(s)
  {
    && (th.pc.AtSleep? ==> s.count == (if th.role.Producer? then |s.buf| else 0))
    && (th.pc.AtCopy? || th.pc.AtAdvance? || th.pc.AtCount? ==>
          if th.role.Producer? then s.count < |s.buf| else s.count > 0)
    && (th.pc.AtAdvance? || th.pc.AtCount? ==>
          th.item == (if th.role.Producer? then s.buf[|s.pushed| % |s.buf|] else s.pushed[|s.popped|].item))
  }

  ghost predicate ThreadInv(s: State, t: nat)
    requires QueueInv(s) && t < |s.threads|
  {
    var th := s.threads[t];
    && (InCritical(th.pc) <==> s.holder == HeldBy(t))
    && HolderInv(s, th)
    && (if th.pc.AtLoop? || th.pc.Finished? then th.done <= th.role.items else th.done < th.role.items)
    && (th.pc.Finished? ==> th.done == th.role.items)
    && (th.role.Producer? && !th.pc.AtLoop? && !th.pc.Finished? ==> th.item == ItemOf(th.role, th.done))
  }

  ghost predicate WakeupInv(s: State)
  {
    && (Sum(s.threads, SleepsNotFull) > 0 ==> |s.buf| <= s.count + Sum(s.threads, MindsNotFull))
    && (Sum(s.threads, SleepsNotEmpty) > 0 ==> s.count <= Sum(s.threads, MindsNotEmpty))
  }

  ghost predicate Inv(s: State)
  {
    && QueueInv(s)
    && (s.holder.HeldBy? ==> s.holder.t < |s.threads|)
    && (forall t :: 0 <= t < |s.threads| ==> ThreadInv(s, t))
    && |s.pushed| == Sum(s.threads, Pushes) && |s.popped| == Sum(s.threads, Pops)
    && WakeupInv(s)
  }

  lemma InitInv(capacity: nat, roles: seq<Role>)
    requires capacity > 0
    ensures Inv(Init(capacity, roles))
  {
    var s := Init(capacity, roles);
    SumConstant(s.threads, SleepsNotFull, 0);
    SumConstant(s.threads, SleepsNotEmpty, 0);
    SumConstant(s.threads, Pushes, 0);
    SumConstant(s.threads, Pops, 0);
  }

  /** How a change to one thread moves all the tallies. */
  lemma Tallies(threads: seq<Thread>, t: nat, th: Thread)
    requires t < |threads|
    ensures Sum(threads[t := th], Pushes) + Pushes(threads[t]) == Sum(threads, Pushes) + Pushes(th)
    ensures Sum(threads[t := th], Pops) + Pops(threads[t]) == Sum(threads, Pops) + Pops(th)
    ensures Sum(threads[t := th], SleepsNotFull) + SleepsNotFull(threads[t])
         == Sum(threads, SleepsNotFull) + SleepsNotFull(th)
    ensures Sum(threads[t := th], SleepsNotEmpty) + SleepsNotEmpty(threads[t])
         == Sum(threads, SleepsNotEmpty) + SleepsNotEmpty(th)
    ensures Sum(threads[t := th], MindsNotFull) + MindsNotFull(threads[t])
         == Sum(threads, MindsNotFull) + MindsNotFull(th)
    ensures Sum(threads[t := th], MindsNotEmpty) + MindsNotEmpty(threads[t])
         == Sum(threads, MindsNotEmpty) + MindsNotEmpty(th)
  {
    SumUpdate(threads, Pushes, t, th);
    SumUpdate(threads, Pops, t, th);
    SumUpdate(threads, SleepsNotFull, t, th);
    SumUpdate(threads, SleepsNotEmpty, t, th);
    SumUpdate(threads, MindsNotFull, t, th);
    SumUpdate(threads, MindsNotEmpty, t, th);
  }

  /** What one thread's move has to respect, apart from the queue itself. */
  ghost predicate Respects(s: State, s': State, t: nat)
    requires t < |s.threads| == |s'.threads|
  {
    var th, th' := s.threads[t], s'.threads[t];
    && QueueInv(s') && |s'.buf| == |s.buf|
    && s'.threads == s.threads[t := th']
    && ThreadInv(s', t)
    && (s'.holder == s.holder || {s.holder, s'.holder} == {Free, HeldBy(t)})
    && ((s'.buf == s.buf && s'.count == s.count && s'.pushed == s.pushed && s'.popped == s.popped)
        || s.holder == HeldBy(t))
    && |s'.pushed| + Pushes(th) == |s.pushed| + Pushes(th')
    && |s'.popped| + Pops(th) == |s.popped| + Pops(th')
    && (if SleepsNotFull(th') > SleepsNotFull(th) then s'.count == |s.buf|
        else s.count + MindsNotFull(th) <= s'.count + MindsNotFull(th') || s'.count == |s.buf|)
    && (if SleepsNotEmpty(th') > SleepsNotEmpty(th) then s'.count == 0
        else s'.count + MindsNotEmpty(th) <= s.count + MindsNotEmpty(th') || s'.count == 0)
  }

  lemma MoveInv(s: State, s': State, t: nat)
    requires Inv(s) && t < |s.threads| == |s'.threads| && Respects(s, s', t)
    ensures Inv(s')
  {
    Tallies(s.threads, t, s'.threads[t]);
    forall u | 0 <= u < |s.threads|
      ensures ThreadInv(s', u)
    {
      assert ThreadInv(s, u);
    }
  }

  // One lemma per kind of step.

  lemma CopyInv(s: State, t: nat)
    requires Inv(s) && t < |s.threads| && s.threads[t].pc.AtCopy?
    ensures Respects(s, StepOf(s, t), t)
  {
    assert ThreadInv(s, t);
    forall k | |s.popped| <= k < |s.pushed|
      ensures s.count < |s.buf| ==> k % |s.buf| != |s.pushed| % |s.buf|
    {
      if s.count < |s.buf| {
        Ring.Distinct(k, |s.pushed|, |s.buf|);
      }
    }
    assert Ahead(s, true) == 0 && Ahead(s, false) == 0;
    assert QueueInv(StepOf(s, t));
  }

  lemma AdvanceKeepsQueue(s: State, t: nat)
    requires QueueInv(s) && t < |s.threads| && s.threads[t].pc.AtAdvance? && s.holder == HeldBy(t)
    ensures QueueInv(StepOf(s, t))
  {
    var s', producing := StepOf(s, t), s.threads[t].role.Producer?;
    assert s' == s.(threads := s'.threads, tail := s'.tail, head := s'.head);
    assert Ahead(s, true) == 0 && Ahead(s, false) == 0;
    assert Ahead(s', producing) == 1 && Ahead(s', !producing) == 0;
    assert s'.tail == (|s.pushed| + Ahead(s', true)) % |s.buf| by {
      Ring.Advance(s.tail, |s.pushed|, |s.buf|);
    }
    assert s'.head == (|s.popped| + Ahead(s', false)) % |s.buf| by {
      Ring.Advance(s.head, |s.popped|, |s.buf|);
    }
  }

  lemma AdvanceInv(s: State, t: nat)
    requires Inv(s) && t < |s.threads| && s.threads[t].pc.AtAdvance?
    ensures Respects(s, StepOf(s, t), t)
  {
    assert ThreadInv(s, t);
    AdvanceKeepsQueue(s, t);
  }

  lemma CountInv(s: State, t: nat)
    requires Inv(s) && t < |s.threads| && s.threads[t].pc.AtCount?
    ensures Respects(s, StepOf(s, t), t)
  {
    assert ThreadInv(s, t);
    assert Ahead(s, s.threads[t].role.Producer?) == 1 && Ahead(s, !s.threads[t].role.Producer?) == 0;
    assert QueueInv(StepOf(s, t));
  }

  lemma OutsideInv(s: State, t: nat)
    requires Inv(s) && t < |s.threads| && (s.threads[t].pc.AtLoop? || s.threads[t].pc.AtUnlock?)
    ensures Respects(s, StepOf(s, t), t)
  {
    assert ThreadInv(s, t);
    assert QueueInv(StepOf(s, t));
  }

  lemma EnterInv(s: State, t: nat)
    requires Inv(s) && t < |s.threads| && (s.threads[t].pc.AtLock? || s.threads[t].pc.AtReacquire?)
    requires s.holder == Free
    ensures Respects(s, StepOf(s, t), t)
  {
    assert ThreadInv(s, t);
    assert QueueInv(StepOf(s, t));
  }

  lemma TestInv(s: State, t: nat)
    requires Inv(s) && t < |s.threads| && (s.threads[t].pc.AtTest? || s.threads[t].pc.AtSleep?)
    ensures Respects(s, StepOf(s, t), t)
  {
    assert ThreadInv(s, t);
    assert QueueInv(StepOf(s, t));
  }

  lemma StepInv(s: State, t: nat)
    requires Inv(s) && t < |s.threads| && StepOf(s, t) != s
    ensures Inv(StepOf(s, t))
  {
    match s.threads[t].pc {
      case AtCopy => CopyInv(s, t);
      case AtAdvance => AdvanceInv(s, t);
      case AtCount => CountInv(s, t);
      case AtLoop => OutsideInv(s, t);
      case AtUnlock => OutsideInv(s, t);
      case AtLock => EnterInv(s, t);
      case AtReacquire => EnterInv(s, t);
      case AtTest => TestInv(s, t);
      case AtSleep => TestInv(s, t);
      case Asleep =>
      case AtSignal =>
      case Finished =>
    }
    MoveInv(s, StepOf(s, t), t);
  }

  /** A signal that finds a sleeper hands the signaller's concern on to it. */
  lemma SignalWakesOne(s: State, t: nat, who: nat)
    requires Inv(s) && t < |s.threads| && s.threads[t].pc.AtSignal?
    requires who < |s.threads| && SleepsFor(s.threads[who], s.threads[t])
    ensures var s' := SignalOf(s, t, who);
      && WakeupInv(s') && Sum(s'.threads, Pushes) == Sum(s.threads, Pushes)
      && Sum(s'.threads, Pops) == Sum(s.threads, Pops)
  {
    var th, sleeper := s.threads[t], s.threads[who];
    var moved := s.threads[t := th.(pc := AtUnlock)];
    Tallies(s.threads, t, th.(pc := AtUnlock));
    Tallies(moved, who, sleeper.(pc := AtReacquire));
    assert SignalOf(s, t, who).threads == moved[who := sleeper.(pc := AtReacquire)];
    SumAtLeast(s.threads, SleepsNotFull, who);
    SumAtLeast(s.threads, SleepsNotEmpty, who);
    if th.role.Producer? {
      assert SleepsNotEmpty(sleeper) == 1;
    } else {
      assert SleepsNotFull(sleeper) == 1;
    }
  }

  lemma SignalWakesNobody(s: State, t: nat, who: nat)
    requires Inv(s) && t < |s.threads| && s.threads[t].pc.AtSignal? && NobodySleepsFor(s, t)
    ensures var s' := SignalOf(s, t, who);
      && WakeupInv(s') && Sum(s'.threads, Pushes) == Sum(s.threads, Pushes)
      && Sum(s'.threads, Pops) == Sum(s.threads, Pops)
  {
    Tallies(s.threads, t, s.threads[t].(pc := AtUnlock));
    if s.threads[t].role.Producer? {
      SumConstant(s.threads, SleepsNotEmpty, 0);
    } else {
      SumConstant(s.threads, SleepsNotFull, 0);
    }
  }

  lemma SignalKeepsQueue(s: State, t: nat, who: nat)
    requires Inv(s) && t < |s.threads| && s.threads[t].pc.AtSignal?
    ensures QueueInv(SignalOf(s, t, who))
  {
    assert ThreadInv(s, t);
  }

  lemma SignalInv(s: State, t: nat, who: nat)
    requires Inv(s) && t < |s.threads| && s.threads[t].pc.AtSignal? && SignalOf(s, t, who) != s
    ensures Inv(SignalOf(s, t, who))
  {
    var s' := SignalOf(s, t, who);
    if NobodySleepsFor(s, t) {
      SignalWakesNobody(s, t, who);
    } else {
      SignalWakesOne(s, t, who);
    }
    assert ThreadInv(s, t);
    SignalKeepsQueue(s, t, who);
    forall u | 0 <= u < |s.threads|
      ensures ThreadInv(s', u)
    {
      assert ThreadInv(s, u);
    }
  }

  lemma NextInv(s: State, a: Action)
    requires Inv(s)
    ensures Inv(Next(s, a))
  {
    if a.t < |s.threads| {
      match a
      case Step(t) => if StepOf(s, t) != s { StepInv(s, t); }
      case Signal(t, who) => if s.threads[t].pc.AtSignal? && SignalOf(s, t, who) != s { SignalInv(s, t, who); }
      case SpuriousWakeup(t) =>
        if s.threads[t].pc.Asleep? {
          assert ThreadInv(s, t);
          MoveInv(s, At(s, t, AtReacquire), t);
        }
    }
  }

  lemma {:induction false} ExecInv(s: State, actions: seq<Action>)
    requires Inv(s)
    ensures Inv(Exec(s, actions))
    decreases |actions|
  {
    if actions != [] {
      NextInv(s, actions[0]);
      ExecInv(Next(s, actions[0]), actions[1..]);
    }
  }

  lemma NextKeepsRoles(s: State, a: Action)
    ensures |Next(s, a).threads| == |s.threads| && |Next(s, a).buf| == |s.buf|
    ensures forall t :: 0 <= t < |s.threads| ==> Next(s, a).threads[t].role == s.threads[t].role
  {
  }

  lemma {:induction false} ExecKeepsRoles(s: State, actions: seq<Action>)
    ensures var s' := Exec(s, actions);
      && |s'.threads| == |s.threads| && |s'.buf| == |s.buf|
      && (forall t :: 0 <= t < |s.threads| ==> s'.threads[t].role == s.threads[t].role)
    decreases |actions|
  {
    if actions != [] {
      NextKeepsRoles(s, actions[0]);
      ExecKeepsRoles(Next(s, actions[0]), actions[1..]);
    }
  }

  // ---- FIFO ----

  /** buf read from head for count places. */
  function Contents(s: State): seq<int>
    requires WellFormed(s)
  {
    seq(s.count, i requires 0 <= i => s.buf[(s.head + i) % |s.buf|])
  }

  function Values(entries: seq<Entry>): seq<int>
  {
    seq(|entries|, i requires 0 <= i < |entries| => entries[i].item)
  }

  lemma ContentsBetween(s: State)
    requires Inv(s) && s.holder == Free
    ensures s.popped + Contents(s) == Values(s.pushed) && s.tail == (s.head + s.count) % |s.buf|
  {
    Ring.Shifted(|s.popped|, s.count, |s.buf|);
    forall i | 0 <= i < s.count
      ensures Contents(s)[i] == s.pushed[|s.popped| + i].item
    {
      Ring.Shifted(|s.popped|, i, |s.buf|);
      assert s.buf[(|s.popped| + i) % |s.buf|] == s.pushed[|s.popped| + i].item;
    }
  }

  /** Whenever the mutex is free the circular buffer is exactly what was pushed and not yet popped, oldest first, and
      tail is count places after head.  At all times what was popped is a prefix of what was pushed, and both are as
      long as the threads' iterations say. */
  lemma FifoRefinement(capacity: nat, roles: seq<Role>, actions: seq<Action>)
    requires capacity > 0
    ensures var s := Exec(Init(capacity, roles), actions);
      && WellFormed(s) && |s.buf| == capacity
      && s.popped <= Values(s.pushed) && |s.pushed| - |s.popped| == s.count <= capacity
      && |s.pushed| == Sum(s.threads, Pushes) && |s.popped| == Sum(s.threads, Pops)
      && (s.holder == Free ==> s.popped + Contents(s) == Values(s.pushed) && s.tail == (s.head + s.count) % capacity)
  {
    InitInv(capacity, roles);
    ExecInv(Init(capacity, roles), actions);
    ExecKeepsRoles(Init(capacity, roles), actions);
    var s := Exec(Init(capacity, roles), actions);
    assert s.popped == Values(s.pushed)[..|s.popped|];
    if s.holder == Free {
      ContentsBetween(s);
    }
  }

  function Project(entries: seq<Entry>, t: nat): seq<int>
  {
    if entries == [] then [] else
    var last := entries[|entries| - 1];
    Project(entries[..|entries| - 1], t) + (if last.t == t then [last.item] else [])
  }

  /** The first n items of a producer, in the order it makes them. */
  function Items(role: Role, n: nat): seq<int>
  {
    seq(n, i requires 0 <= i => ItemOf(role, i))
  }

  ghost predicate InOrder(s: State)
  {
    forall t :: 0 <= t < |s.threads| ==> Project(s.pushed, t) == Items(s.threads[t].role, Pushes(s.threads[t]))
  }

  /** A move that pushes nothing leaves the order alone. */
  lemma QuietInOrder(s: State, s': State)
    requires InOrder(s) && |s'.threads| == |s.threads| && s'.pushed == s.pushed
    requires forall u :: 0 <= u < |s.threads| ==>
      s'.threads[u].role == s.threads[u].role && Pushes(s'.threads[u]) == Pushes(s.threads[u])
    ensures InOrder(s')
  {
    forall u | 0 <= u < |s.threads|
      ensures Project(s'.pushed, u) == Items(s'.threads[u].role, Pushes(s'.threads[u]))
    {
      assert Project(s.pushed, u) == Items(s.threads[u].role, Pushes(s.threads[u]));
    }
  }

  lemma PushInOrder(s: State, t: nat)
    requires Inv(s) && InOrder(s) && t < |s.threads| && s.threads[t].pc.AtCount? && s.threads[t].role.Producer?
    ensures InOrder(StepOf(s, t))
  {
    var s', th := StepOf(s, t), s.threads[t];
    assert ThreadInv(s, t);
    assert s'.pushed[..|s.pushed|] == s.pushed;
    forall u | 0 <= u < |s.threads|
      ensures Project(s'.pushed, u) == Items(s'.threads[u].role, Pushes(s'.threads[u]))
    {
      assert Project(s.pushed, u) == Items(s.threads[u].role, Pushes(s.threads[u]));
      assert Items(th.role, th.done + 1) == Items(th.role, th.done) + [ItemOf(th.role, th.done)];
    }
  }

  lemma StepPushesNothing(s: State, t: nat)
    requires WellFormed(s) && t < |s.threads| && !(s.threads[t].pc.AtCount? && s.threads[t].role.Producer?)
    ensures var s' := StepOf(s, t);
      && s'.pushed == s.pushed && |s'.threads| == |s.threads| && s'.threads == s.threads[t := s'.threads[t]]
      && s'.threads[t].role == s.threads[t].role && Pushes(s'.threads[t]) == Pushes(s.threads[t])
  {
  }

  lemma NextInOrder(s: State, a: Action)
    requires Inv(s) && InOrder(s)
    ensures InOrder(Next(s, a))
  {
    if a.t < |s.threads| {
      var th := s.threads[a.t];
      match a
      case Step(t) =>
        if th.pc.AtCount? && th.role.Producer? {
          PushInOrder(s, t);
        } else {
          StepPushesNothing(s, t);
          QuietInOrder(s, StepOf(s, t));
        }
      case Signal(t, who) => QuietInOrder(s, Next(s, a));
      case SpuriousWakeup(t) => QuietInOrder(s, Next(s, a));
    }
  }

  lemma {:induction false} ExecInOrder(s: State, actions: seq<Action>)
    requires Inv(s) && InOrder(s)
    ensures InOrder(Exec(s, actions))
    decreases |actions|
  {
    if actions != [] {
      NextInv(s, actions[0]);
      NextInOrder(s, actions[0]);
      ExecInOrder(Next(s, actions[0]), actions[1..]);
    }
  }

  /** Each producer's items enter the queue in the order it makes them, none missing and none twice: id * 100,
      id * 100 + 1, and so on, one for each iteration it has completed and for the one under way once the item is in,
      and all its items by the time it has finished.  Consumers put nothing in. */
  lemma ProducerOrderKept(capacity: nat, roles: seq<Role>, actions: seq<Action>, t: nat)
    requires capacity > 0 && t < |roles|
    ensures var s := Exec(Init(capacity, roles), actions);
      && |s.threads| == |roles| && s.threads[t].role == roles[t] &&
      var entered, done := Project(s.pushed, t), s.threads[t].done;
      && (roles[t].Consumer? ==> entered == [])
      && (roles[t].Producer? ==>
            && done <= |entered| <= done + 1 && |entered| <= roles[t].items
            && (forall k :: 0 <= k < |entered| ==> entered[k] == roles[t].id * 100 + k)
            && (s.threads[t].pc.Finished? ==> |entered| == roles[t].items))
  {
    InitInv(capacity, roles);
    ExecInv(Init(capacity, roles), actions);
    ExecInOrder(Init(capacity, roles), actions);
    ExecKeepsRoles(Init(capacity, roles), actions);
    var s := Exec(Init(capacity, roles), actions);
    assert ThreadInv(s, t);
    assert Project(s.pushed, t) == Items(roles[t], Pushes(s.threads[t]));
  }

  /** The item with which a queue_pop returns in this action, if one does. */
  function Delivered(s: State, a: Action): seq<int>
  {
    if a.Step? && a.t < |s.threads| && s.threads[a.t].pc.AtUnlock? && s.threads[a.t].role.Consumer?
    then [s.threads[a.t].item] else []
  }

  /** What the calls of queue_pop return during the run, in order. */
  function Deliveries(s: State, actions: seq<Action>): seq<int>
    decreases |actions|
  {
    if actions == [] then [] else Delivered(s, actions[0]) + Deliveries(Next(s, actions[0]), actions[1..])
  }

  /** Taken out by a queue_pop that has not returned yet. */
  function InHand(s: State): seq<int>
  {
    if s.holder.HeldBy? && s.holder.t < |s.threads| && s.threads[s.holder.t].role.Consumer?
       && (s.threads[s.holder.t].pc.AtSignal? || s.threads[s.holder.t].pc.AtUnlock?)
    then [s.threads[s.holder.t].item] else []
  }

  /** What this action takes out of the queue. */
  function Taken(s: State, a: Action): seq<int>
  {
    if |s.popped| <= |Next(s, a).popped| then Next(s, a).popped[|s.popped|..] else []
  }

  lemma DeliveryOfStep(s: State, t: nat)
    requires Inv(s) && t < |s.threads| && StepOf(s, t) != s
    ensures var s' := StepOf(s, t);
      s'.popped == s.popped + Taken(s, Step(t)) && InHand(s) + Taken(s, Step(t)) == Delivered(s, Step(t)) + InHand(s')
  {
    assert ThreadInv(s, t);
    if s.holder.HeldBy? {
      assert ThreadInv(s, s.holder.t);
    }
  }

  lemma DeliveryOfSignal(s: State, a: Action)
    requires Inv(s) && !a.Step?
    ensures Next(s, a).popped == s.popped && InHand(Next(s, a)) == InHand(s) && Delivered(s, a) == [] == Taken(s, a)
  {
    if a.t < |s.threads| {
      assert ThreadInv(s, a.t);
    }
  }

  /** What is taken out of the queue during the run, in order. */
  function AllTaken(s: State, actions: seq<Action>): seq<int>
    decreases |actions|
  {
    if actions == [] then [] else Taken(s, actions[0]) + AllTaken(Next(s, actions[0]), actions[1..])
  }

  lemma DeliveryOfAction(s: State, a: Action)
    requires Inv(s)
    ensures var s' := Next(s, a);
      s'.popped == s.popped + Taken(s, a) && InHand(s) + Taken(s, a) == Delivered(s, a) + InHand(s')
  {
    if !a.Step? {
      DeliveryOfSignal(s, a);
    } else if Next(s, a) != s {
      DeliveryOfStep(s, a.t);
    } else if a.t < |s.threads| {
      assert ThreadInv(s, a.t);
      assert Next(s, a).threads[a.t] == s.threads[a.t];
    }
  }

  lemma {:induction false} TakenIsDelivered(s: State, actions: seq<Action>)
    requires Inv(s)
    ensures var s' := Exec(s, actions);
      && s'.popped == s.popped + AllTaken(s, actions)
      && InHand(s) + AllTaken(s, actions) == Deliveries(s, actions) + InHand(s')
    decreases |actions|
  {
    if actions != [] {
      var a, s' := actions[0], Next(s, actions[0]);
      NextInv(s, a);
      DeliveryOfAction(s, a);
      TakenIsDelivered(s', actions[1..]);
      Assoc(s.popped, Taken(s, a), AllTaken(s', actions[1..]));
      Regroup(InHand(s), Taken(s, a), Delivered(s, a), InHand(s'),
              AllTaken(s', actions[1..]), Deliveries(s', actions[1..]), InHand(Exec(s, actions)));
    }
  }

  /** What queue_pop hands to its callers: the items they are given, over all consumers and in the order the calls
      return, are exactly the items taken out of the queue, but for one that has been taken out and not yet handed
      over; so they are a prefix of the items put in. */
  lemma ConsumersGetThePopped(capacity: nat, roles: seq<Role>, actions: seq<Action>)
    requires capacity > 0
    ensures var s := Exec(Init(capacity, roles), actions);
      && s.popped == Deliveries(Init(capacity, roles), actions) + InHand(s)
      && Deliveries(Init(capacity, roles), actions) <= Values(s.pushed)
  {
    InitInv(capacity, roles);
    TakenIsDelivered(Init(capacity, roles), actions);
    FifoRefinement(capacity, roles, actions);
    var s := Exec(Init(capacity, roles), actions);
    Assoc(AllTaken(Init(capacity, roles), actions), [], []);
  }

  // ---- Wakeups and progress ----

  function WokenConsumer(th: Thread): nat
  {
    if th.role.Consumer? && th.pc.AtReacquire? then 1 else 0
  }

  function WokenProducer(th: Thread): nat
  {
    if th.role.Producer? && th.pc.AtReacquire? then 1 else 0
  }

  /** With the mutex free, those who mind are those who have been woken. */
  lemma MindersAreWoken(s: State)
    requires Inv(s) && s.holder == Free
    ensures Sum(s.threads, MindsNotEmpty) <= Sum(s.threads, WokenConsumer)
    ensures Sum(s.threads, MindsNotFull) <= Sum(s.threads, WokenProducer)
  {
    forall t | 0 <= t < |s.threads|
      ensures MindsNotEmpty(s.threads[t]) <= WokenConsumer(s.threads[t])
      ensures MindsNotFull(s.threads[t]) <= WokenProducer(s.threads[t])
    {
      assert ThreadInv(s, t);
    }
    SumMonotone(s.threads, MindsNotEmpty, WokenConsumer);
    SumMonotone(s.threads, MindsNotFull, WokenProducer);
  }

  /** While the mutex is free, sleeping consumers mean that every item is matched by a consumer already on its way
      back, and sleeping producers mean the same of every free slot; so the two kinds are never all asleep together. */
  lemma NoLostWakeup(capacity: nat, roles: seq<Role>, actions: seq<Action>)
    requires capacity > 0
    ensures var s := Exec(Init(capacity, roles), actions);
      s.holder == Free ==>
        && (Sum(s.threads, SleepsNotEmpty) > 0 ==> s.count <= Sum(s.threads, WokenConsumer))
        && (Sum(s.threads, SleepsNotFull) > 0 ==> capacity - s.count <= Sum(s.threads, WokenProducer))
        && (Sum(s.threads, SleepsNotEmpty) > 0 && Sum(s.threads, SleepsNotFull) > 0 ==>
              Sum(s.threads, WokenConsumer) + Sum(s.threads, WokenProducer) > 0)
  {
    InitInv(capacity, roles);
    ExecInv(Init(capacity, roles), actions);
    ExecKeepsRoles(Init(capacity, roles), actions);
    if Exec(Init(capacity, roles), actions).holder == Free {
      MindersAreWoken(Exec(Init(capacity, roles), actions));
    }
  }

  function ToPush(th: Thread): nat
  {
    if th.role.Producer? then th.role.items else 0
  }

  function ToPop(th: Thread): nat
  {
    if th.role.Consumer? then th.role.items else 0
  }

  /** As many items are to be produced as consumed. */
  ghost predicate Balanced(s: State)
  {
    Sum(s.threads, ToPush) == Sum(s.threads, ToPop)
  }

  /** t can take a step of its own: it is not finished, not asleep, and not waiting for a mutex that is taken. */
  predicate CanMove(s: State, t: nat)
    requires t < |s.threads|
  {
    var p := s.threads[t].pc;
    !p.Finished? && !p.Asleep? && (p.AtLock? || p.AtReacquire? ==> s.holder == Free)
  }

  predicate AllFinished(s: State)
  {
    forall t :: 0 <= t < |s.threads| ==> s.threads[t].pc.Finished?
  }

  /** An enabled thread really moves, whatever the condition variable chooses. */
  lemma CanMoveMoves(s: State, t: nat) returns (a: Action)
    requires Inv(s) && t < |s.threads| && CanMove(s, t)
    ensures !a.SpuriousWakeup? && a.t == t && Next(s, a) != s
  {
    if s.threads[t].pc.AtSignal? {
      if NobodySleepsFor(s, t) {
        a := Signal(t, |s.threads|);
      } else {
        var who :| 0 <= who < |s.threads| && SleepsFor(s.threads[who], s.threads[t]);
        a := Signal(t, who);
      }
    } else {
      a := Step(t);
    }
    assert Next(s, a).threads[t].pc != s.threads[t].pc;
  }

  /** Nobody is ever stuck for want of a wakeup: if the totals agree, then until all threads have finished one of them
      can move without any spurious wakeup. */
  lemma NeverStuck(s: State) returns (t: nat)
    requires Inv(s) && Balanced(s) && !AllFinished(s)
    ensures t < |s.threads| && CanMove(s, t)
  {
    if s.holder.HeldBy? {
      t := s.holder.t;
      assert ThreadInv(s, t);
    } else {
      SomebodyAwake(s);
      t :| 0 <= t < |s.threads| && !s.threads[t].pc.Finished? && !s.threads[t].pc.Asleep?;
    }
  }

  lemma SomebodyAwake(s: State)
    requires Inv(s) && Balanced(s) && !AllFinished(s)
    ensures exists i :: 0 <= i < |s.threads| && !s.threads[i].pc.Finished? && !s.threads[i].pc.Asleep?
  {
    if forall i :: 0 <= i < |s.threads| ==> s.threads[i].pc.Finished? || s.threads[i].pc.Asleep? {
      var t :| 0 <= t < |s.threads| && s.threads[t].pc.Asleep?;
      if s.threads[t].role.Producer? {
        NotOnlyProducersAsleep(s, t);
      } else {
        NotOnlyConsumersAsleep(s, t);
      }
    }
  }

  lemma WithinTotals(s: State)
    requires Inv(s)
    ensures forall i :: 0 <= i < |s.threads| ==>
      Pushes(s.threads[i]) <= ToPush(s.threads[i]) && Pops(s.threads[i]) <= ToPop(s.threads[i])
  {
    forall i | 0 <= i < |s.threads|
      ensures Pushes(s.threads[i]) <= ToPush(s.threads[i]) && Pops(s.threads[i]) <= ToPop(s.threads[i])
    {
      assert ThreadInv(s, i);
    }
  }

  /** A producer asleep with nobody awake would mean a full queue that no consumer is left to empty. */
  lemma NotOnlyProducersAsleep(s: State, t: nat)
    requires Inv(s) && Balanced(s) && t < |s.threads| && s.threads[t].pc.Asleep? && s.threads[t].role.Producer?
    ensures exists i :: 0 <= i < |s.threads| && !(s.threads[i].pc.Finished? || s.threads[i].pc.Asleep?)
  {
    if forall i :: 0 <= i < |s.threads| ==> s.threads[i].pc.Finished? || s.threads[i].pc.Asleep? {
      SumConstant(s.threads, MindsNotFull, 0);
      SumConstant(s.threads, MindsNotEmpty, 0);
      SumAtLeast(s.threads, SleepsNotFull, t);
      assert Sum(s.threads, SleepsNotEmpty) == 0;
      forall i | 0 <= i < |s.threads| && s.threads[i].role.Consumer?
        ensures s.threads[i].pc.Finished?
      {
        SumAtLeast(s.threads, SleepsNotEmpty, i);
      }
      WithinTotals(s);
      assert ThreadInv(s, t);
      SumStrict(s.threads, Pushes, ToPush, t);
      ConsumersFinished(s);
    }
  }

  /** A consumer asleep with nobody awake would mean an empty queue that no producer is left to fill. */
  lemma NotOnlyConsumersAsleep(s: State, t: nat)
    requires Inv(s) && Balanced(s) && t < |s.threads| && s.threads[t].pc.Asleep? && s.threads[t].role.Consumer?
    ensures exists i :: 0 <= i < |s.threads| && !(s.threads[i].pc.Finished? || s.threads[i].pc.Asleep?)
  {
    if forall i :: 0 <= i < |s.threads| ==> s.threads[i].pc.Finished? || s.threads[i].pc.Asleep? {
      SumConstant(s.threads, MindsNotFull, 0);
      SumConstant(s.threads, MindsNotEmpty, 0);
      SumAtLeast(s.threads, SleepsNotEmpty, t);
      assert Sum(s.threads, SleepsNotFull) == 0;
      forall i | 0 <= i < |s.threads| && s.threads[i].role.Producer?
        ensures s.threads[i].pc.Finished?
      {
        SumAtLeast(s.threads, SleepsNotFull, i);
      }
      WithinTotals(s);
      assert ThreadInv(s, t);
      SumStrict(s.threads, Pops, ToPop, t);
      ProducersFinished(s);
    }
  }

  lemma ConsumersFinished(s: State)
    requires Inv(s)
    requires forall i :: 0 <= i < |s.threads| && s.threads[i].role.Consumer? ==> s.threads[i].pc.Finished?
    ensures |s.popped| == Sum(s.threads, ToPop)
  {
    forall i | 0 <= i < |s.threads|
      ensures Pops(s.threads[i]) == ToPop(s.threads[i])
    {
      assert ThreadInv(s, i);
    }
    SumMonotone(s.threads, Pops, ToPop);
    SumMonotone(s.threads, ToPop, Pops);
  }

  lemma ProducersFinished(s: State)
    requires Inv(s)
    requires forall i :: 0 <= i < |s.threads| && s.threads[i].role.Producer? ==> s.threads[i].pc.Finished?
    ensures |s.pushed| == Sum(s.threads, ToPush)
  {
    forall i | 0 <= i < |s.threads|
      ensures Pushes(s.threads[i]) == ToPush(s.threads[i])
    {
      assert ThreadInv(s, i);
    }
    SumMonotone(s.threads, Pushes, ToPush);
    SumMonotone(s.threads, ToPush, Pushes);
  }

  lemma {:induction false} SameRolesSameTotals(a: seq<Thread>, b: seq<Thread>)
    requires |a| == |b| && forall t :: 0 <= t < |a| ==> a[t].role == b[t].role
    ensures Sum(a, ToPush) == Sum(b, ToPush) && Sum(a, ToPop) == Sum(b, ToPop)
  {
    if a != [] {
      SameRolesSameTotals(a[..|a| - 1], b[..|b| - 1]);
    }
  }

  /** A spurious wakeup does wake its thread, and does no harm: with the mutex free and nothing to do for it, the thread
      tests the count again and is asleep as before. */
  lemma SpuriousWakeupReturnsToSleep(s: State, t: nat)
    requires WellFormed(s) && t < |s.threads| && s.threads[t].pc.Asleep? && s.holder == Free
    requires s.count == (if s.threads[t].role.Producer? then |s.buf| else 0)
    ensures Next(s, SpuriousWakeup(t)).threads == s.threads[t := s.threads[t].(pc := AtReacquire)]
    ensures Exec(s, [SpuriousWakeup(t), Step(t), Step(t), Step(t)]) == s
  {
    var s1 := Next(s, SpuriousWakeup(t));
    var s2 := Next(s1, Step(t));
    var s3 := Next(s2, Step(t));
    assert s2 == s.(holder := HeldBy(t), threads := s.threads[t := s.threads[t].(pc := AtTest)]);
    assert s3 == s2.(threads := s.threads[t := s.threads[t].(pc := AtSleep)]);
    assert s.threads[t := s.threads[t]] == s.threads && Next(s3, Step(t)) == s;
    assert Exec(s2, [Step(t), Step(t)]) == Exec(s3, [Step(t)]) == Next(s3, Step(t));
    assert Exec(s1, [Step(t), Step(t), Step(t)]) == Exec(s2, [Step(t), Step(t)]);
  }

  // ---- Every run ends ----

  /** Steps left in the iteration.  A thread that is about to signal has room for the three steps that the thread it
      wakes may need to go back to sleep. */
  function Rank(p: Pc): nat
  {
    match p
    case AtLoop => 13
    case AtLock => 12
    case AtReacquire => 12
    case AtTest => 11
    case AtSleep => 10
    case Asleep => 9
    case AtCopy => 8
    case AtAdvance => 7
    case AtCount => 6
    case AtSignal => 5
    case AtUnlock => 1
    case Finished => 0
  }

  function Load(th: Thread): nat
  {
    (if th.done < th.role.items then 14 * (th.role.items - th.done) else 0) + Rank(th.pc)
  }

  lemma StepMovesOne(s: State, t: nat)
    requires WellFormed(s) && t < |s.threads|
    ensures StepOf(s, t).threads == s.threads[t := StepOf(s, t).threads[t]]
    ensures s.threads[t].pc.AtUnlock? ==>
      StepOf(s, t).threads[t] == s.threads[t].(pc := AtLoop, done := s.threads[t].done + 1)
  {
  }

  lemma StepLowersRank(s: State, t: nat)
    requires WellFormed(s) && t < |s.threads| && StepOf(s, t) != s && !s.threads[t].pc.AtUnlock?
    ensures var th, th' := s.threads[t], StepOf(s, t).threads[t];
      th'.role == th.role && th'.done == th.done && Rank(th'.pc) < Rank(th.pc)
  {
  }

  lemma StepLightens(s: State, t: nat)
    requires Inv(s) && t < |s.threads| && StepOf(s, t) != s
    ensures Sum(StepOf(s, t).threads, Load) < Sum(s.threads, Load)
  {
    assert ThreadInv(s, t);
    StepMovesOne(s, t);
    if !s.threads[t].pc.AtUnlock? {
      StepLowersRank(s, t);
    }
    SumUpdate(s.threads, Load, t, StepOf(s, t).threads[t]);
  }

  lemma SignalLightens(s: State, t: nat, who: nat)
    requires t < |s.threads| && s.threads[t].pc.AtSignal? && SignalOf(s, t, who) != s
    ensures Sum(SignalOf(s, t, who).threads, Load) < Sum(s.threads, Load)
  {
    var moved := s.threads[t := s.threads[t].(pc := AtUnlock)];
    SumUpdate(s.threads, Load, t, moved[t]);
    if who < |s.threads| && SleepsFor(s.threads[who], s.threads[t]) {
      SumUpdate(moved, Load, who, moved[who].(pc := AtReacquire));
    }
  }

  /** Every action that moves takes at least one unit off the load; a spurious wakeup adds three. */
  lemma NextLightens(s: State, a: Action)
    requires Inv(s) && Next(s, a) != s
    ensures Sum(Next(s, a).threads, Load) + 1 <= Sum(s.threads, Load) + (if a.SpuriousWakeup? then 4 else 0)
  {
    match a
    case Step(t) => StepLightens(s, t);
    case Signal(t, who) => SignalLightens(s, t, who);
    case SpuriousWakeup(t) => SumUpdate(s.threads, Load, t, s.threads[t].(pc := AtReacquire));
  }

  /** Every action of the run changes something. */
  predicate Moving(s: State, actions: seq<Action>)
    decreases |actions|
  {
    actions == [] || (Next(s, actions[0]) != s && Moving(Next(s, actions[0]), actions[1..]))
  }

  function Spurious(actions: seq<Action>): nat
  {
    if actions == [] then 0 else (if actions[0].SpuriousWakeup? then 1 else 0) + Spurious(actions[1..])
  }

  lemma {:induction false} RunBounded(s: State, actions: seq<Action>)
    requires Inv(s) && Moving(s, actions)
    ensures |actions| + Sum(Exec(s, actions).threads, Load) <= Sum(s.threads, Load) + 4 * Spurious(actions)
    decreases |actions|
  {
    if actions != [] {
      NextInv(s, actions[0]);
      NextLightens(s, actions[0]);
      RunBounded(Next(s, actions[0]), actions[1..]);
    }
  }

  lemma {:induction false} InitialLoad(threads: seq<Thread>)
    requires forall i :: 0 <= i < |threads| ==> threads[i].pc.AtLoop? && threads[i].done == 0
    ensures Sum(threads, Load) == 14 * (Sum(threads, ToPush) + Sum(threads, ToPop)) + 13 * |threads|
  {
    if threads != [] {
      InitialLoad(threads[..|threads| - 1]);
    }
  }

  /** From every balanced state there is a way to the end without spurious wakeups. */
  lemma {:induction false} CanComplete(s: State) returns (rest: seq<Action>)
    requires Inv(s) && Balanced(s)
    ensures Spurious(rest) == 0 && Moving(s, rest) && AllFinished(Exec(s, rest))
    decreases Sum(s.threads, Load)
  {
    if AllFinished(s) {
      rest := [];
    } else {
      var t := NeverStuck(s);
      var a := CanMoveMoves(s, t);
      NextInv(s, a);
      NextLightens(s, a);
      NextKeepsRoles(s, a);
      SameRolesSameTotals(s.threads, Next(s, a).threads);
      var tail := CanComplete(Next(s, a));
      rest := [a] + tail;
      assert rest[1..] == tail;
    }
  }

  lemma MovesOrDone(s: State)
    requires Inv(s) && Balanced(s)
    ensures !AllFinished(s) ==> exists a: Action :: !a.SpuriousWakeup? && Next(s, a) != s
    ensures AllFinished(s) ==> s.count == 0 && s.popped == Values(s.pushed)
  {
    if AllFinished(s) {
      ConsumersFinished(s);
      ProducersFinished(s);
    } else {
      var t := NeverStuck(s);
      var a := CanMoveMoves(s, t);
    }
  }

  /** Every run with matching totals ends, and ends well.  It can be continued without spurious wakeups until all
      threads have finished; it never makes more than 14 moves an item and 13 a thread, and 4 more for each spurious
      wakeup; and when all have finished the queue is empty and everything produced was consumed in queue order. */
  lemma RunsToCompletion(capacity: nat, roles: seq<Role>, actions: seq<Action>)
    requires capacity > 0 && Balanced(Init(capacity, roles))
    ensures var s0 := Init(capacity, roles);
      var s := Exec(s0, actions);
      && (!AllFinished(s) ==> exists a: Action :: !a.SpuriousWakeup? && Next(s, a) != s)
      && (exists rest :: Spurious(rest) == 0 && AllFinished(Exec(s, rest)))
      && (Moving(s0, actions) ==>
            |actions| <= 14 * (Sum(s0.threads, ToPush) + Sum(s0.threads, ToPop)) + 13 * |roles| + 4 * Spurious(actions))
      && (AllFinished(s) ==> s.count == 0 && s.popped == Values(s.pushed))
  {
    var s0 := Init(capacity, roles);
    InitInv(capacity, roles);
    ExecInv(s0, actions);
    ExecKeepsRoles(s0, actions);
    var s := Exec(s0, actions);
    SameRolesSameTotals(s0.threads, s.threads);
    MovesOrDone(s);
    var rest := CanComplete(s);
    if Moving(s0, actions) {
      RunBounded(s0, actions);
      InitialLoad(s0.threads);
    }
  }

  // ---- The code, one method per access to the queue ----

  class Queue {
    const buf: array<int>
    var head: nat
    var tail: nat
    var count: nat
    var holder: Holder
    var threads: seq<Thread>
    ghost var pushed: seq<Entry>
    ghost var popped: seq<int>

    ghost function View(): State
      reads this, buf
    {
      State(buf[..], head, tail, count, holder, threads, pushed, popped)
    }

    ghost predicate Valid()
      reads this, buf
    {
      Inv(View())
    }

    /** queue_create, with the threads that will use it */
    constructor (capacity: nat, roles: seq<Role>)
      requires capacity > 0
      ensures View() == Init(capacity, roles) && fresh(buf)
      ensures Valid()
    {
      buf := new int[capacity](_ => 0);
      head, tail, count, holder := 0, 0, 0, Free;
      threads := seq(|roles|, i requires 0 <= i < |roles| => Start(roles[i]));
      pushed, popped := [], [];
      new;
      assert buf[..] == seq(capacity, _ => 0);
      InitInv(capacity, roles);
    }

    /** The for loop: make the next item, or finish. */
    method NextIteration(t: nat)
      requires Valid() && t < |threads| && threads[t].pc.AtLoop?
      modifies this
      ensures View() == Next(old(View()), Step(t))
      ensures Valid()
    {
      NextInv(View(), Step(t));
      var th := threads[t];
      if th.done < th.role.items {
        threads := threads[t := th.(pc := AtLock, item := ItemOf(th.role, th.done))];
      } else {
        threads := threads[t := th.(pc := Finished)];
      }
    }

    /** ccmutex_lock, or taking the mutex again on the way out of cccondvar_wait */
    method TakeMutex(t: nat)
      requires Valid() && t < |threads| && (threads[t].pc.AtLock? || threads[t].pc.AtReacquire?)
      modifies this
      ensures View() == Next(old(View()), Step(t))
      ensures Valid()
    {
      NextInv(View(), Step(t));
      if holder == Free {
        holder := HeldBy(t);
        threads := threads[t := threads[t].(pc := AtTest)];
      }
    }

    /** while (q->count == QUEUE_CAPACITY), while (q->count == 0) */
    method TestCount(t: nat)
      requires Valid() && t < |threads| && threads[t].pc.AtTest?
      modifies this
      ensures View() == Next(old(View()), Step(t))
      ensures Valid()
    {
      NextInv(View(), Step(t));
      if threads[t].role.Producer? {
        threads := threads[t := threads[t].(pc := if count == buf.Length then AtSleep else AtCopy)];
      } else {
        threads := threads[t := threads[t].(pc := if count == 0 then AtSleep else AtCopy)];
      }
    }

    /** cccondvar_wait, entry: give up the mutex and sleep, in one step */
    method CondWait(t: nat)
      requires Valid() && t < |threads| && threads[t].pc.AtSleep?
      modifies this
      ensures View() == Next(old(View()), Step(t))
      ensures Valid()
    {
      NextInv(View(), Step(t));
      holder := Free;
      threads := threads[t := threads[t].(pc := Asleep)];
    }

    /** q->buf[q->tail] = item, or item = q->buf[q->head] */
    method CopyItem(t: nat)
      requires Valid() && t < |threads| && threads[t].pc.AtCopy?
      modifies this, buf
      ensures View() == Next(old(View()), Step(t))
      ensures Valid()
    {
      NextInv(View(), Step(t));
      var th := threads[t];
      if th.role.Producer? {
        buf[tail] := th.item;
        threads := threads[t := th.(pc := AtAdvance)];
      } else {
        threads := threads[t := th.(pc := AtAdvance, item := buf[head])];
      }
    }

    /** q->tail = (q->tail + 1) % QUEUE_CAPACITY, and the same for head */
    method AdvanceIndex(t: nat)
      requires Valid() && t < |threads| && threads[t].pc.AtAdvance?
      modifies this
      ensures View() == Next(old(View()), Step(t))
      ensures Valid()
    {
      ghost var s' := Next(View(), Step(t));
      assert Inv(s') by { NextInv(View(), Step(t)); }
      if threads[t].role.Producer? {
        tail := (tail + 1) % buf.Length;
      } else {
        head := (head + 1) % buf.Length;
      }
      threads := threads[t := threads[t].(pc := AtCount)];
      assert View() == s';
    }

    /** q->count++ or q->count--: here the item enters or leaves the queue */
    method MoveCount(t: nat)
      requires Valid() && t < |threads| && threads[t].pc.AtCount?
      modifies this
      ensures View() == Next(old(View()), Step(t))
      ensures Valid()
      ensures threads[t].role.Producer? ==> old(count) < buf.Length && count == old(count) + 1
      ensures threads[t].role.Consumer? ==> old(count) > 0 && count == old(count) - 1
    {
      assert ThreadInv(View(), t);
      NextInv(View(), Step(t));
      if threads[t].role.Producer? {
        count := count + 1;
        pushed := pushed + [Entry(t, threads[t].item)];
      } else {
        count := count - 1;
        popped := popped + [threads[t].item];
      }
      threads := threads[t := threads[t].(pc := AtSignal)];
    }

    /** cccondvar_signal on the other kind's condition variable */
    method CondSignal(t: nat, who: nat)
      requires Valid() && t < |threads| && threads[t].pc.AtSignal?
      requires (who < |threads| && SleepsFor(threads[who], threads[t])) || NobodySleepsFor(View(), t)
      modifies this
      ensures View() == Next(old(View()), Signal(t, who))
      ensures Valid()
    {
      NextInv(View(), Signal(t, who));
      var wakes := who < |threads| && SleepsFor(threads[who], threads[t]);
      threads := threads[t := threads[t].(pc := AtUnlock)];
      if wakes {
        threads := threads[who := threads[who].(pc := AtReacquire)];
      }
    }

    /** ccmutex_unlock and the end of the iteration */
    method Unlock(t: nat)
      requires Valid() && t < |threads| && threads[t].pc.AtUnlock?
      modifies this
      ensures View() == Next(old(View()), Step(t))
      ensures Valid()
    {
      NextInv(View(), Step(t));
      holder := Free;
      threads := threads[t := threads[t].(pc := AtLoop, done := threads[t].done + 1)];
    }

    method StepThread(t: nat)
      requires Valid() && t < |threads|
      modifies this, buf
      ensures View() == Next(old(View()), Step(t))
      ensures Valid()
    {
      match threads[t].pc {
        case AtLoop => NextIteration(t);
        case AtLock => TakeMutex(t);
        case AtReacquire => TakeMutex(t);
        case AtTest => TestCount(t);
        case AtSleep => CondWait(t);
        case AtCopy => CopyItem(t);
        case AtAdvance => AdvanceIndex(t);
        case AtCount => MoveCount(t);
        case AtUnlock => Unlock(t);
        case Asleep =>
        case AtSignal =>
        case Finished =>
      }
    }

    method StepSystem(a: Action)
      requires Valid()
      modifies this, buf
      ensures View() == Next(old(View()), a)
      ensures Valid()
    {
      var t := a.t;
      if t < |threads| {
        match a {
          case Step(_) => StepThread(t);
          case Signal(_, who) =>
            if threads[t].pc.AtSignal? {
              var nobody := forall j :: 0 <= j < |threads| ==> !SleepsFor(threads[j], threads[t]);
              if (who < |threads| && SleepsFor(threads[who], threads[t])) || nobody {
                CondSignal(t, who);
              }
            }
          case SpuriousWakeup(_) =>
            if threads[t].pc.Asleep? {
              NextInv(View(), SpuriousWakeup(t));
              threads := threads[t := threads[t].(pc := AtReacquire)];
            }
        }
      }
    }

    /** Any interleaving of the threads and their wakeups. */
    method Run(actions: seq<Action>)
      requires Valid()
      modifies this, buf
      ensures View() == Exec(old(View()), actions)
      ensures Valid()
    {
      var i := 0;
      while i < |actions|
        invariant 0 <= i <= |actions|
        invariant Valid() && Exec(View(), actions[i..]) == Exec(old(View()), actions)
      {
        assert actions[i..][1..] == actions[i + 1..];
        StepSystem(actions[i]);
        i := i + 1;
      }
    }
  }
}
