/** The POSIX counting semaphore (ccsem.c): a counter under a mutex and a condition variable.

    Any number of threads run wait, trywait, timedwait and post in any interleaving, with barging, spurious
    wakeups and timeouts.  pthread calls return 0, except ETIMEDOUT; a waiter that times out takes no signal. */
module Semaphore {
  import opened Tally
  import opened Threads
  import opened Deadline

  const COUNT_LIMIT := 0x1_0000_0000

  datatype Op = Wait | TryWait | TimedWait(ms: nat) | Post
  datatype Reply = Success | Timeout
  datatype Response = Response(op: Op, reply: Reply)
  datatype Entry = Entry(t: nat, response: Response)
  datatype Limit = Never | Until(deadline: Timespec)

  datatype Pc =
    | Idle
    | AtLock(op: Op)
    | AtFirstTest(ms: nat)                 // timedwait's test before it reads the clock
    | AtClock(ms: nat)                     // clock_gettime and the deadline arithmetic
    | AtTest(op: Op, limit: Limit)         // a loop guard, or trywait's test
    | AtSleep(op: Op, limit: Limit)        // about to call pthread_cond_(timed)wait
    | Asleep(op: Op, limit: Limit)
    | AtReacquire(op: Op, limit: Limit, timedOut: bool)
    | AtDecrement(op: Op)
    | AtIncrement
    | AtSignal
    | AtUnlock(op: Op, reply: Reply)

  /** `history` lists the operations in the order they took effect, `replies` what each thread has been told. */
  datatype State = State(
    count: nat, holder: Holder, pc: seq<Pc>, clock: nat,
    began: seq<nat>, history: seq<Entry>, replies: seq<seq<Response>>)

  datatype Action =
    | Call(t: nat, op: Op)
    | Step(t: nat)
    | Signal(t: nat, who: nat)
    | SpuriousWakeup(t: nat)
    | Expire(t: nat)
    | Tick(nanos: nat)

  function Init(n: nat, initial: nat): State
  {
    State(initial, Free, seq(n, _ => Idle), 0, seq(n, _ => 0), [], seq(n, _ => []))
  }

  function DeadlineAt(clock: nat, ms: nat): Timespec
  {
    Reading(clock + ms * NSEC_PER_MSEC)
  }

  predicate WellFormed(s: State)
  {
    |s.began| == |s.pc| && |s.replies| == |s.pc|
  }

  /** Thread t moves to p and its operation takes effect now. */
  function TakeEffect(s: State, t: nat, p: Pc, r: Response): State
    requires t < |s.pc|
  {
    s.(pc := s.pc[t := p], history := s.history + [Entry(t, r)])
  }

  function AfterLock(op: Op): Pc
  {
    match op
    case Post => AtIncrement
    case TimedWait(ms) => AtFirstTest(ms)
    case _ => AtTest(op, Never)
  }

  function StepOf(s: State, t: nat): State
    requires WellFormed(s) && t < |s.pc|
  {
    match s.pc[t]
    case AtLock(op) =>
      if s.holder == Free then s.(holder := HeldBy(t), pc := s.pc[t := AfterLock(op)]) else s
    case AtFirstTest(ms) =>
      s.(pc := s.pc[t := if s.count > 0 then AtDecrement(TimedWait(ms)) else AtClock(ms)])
    case AtClock(ms) => s.(pc := s.pc[t := AtTest(TimedWait(ms), Until(DeadlineAt(s.clock, ms)))])
    case AtTest(op, limit) =>
      if s.count > 0 then s.(pc := s.pc[t := AtDecrement(op)])
      else if op.TryWait? then TakeEffect(s, t, AtUnlock(op, Timeout), Response(op, Timeout))
      else s.(pc := s.pc[t := AtSleep(op, limit)])
    case AtSleep(op, limit) => s.(holder := Free, pc := s.pc[t := Asleep(op, limit)])
    case AtReacquire(op, limit, timedOut) =>
      if s.holder != Free then s
      else if timedOut then
        TakeEffect(s.(holder := HeldBy(t)), t, AtUnlock(op, Timeout), Response(op, Timeout))
      else s.(holder := HeldBy(t), pc := s.pc[t := AtTest(op, limit)])
    case AtDecrement(op) =>
      TakeEffect(s.(count := (s.count + COUNT_LIMIT - 1) % COUNT_LIMIT), t,
                 AtUnlock(op, Success), Response(op, Success))
    case AtIncrement =>
      TakeEffect(s.(count := (s.count + 1) % COUNT_LIMIT), t, AtSignal, Response(Post, Success))
    case AtUnlock(op, reply) =>
      s.(holder := Free, pc := s.pc[t := Idle], replies := s.replies[t := s.replies[t] + [Response(op, reply)]])
    case _ => s
  }

  function Wake(p: Pc, timedOut: bool): Pc
    requires p.Asleep?
  {
    AtReacquire(p.op, p.limit, timedOut)
  }

  predicate NobodyAsleep(s: State)
  {
    forall i :: 0 <= i < |s.pc| ==> !s.pc[i].Asleep?
  }

  /** Signalling wakes one sleeper of the scheduler's choice; with nobody asleep it does nothing. */
  function SignalOf(s: State, t: nat, who: nat): State
    requires t < |s.pc| && s.pc[t].AtSignal?
  {
    var moved := s.(pc := s.pc[t := AtUnlock(Post, Success)]);
    if who < |s.pc| && s.pc[who].Asleep? then moved.(pc := moved.pc[who := Wake(s.pc[who], false)])
    else if NobodyAsleep(s) then moved
    else s
  }

  /** The deadline has been reached. */
  predicate Expired(limit: Limit, clock: nat)
  {
    limit.Until? && AtOrBefore(limit.deadline, Reading(clock))
  }

  /** One step of the whole system; an action that is not enabled changes nothing. */
  function Next(s: State, a: Action): State
  {
    if !WellFormed(s) then s else
    match a
    case Call(t, op) =>
      if t < |s.pc| && s.pc[t].Idle? && (op.TimedWait? ==> op.ms < UINT32_LIMIT) then
        s.(pc := s.pc[t := AtLock(op)], began := s.began[t := s.clock])
      else s
    case Step(t) => if t < |s.pc| then StepOf(s, t) else s
    case Signal(t, who) => if t < |s.pc| && s.pc[t].AtSignal? then SignalOf(s, t, who) else s
    case SpuriousWakeup(t) =>
      if t < |s.pc| && s.pc[t].Asleep? then s.(pc := s.pc[t := Wake(s.pc[t], false)]) else s
    case Expire(t) =>
      if t < |s.pc| && s.pc[t].Asleep? && Expired(s.pc[t].limit, s.clock) then
        s.(pc := s.pc[t := Wake(s.pc[t], true)])
      else s
    case Tick(nanos) => s.(clock := s.clock + nanos)
  }

  function Exec(s: State, actions: seq<Action>): State
    decreases |actions|
  {
    if actions == [] then s else Exec(Next(s, actions[0]), actions[1..])
  }

  // ---- The invariant ----

  /** Points at which a thread holds the mutex. */
  predicate InCritical(p: Pc)
  {
    p.AtFirstTest? || p.AtClock? || p.AtTest? || p.AtSleep? || p.AtDecrement? || p.AtIncrement? || p.AtSignal?
    || p.AtUnlock?
  }

  /** Only the timed wait has a deadline, and only the blocking operations reach the blocking points. */
  predicate WellTyped(p: Pc)
  {
    match p
    case AtTest(op, limit) => !op.Post? && (limit.Until? <==> op.TimedWait?)
    case AtSleep(op, limit) => !op.Post? && !op.TryWait? && (limit.Until? <==> op.TimedWait?)
    case Asleep(op, limit) => !op.Post? && !op.TryWait? && (limit.Until? <==> op.TimedWait?)
    case AtReacquire(op, limit, timedOut) =>
      !op.Post? && !op.TryWait? && (limit.Until? <==> op.TimedWait?) && (timedOut ==> op.TimedWait?)
    case AtDecrement(op) => !op.Post?
    case AtUnlock(op, reply) => reply.Timeout? ==> op.TryWait? || op.TimedWait?
    case _ => true
  }

  function Sleeping(p: Pc): nat
  {
    if p.Asleep? then 1 else 0
  }

  /** Woken, not timed out, and still to take the mutex again. */
  function Woken(p: Pc): nat
  {
    if p.AtReacquire? && !p.timedOut then 1 else 0
  }

  /** Threads that will each consume one unit, or pass one wakeup on, before going back to sleep. */
  function Responsible(p: Pc): nat
  {
    if (p.AtReacquire? && !p.timedOut) || p.AtFirstTest? || p.AtTest? || p.AtDecrement? || p.AtSignal? then 1 else 0
  }

  ghost predicate TimeInv(s: State, t: nat)
    requires WellFormed(s) && t < |s.pc|
  {
    var p := s.pc[t];
    && s.began[t] <= s.clock
    && (p.AtTest? || p.AtSleep? || p.Asleep? || p.AtReacquire? ==>
          p.op.TimedWait? ==> p.limit.Until? && Normalised(p.limit.deadline)
                              && s.began[t] + p.op.ms * NSEC_PER_MSEC <= Nanos(p.limit.deadline)
                                 <= s.clock + p.op.ms * NSEC_PER_MSEC)
    && (p.AtReacquire? && p.timedOut && p.limit.Until? ==> Nanos(p.limit.deadline) <= s.clock)
    && (p.AtUnlock? && p.op.TimedWait? && p.reply.Timeout? ==> s.began[t] + p.op.ms * NSEC_PER_MSEC <= s.clock)
  }

  ghost predicate ThreadInv(s: State, t: nat)
    requires WellFormed(s) && t < |s.pc|
  {
    var p := s.pc[t];
    && (InCritical(p) <==> s.holder == HeldBy(t))
    && WellTyped(p)
    && ((p.AtClock? || p.AtFirstTest?) ==> p.ms < UINT32_LIMIT)
    && (p.AtLock? && p.op.TimedWait? ==> p.op.ms < UINT32_LIMIT)
    && (p.AtDecrement? ==> s.count > 0)
    && (p.AtSleep? || p.AtClock? ==> s.count == 0)
    && TimeInv(s, t)
  }

  ghost predicate Inv(s: State)
  {
    && WellFormed(s)
    && s.count < COUNT_LIMIT
    && (forall t :: 0 <= t < |s.pc| ==> ThreadInv(s, t))
    && (s.holder.HeldBy? ==> s.holder.t < |s.pc|)
    && (Sum(s.pc, Sleeping) > 0 ==> s.count <= Sum(s.pc, Responsible))
  }

  lemma InitInv(n: nat, initial: nat)
    requires initial < COUNT_LIMIT
    ensures Inv(Init(n, initial))
  {
    SumConstant(Init(n, initial).pc, Sleeping, 0);
  }

  /** How moving one thread changes the two tallies. */
  lemma Tallies(s: State, t: nat, p: Pc)
    requires t < |s.pc|
    ensures Sum(s.pc[t := p], Sleeping) + Sleeping(s.pc[t]) == Sum(s.pc, Sleeping) + Sleeping(p)
    ensures Sum(s.pc[t := p], Responsible) + Responsible(s.pc[t]) == Sum(s.pc, Responsible) + Responsible(p)
    ensures Sleeping(s.pc[t]) <= Sum(s.pc, Sleeping) && Responsible(s.pc[t]) <= Sum(s.pc, Responsible)
  {
    SumUpdate(s.pc, Sleeping, t, p);
    SumUpdate(s.pc, Responsible, t, p);
    SumAtLeast(s.pc, Sleeping, t);
    SumAtLeast(s.pc, Responsible, t);
  }

  /** What one thread's own move has to respect for the invariant to survive: it touches the mutex only by taking
      it free or giving up its own, it touches the count only while holding it, and it does not give up
      responsibility for a unit that is still there. */
  ghost predicate Respects(s: State, s': State, t: nat)
    requires WellFormed(s) && t < |s.pc|
  {
    && WellFormed(s')
    && |s'.pc| == |s.pc| && s'.pc == s.pc[t := s'.pc[t]]
    && s'.clock == s.clock && s'.count < COUNT_LIMIT
    && (forall u :: 0 <= u < |s.pc| && u != t ==> s'.began[u] == s.began[u])
    && ThreadInv(s', t)
    && (s'.holder == s.holder || {s.holder, s'.holder} == {Free, HeldBy(t)})
    && (s'.count == s.count || s.holder == HeldBy(t))
    && (s'.count == 0
        || (Sleeping(s'.pc[t]) <= Sleeping(s.pc[t])
            && s'.count + Responsible(s.pc[t]) <= s.count + Responsible(s'.pc[t])))
  }

  lemma MoveInv(s: State, s': State, t: nat)
    requires Inv(s) && t < |s.pc| && Respects(s, s', t)
    ensures Inv(s')
  {
    Tallies(s, t, s'.pc[t]);
    forall u | 0 <= u < |s.pc|
      ensures ThreadInv(s', u)
    {
      assert ThreadInv(s, u);
    }
  }

  /** Taking the mutex, at the start of an operation or on the way back from the condition variable. */
  lemma LockInv(s: State, t: nat)
    requires Inv(s) && t < |s.pc| && (s.pc[t].AtLock? || s.pc[t].AtReacquire?)
    ensures Inv(StepOf(s, t))
  {
    assert ThreadInv(s, t);
    if StepOf(s, t) != s {
      MoveInv(s, StepOf(s, t), t);
    }
  }

  lemma StepInv(s: State, t: nat)
    requires Inv(s) && t < |s.pc|
    ensures Inv(StepOf(s, t))
  {
    if s.pc[t].AtLock? || s.pc[t].AtReacquire? {
      LockInv(s, t);
    } else if StepOf(s, t) != s {
      assert ThreadInv(s, t);
      MoveInv(s, StepOf(s, t), t);
    }
  }

  lemma SignalInv(s: State, t: nat, who: nat)
    requires Inv(s) && t < |s.pc| && s.pc[t].AtSignal?
    ensures Inv(SignalOf(s, t, who))
  {
    var s' := SignalOf(s, t, who);
    var moved := s.(pc := s.pc[t := AtUnlock(Post, Success)]);
    Tallies(s, t, AtUnlock(Post, Success));
    if who < |s.pc| && s.pc[who].Asleep? {
      Tallies(moved, who, s'.pc[who]);
    } else if NobodyAsleep(s) {
      SumConstant(s.pc, Sleeping, 0);
    }
    forall u | 0 <= u < |s.pc|
      ensures ThreadInv(s', u)
    {
      assert ThreadInv(s, u);
    }
  }

  lemma CallInv(s: State, t: nat, op: Op)
    requires Inv(s)
    ensures Inv(Next(s, Call(t, op)))
  {
    if Next(s, Call(t, op)) != s {
      assert ThreadInv(s, t);
      MoveInv(s, Next(s, Call(t, op)), t);
    }
  }

  /** Leaving the condition variable without a signal: spuriously or at the deadline. */
  lemma UnsignalledInv(s: State, t: nat)
    requires Inv(s)
    ensures Inv(Next(s, SpuriousWakeup(t))) && Inv(Next(s, Expire(t)))
  {
    if t < |s.pc| && s.pc[t].Asleep? {
      assert ThreadInv(s, t);
      MoveInv(s, Next(s, SpuriousWakeup(t)), t);
      if Expired(s.pc[t].limit, s.clock) {
        OrderIsTotalOrder(s.pc[t].limit.deadline, Reading(s.clock));
        MoveInv(s, Next(s, Expire(t)), t);
      }
    }
  }

  lemma TickInv(s: State, nanos: nat)
    requires Inv(s)
    ensures Inv(Next(s, Tick(nanos)))
  {
    forall u | 0 <= u < |s.pc|
      ensures ThreadInv(Next(s, Tick(nanos)), u)
    {
      assert ThreadInv(s, u);
    }
  }

  lemma NextInv(s: State, a: Action)
    requires Inv(s)
    ensures Inv(Next(s, a))
  {
    match a
    case Call(t, op) => CallInv(s, t, op);
    case Step(t) => if t < |s.pc| { StepInv(s, t); }
    case Signal(t, who) => if t < |s.pc| && s.pc[t].AtSignal? { SignalInv(s, t, who); }
    case SpuriousWakeup(t) => UnsignalledInv(s, t);
    case Expire(t) => UnsignalledInv(s, t);
    case Tick(nanos) => TickInv(s, nanos);
  }

  lemma {:induction false} ExecInv(s: State, actions: seq<Action>)
    requires Inv(s)
    ensures Inv(Exec(s, actions)) && |Exec(s, actions).pc| == |s.pc|
    decreases |actions|
  {
    if actions != [] {
      NextInv(s, actions[0]);
      ExecInv(Next(s, actions[0]), actions[1..]);
    }
  }

  // ---- No lost wakeup ----

  /** Whenever the mutex is free and some waiter sleeps, every unit of the count is matched by a waiter that has
      been woken and has yet to take the mutex.  So with all threads idle or asleep the count is 0. */
  lemma NoLostWakeup(n: nat, initial: nat, actions: seq<Action>)
    requires initial < COUNT_LIMIT
    ensures var s := Exec(Init(n, initial), actions);
      && (s.holder == Free && Sum(s.pc, Sleeping) > 0 ==> s.count <= Sum(s.pc, Woken))
      && ((forall t :: 0 <= t < |s.pc| ==> s.pc[t].Idle? || s.pc[t].Asleep?) && !NobodyAsleep(s) ==> s.count == 0)
  {
    InitInv(n, initial);
    ExecInv(Init(n, initial), actions);
    var s := Exec(Init(n, initial), actions);
    if s.holder == Free {
      forall t | 0 <= t < |s.pc|
        ensures Responsible(s.pc[t]) <= Woken(s.pc[t])
      {
        assert ThreadInv(s, t);
      }
      SumMonotone(s.pc, Responsible, Woken);
    }
    if (forall t :: 0 <= t < |s.pc| ==> s.pc[t].Idle? || s.pc[t].Asleep?) && !NobodyAsleep(s) {
      var i :| 0 <= i < |s.pc| && s.pc[i].Asleep?;
      SumAtLeast(s.pc, Sleeping, i);
      SumConstant(s.pc, Responsible, 0);
    }
  }

  /** A spurious wakeup does wake its thread, and does no harm: with the mutex free and nothing to take, the thread
      tests the count again and is asleep as before. */
  lemma SpuriousWakeupReturnsToSleep(s: State, t: nat)
    requires WellFormed(s) && t < |s.pc| && s.pc[t].Asleep? && !s.pc[t].op.TryWait? && s.holder == Free && s.count == 0
    ensures Next(s, SpuriousWakeup(t)).pc == s.pc[t := AtReacquire(s.pc[t].op, s.pc[t].limit, false)]
    ensures Exec(s, [SpuriousWakeup(t), Step(t), Step(t), Step(t)]) == s
  {
    var s1 := Next(s, SpuriousWakeup(t));
    var s2 := Next(s1, Step(t));
    var s3 := Next(s2, Step(t));
    assert s2 == s.(holder := HeldBy(t), pc := s.pc[t := AtTest(s.pc[t].op, s.pc[t].limit)]);
    assert s3 == s2.(pc := s.pc[t := AtSleep(s.pc[t].op, s.pc[t].limit)]);
    assert s.pc[t := s.pc[t]] == s.pc && Next(s3, Step(t)) == s;
    assert Exec(s2, [Step(t), Step(t)]) == Exec(s3, [Step(t)]) == Next(s3, Step(t));
    assert Exec(s1, [Step(t), Step(t), Step(t)]) == Exec(s2, [Step(t), Step(t)]);
  }

  // ---- The calls, read off the run ----

  /** An operation as it was called, and the clock at that moment. */
  datatype Request = Request(op: Op, clock: nat)

  /** t is idle and calls an operation. */
  predicate Begins(s: State, a: Action, t: nat)
  {
    && a.Call? && a.t == t && t < |s.pc| && s.pc[t].Idle?
    && (a.op.TimedWait? ==> a.op.ms < UINT32_LIMIT)
  }

  /** t's calls during the run, in order. */
  function Requests(s: State, actions: seq<Action>, t: nat): seq<Request>
    decreases |actions|
  {
    if actions == [] then [] else
    (if Begins(s, actions[0], t) then [Request(actions[0].op, s.clock)] else [])
    + Requests(Next(s, actions[0]), actions[1..], t)
  }

  /** The operation that a thread is in. */
  function InProgress(p: Pc): seq<Op>
  {
    match p
    case Idle => []
    case AtLock(op) => [op]
    case AtFirstTest(ms) => [TimedWait(ms)]
    case AtClock(ms) => [TimedWait(ms)]
    case AtTest(op, _) => [op]
    case AtSleep(op, _) => [op]
    case Asleep(op, _) => [op]
    case AtReacquire(op, _, _) => [op]
    case AtDecrement(op) => [op]
    case AtIncrement => [Post]
    case AtSignal => [Post]
    case AtUnlock(op, _) => [op]
  }

  function OpsAsked(requests: seq<Request>): seq<Op>
  {
    seq(|requests|, i requires 0 <= i < |requests| => requests[i].op)
  }

  function OpsAnswered(replies: seq<Response>): seq<Op>
  {
    seq(|replies|, i requires 0 <= i < |replies| => replies[i].op)
  }

  lemma OwnRequestStep(s: State, t: nat)
    requires WellFormed(s) && t < |s.pc|
    ensures var s' := StepOf(s, t);
      && WellFormed(s') && |s'.pc| == |s.pc|
      && OpsAnswered(s.replies[t]) + InProgress(s.pc[t]) == OpsAnswered(s'.replies[t]) + InProgress(s'.pc[t])
  {
    if s.pc[t].AtUnlock? {
      var r := Response(s.pc[t].op, s.pc[t].reply);
      assert OpsAnswered(s.replies[t] + [r]) == OpsAnswered(s.replies[t]) + [r.op];
    } else {
      assert StepOf(s, t).replies == s.replies && InProgress(StepOf(s, t).pc[t]) == InProgress(s.pc[t]);
    }
  }

  lemma RequestStep(s: State, a: Action, t: nat)
    requires WellFormed(s) && t < |s.pc|
    ensures var s' := Next(s, a);
      && WellFormed(s') && |s'.pc| == |s.pc|
      && OpsAnswered(s.replies[t]) + InProgress(s.pc[t]) + (if Begins(s, a, t) then [a.op] else [])
         == OpsAnswered(s'.replies[t]) + InProgress(s'.pc[t])
  {
    if a == Step(t) {
      OwnRequestStep(s, t);
    } else {
      assert Next(s, a).replies[t] == s.replies[t];
    }
  }

  lemma {:induction false} RequestsAnswered(s: State, actions: seq<Action>, t: nat)
    requires WellFormed(s) && t < |s.pc|
    ensures var s' := Exec(s, actions);
      && WellFormed(s') && |s'.pc| == |s.pc|
      && OpsAnswered(s.replies[t]) + InProgress(s.pc[t]) + OpsAsked(Requests(s, actions, t))
         == OpsAnswered(s'.replies[t]) + InProgress(s'.pc[t])
    decreases |actions|
  {
    if actions != [] {
      var a, s', rest := actions[0], Next(s, actions[0]), Requests(Next(s, actions[0]), actions[1..], t);
      RequestStep(s, a, t);
      RequestsAnswered(s', actions[1..], t);
      var asked := if Begins(s, a, t) then [a.op] else [];
      assert OpsAsked(Requests(s, actions, t)) == asked + OpsAsked(rest);
      Assoc(OpsAnswered(s.replies[t]) + InProgress(s.pc[t]), asked, OpsAsked(rest));
    }
  }

  lemma BeganStep(s: State, a: Action, t: nat)
    requires WellFormed(s) && t < |s.pc|
    ensures var s' := Next(s, a);
      && WellFormed(s') && |s'.pc| == |s.pc|
      && (Begins(s, a, t) ==> s'.began[t] == s.clock)
      && (!Begins(s, a, t) && !s'.pc[t].Idle? ==> !s.pc[t].Idle? && s'.began[t] == s.began[t])
  {
  }

  /** The operation in progress began when it was called. */
  lemma {:induction false} BeganAtCall(s: State, actions: seq<Action>, t: nat)
    requires WellFormed(s) && t < |s.pc|
    ensures var s', requests := Exec(s, actions), Requests(s, actions, t);
      && WellFormed(s') && |s'.pc| == |s.pc|
      && (!s'.pc[t].Idle? ==>
            if requests != [] then s'.began[t] == requests[|requests| - 1].clock
            else !s.pc[t].Idle? && s'.began[t] == s.began[t])
    decreases |actions|
  {
    if actions != [] {
      BeganStep(s, actions[0], t);
      BeganAtCall(Next(s, actions[0]), actions[1..], t);
    }
  }

  /** Every call is answered as what it was: on every run the operations a thread has called, in order, are those it
      has been answered, followed by the one it is in. */
  lemma CallsAnswered(n: nat, initial: nat, actions: seq<Action>, t: nat)
    requires t < n
    ensures var s := Exec(Init(n, initial), actions);
      && |s.pc| == n && |s.replies| == n
      && OpsAsked(Requests(Init(n, initial), actions, t)) == OpsAnswered(s.replies[t]) + InProgress(s.pc[t])
  {
    RequestsAnswered(Init(n, initial), actions, t);
  }

  lemma LastAsked(requests: seq<Request>, answered: seq<Op>, op: Op)
    requires OpsAsked(requests) == answered + [op]
    ensures requests != [] && requests[|requests| - 1].op == op
  {
    assert OpsAsked(requests)[|requests| - 1] == op;
  }

  /** A timed wait never reports a timeout before the whole interval it was called with has passed on the clock since
      the call, and never waits for a time further ahead than the interval. */
  lemma TimeoutOnTime(n: nat, initial: nat, actions: seq<Action>, t: nat)
    requires initial < COUNT_LIMIT && t < n
    ensures var s, requests := Exec(Init(n, initial), actions), Requests(Init(n, initial), actions, t);
      && |s.pc| == n
      && (s.pc[t].AtUnlock? && s.pc[t].reply.Timeout? && !s.pc[t].op.TryWait? ==>
            && requests != [] && requests[|requests| - 1].op.TimedWait?
            && requests[|requests| - 1].clock + requests[|requests| - 1].op.ms * NSEC_PER_MSEC <= s.clock)
      && (s.pc[t].Asleep? && s.pc[t].limit.Until? ==>
            && requests != [] && requests[|requests| - 1].op.TimedWait?
            && requests[|requests| - 1].clock + requests[|requests| - 1].op.ms * NSEC_PER_MSEC
               <= Nanos(s.pc[t].limit.deadline) <= s.clock + requests[|requests| - 1].op.ms * NSEC_PER_MSEC)
  {
    InitInv(n, initial);
    ExecInv(Init(n, initial), actions);
    CallsAnswered(n, initial, actions, t);
    BeganAtCall(Init(n, initial), actions, t);
    var s, requests := Exec(Init(n, initial), actions), Requests(Init(n, initial), actions, t);
    assert ThreadInv(s, t);
    if !s.pc[t].Idle? {
      LastAsked(requests, OpsAnswered(s.replies[t]), InProgress(s.pc[t])[0]);
    }
  }

  // ---- Progress ----

  /** Steps left without new calls, timeouts and spurious wakeups.  A thread that is about to signal has room for the
      four steps of the thread it wakes. */
  function Load(p: Pc): nat
  {
    match p
    case Idle => 0
    case AtLock(_) => 8
    case AtFirstTest(_) => 5
    case AtClock(_) => 4
    case AtTest(_, _) => 3
    case AtSleep(_, _) => 1
    case Asleep(_, _) => 0
    case AtReacquire(_, _, _) => 4
    case AtDecrement(_) => 2
    case AtIncrement => 7
    case AtSignal => 6
    case AtUnlock(_, _) => 1
  }

  /** Every action is a step or a signal, and changes something. */
  predicate Moving(s: State, actions: seq<Action>)
    decreases |actions|
  {
    actions == [] ||
    ((actions[0].Step? || actions[0].Signal?) && Next(s, actions[0]) != s && Moving(Next(s, actions[0]), actions[1..]))
  }

  predicate Settled(s: State)
  {
    forall t :: 0 <= t < |s.pc| ==> s.pc[t].Idle? || s.pc[t].Asleep?
  }

  lemma StepLightens(s: State, t: nat)
    requires WellFormed(s) && t < |s.pc| && StepOf(s, t) != s
    ensures StepOf(s, t).pc == s.pc[t := StepOf(s, t).pc[t]] && Load(StepOf(s, t).pc[t]) < Load(s.pc[t])
  {
  }

  lemma NextLightens(s: State, a: Action)
    requires WellFormed(s) && (a.Step? || a.Signal?) && Next(s, a) != s
    ensures Sum(Next(s, a).pc, Load) < Sum(s.pc, Load)
  {
    if a.Step? {
      StepLightens(s, a.t);
      SumUpdate(s.pc, Load, a.t, Next(s, a).pc[a.t]);
    } else {
      var moved := s.pc[a.t := AtUnlock(Post, Success)];
      SumUpdate(s.pc, Load, a.t, AtUnlock(Post, Success));
      if a.who < |s.pc| && s.pc[a.who].Asleep? {
        SumUpdate(moved, Load, a.who, Wake(s.pc[a.who], false));
      }
    }
  }

  lemma {:induction false} MovesBounded(s: State, actions: seq<Action>)
    requires Inv(s) && Moving(s, actions)
    ensures |actions| + Sum(Exec(s, actions).pc, Load) <= Sum(s.pc, Load)
    decreases |actions|
  {
    if actions != [] {
      NextInv(s, actions[0]);
      NextLightens(s, actions[0]);
      MovesBounded(Next(s, actions[0]), actions[1..]);
    }
  }

  /** A thread that has the mutex can go on; if nobody has it, whoever wants it can take it. */
  lemma SomebodyMoves(s: State, t: nat) returns (a: Action)
    requires Inv(s) && t < |s.pc| && !s.pc[t].Idle? && !s.pc[t].Asleep?
    ensures (a.Step? || a.Signal?) && Next(s, a) != s
  {
    assert ThreadInv(s, t);
    var u: nat := if s.holder.HeldBy? then s.holder.t else t;
    assert ThreadInv(s, u);
    if s.pc[u].AtSignal? {
      var who: nat := u;
      if !NobodyAsleep(s) {
        who :| who < |s.pc| && s.pc[who].Asleep?;
      }
      a := Signal(u, who);
      assert Next(s, a).pc[u] == AtUnlock(Post, Success);
    } else {
      a := Step(u);
      assert Next(s, a).pc[u] != s.pc[u];
    }
  }

  lemma {:induction false} CanSettle(s: State) returns (rest: seq<Action>)
    requires Inv(s)
    ensures Moving(s, rest) && Settled(Exec(s, rest))
    decreases Sum(s.pc, Load)
  {
    if Settled(s) {
      rest := [];
    } else {
      var t: nat :| t < |s.pc| && !s.pc[t].Idle? && !s.pc[t].Asleep?;
      var a := SomebodyMoves(s, t);
      NextInv(s, a);
      NextLightens(s, a);
      var more := CanSettle(Next(s, a));
      rest := [a] + more;
      assert rest[1..] == more;
    }
  }

  lemma {:induction false} LoadBounded(pc: seq<Pc>)
    ensures Sum(pc, Load) <= 8 * |pc|
  {
    if pc != [] {
      LoadBounded(pc[..|pc| - 1]);
    }
  }

  /** Progress, from every state of every run and without help from the clock or from new calls: the operations under
      way move on, for at most 8 moves a thread, until every thread is idle or asleep; and then nobody sleeps unless
      the count is 0.  So a waiter with a unit there for it does return. */
  lemma OperationsSettle(n: nat, initial: nat, before: seq<Action>)
    requires initial < COUNT_LIMIT
    ensures var s := Exec(Init(n, initial), before);
      && |s.pc| == n
      && (forall rest :: Moving(s, rest) ==> |rest| <= 8 * n)
      && (!Settled(s) ==> exists a: Action :: (a.Step? || a.Signal?) && Next(s, a) != s)
      && (exists rest :: Moving(s, rest) && Settled(Exec(s, rest)))
      && (Settled(s) && !NobodyAsleep(s) ==> s.count == 0)
  {
    InitInv(n, initial);
    ExecInv(Init(n, initial), before);
    var s := Exec(Init(n, initial), before);
    NoLostWakeup(n, initial, before);
    forall rest | Moving(s, rest)
      ensures |rest| <= 8 * n
    {
      MovesBounded(s, rest);
      LoadBounded(s.pc);
    }
    if !Settled(s) {
      var t: nat :| t < |s.pc| && !s.pc[t].Idle? && !s.pc[t].Asleep?;
      var a := SomebodyMoves(s, t);
    }
    var rest := CanSettle(s);
  }

  // ---- Refinement to an atomic counting semaphore ----

  /** What an atomic semaphore with this count may answer.  A timed wait may time out at any count: the code does
      not test the count again after ETIMEDOUT. */
  predicate Allowed(count: nat, r: Response)
  {
    match r
    case Response(Wait, reply) => reply == Success && count > 0
    case Response(TryWait, reply) => reply == Success <==> count > 0
    case Response(TimedWait(_), reply) => reply == Success ==> count > 0
    case Response(Post, reply) => reply == Success
  }

  function Applied(count: nat, r: Response): int
  {
    if r.reply == Timeout then count
    else if r.op == Post then (count + 1) % COUNT_LIMIT
    else count - 1
  }

  /** The atomic semaphore can perform the whole history, in this order, and ends with `count`. */
  ghost predicate AtomicRun(initial: nat, history: seq<Entry>, count: nat)
  {
    if history == [] then count == initial
    else
      var last := history[|history| - 1].response;
      exists before: nat ::
        AtomicRun(initial, history[..|history| - 1], before) && Allowed(before, last) && Applied(before, last) == count
  }

  /** The operations of one thread, in the order they took effect. */
  function Project(history: seq<Entry>, t: nat): seq<Response>
  {
    if history == [] then [] else
    var last := history[|history| - 1];
    Project(history[..|history| - 1], t) + (if last.t == t then [last.response] else [])
  }

  /** The operation in progress, once it has taken effect. */
  function Pending(p: Pc): seq<Response>
  {
    match p
    case AtSignal => [Response(Post, Success)]
    case AtUnlock(op, reply) => [Response(op, reply)]
    case _ => []
  }

  ghost predicate Refines(s: State, initial: nat)
  {
    && WellFormed(s)
    && AtomicRun(initial, s.history, s.count)
    && (forall i :: 0 <= i < |s.history| ==> s.history[i].t < |s.pc|)
    && forall t :: 0 <= t < |s.pc| ==> Project(s.history, t) == s.replies[t] + Pending(s.pc[t])
  }

  lemma AppendEntry(s: State, initial: nat, e: Entry, count: nat)
    requires AtomicRun(initial, s.history, s.count) && Allowed(s.count, e.response)
    requires Applied(s.count, e.response) == count
    ensures AtomicRun(initial, s.history + [e], count)
    ensures forall t :: Project(s.history + [e], t) == Project(s.history, t) + (if e.t == t then [e.response] else [])
  {
    assert (s.history + [e])[..|s.history|] == s.history;
  }

  /** A move by which t's operation takes effect. */
  lemma EffectRefines(s: State, s': State, initial: nat, t: nat, r: Response)
    requires Refines(s, initial) && WellFormed(s') && t < |s.pc| == |s'.pc|
    requires s'.history == s.history + [Entry(t, r)] && s'.replies == s.replies && s'.pc == s.pc[t := s'.pc[t]]
    requires Pending(s.pc[t]) == [] && Pending(s'.pc[t]) == [r]
    requires Allowed(s.count, r) && Applied(s.count, r) == s'.count
    ensures Refines(s', initial)
  {
    AppendEntry(s, initial, Entry(t, r), s'.count);
  }

  /** A move without effect on the atomic semaphore. */
  lemma QuietRefines(s: State, s': State, initial: nat, t: nat)
    requires Refines(s, initial) && WellFormed(s') && t < |s.pc| == |s'.pc|
    requires s'.history == s.history && s'.count == s.count && s'.pc == s.pc[t := s'.pc[t]]
    requires forall u :: 0 <= u < |s.pc| && u != t ==> s'.replies[u] == s.replies[u]
    requires s'.replies[t] + Pending(s'.pc[t]) == s.replies[t] + Pending(s.pc[t])
    ensures Refines(s', initial)
  {
  }

  lemma DecrementRefines(s: State, initial: nat, t: nat)
    requires Inv(s) && Refines(s, initial) && t < |s.pc| && s.pc[t].AtDecrement?
    ensures Refines(StepOf(s, t), initial)
  {
    assert ThreadInv(s, t);
    EffectRefines(s, StepOf(s, t), initial, t, Response(s.pc[t].op, Success));
  }

  lemma IncrementRefines(s: State, initial: nat, t: nat)
    requires Inv(s) && Refines(s, initial) && t < |s.pc| && s.pc[t].AtIncrement?
    ensures Refines(StepOf(s, t), initial)
  {
    EffectRefines(s, StepOf(s, t), initial, t, Response(Post, Success));
  }

  /** trywait at 0 reports TIMEOUT; the other tests have no effect of their own. */
  lemma TestRefines(s: State, initial: nat, t: nat)
    requires Inv(s) && Refines(s, initial) && t < |s.pc| && s.pc[t].AtTest?
    ensures Refines(StepOf(s, t), initial)
  {
    if s.count == 0 && s.pc[t].op.TryWait? {
      EffectRefines(s, StepOf(s, t), initial, t, Response(s.pc[t].op, Timeout));
    } else {
      QuietRefines(s, StepOf(s, t), initial, t);
    }
  }

  /** A timed wait that comes back with ETIMEDOUT reports TIMEOUT. */
  lemma ReacquireRefines(s: State, initial: nat, t: nat)
    requires Inv(s) && Refines(s, initial) && t < |s.pc| && s.pc[t].AtReacquire?
    ensures Refines(StepOf(s, t), initial)
  {
    assert ThreadInv(s, t);
    if s.holder == Free && s.pc[t].timedOut {
      EffectRefines(s, StepOf(s, t), initial, t, Response(s.pc[t].op, Timeout));
    } else {
      QuietRefines(s, StepOf(s, t), initial, t);
    }
  }

  lemma QuietStepRefines(s: State, initial: nat, t: nat)
    requires Inv(s) && Refines(s, initial) && t < |s.pc|
    requires !s.pc[t].AtDecrement? && !s.pc[t].AtIncrement? && !s.pc[t].AtTest? && !s.pc[t].AtReacquire?
    ensures Refines(StepOf(s, t), initial)
  {
    QuietRefines(s, StepOf(s, t), initial, t);
  }

  lemma StepRefines(s: State, initial: nat, t: nat)
    requires Inv(s) && Refines(s, initial) && t < |s.pc|
    ensures Refines(StepOf(s, t), initial)
  {
    if s.pc[t].AtDecrement? {
      DecrementRefines(s, initial, t);
    } else if s.pc[t].AtIncrement? {
      IncrementRefines(s, initial, t);
    } else if s.pc[t].AtTest? {
      TestRefines(s, initial, t);
    } else if s.pc[t].AtReacquire? {
      ReacquireRefines(s, initial, t);
    } else {
      QuietStepRefines(s, initial, t);
    }
  }

  lemma SignalRefines(s: State, initial: nat, t: nat, who: nat)
    requires Refines(s, initial) && t < |s.pc| && s.pc[t].AtSignal?
    ensures Refines(SignalOf(s, t, who), initial)
  {
    var moved := s.(pc := s.pc[t := AtUnlock(Post, Success)]);
    QuietRefines(s, moved, initial, t);
    if who < |s.pc| && s.pc[who].Asleep? {
      QuietRefines(moved, SignalOf(s, t, who), initial, who);
    }
  }

  lemma NextRefines(s: State, initial: nat, a: Action)
    requires Inv(s) && Refines(s, initial)
    ensures Refines(Next(s, a), initial)
  {
    match a
    case Step(t) => if t < |s.pc| { StepRefines(s, initial, t); }
    case Signal(t, who) => if t < |s.pc| && s.pc[t].AtSignal? { SignalRefines(s, initial, t, who); }
    case Call(t, _) => if t < |s.pc| { QuietRefines(s, Next(s, a), initial, t); }
    case SpuriousWakeup(t) => if t < |s.pc| { QuietRefines(s, Next(s, a), initial, t); }
    case Expire(t) => if t < |s.pc| { QuietRefines(s, Next(s, a), initial, t); }
    case Tick(_) =>
  }

  lemma {:induction false} ExecRefines(s: State, initial: nat, actions: seq<Action>)
    requires Inv(s) && Refines(s, initial)
    ensures Refines(Exec(s, actions), initial)
    decreases |actions|
  {
    if actions != [] {
      NextInv(s, actions[0]);
      NextRefines(s, initial, actions[0]);
      ExecRefines(Next(s, actions[0]), initial, actions[1..]);
    }
  }

  /** Every run of the step machine is explained by an atomic semaphore: all operations, in the order they took
      effect, are answers the atomic semaphore may give, they leave it at `count`, and each thread has been told
      exactly the outcomes of its own operations, in order. */
  lemma RefinesAtomicSemaphore(n: nat, initial: nat, actions: seq<Action>)
    requires initial < COUNT_LIMIT
    ensures var s := Exec(Init(n, initial), actions);
      && AtomicRun(initial, s.history, s.count)
      && |s.pc| == n && |s.replies| == n
      && (forall i :: 0 <= i < |s.history| ==> s.history[i].t < n)
      && forall t :: 0 <= t < n ==> Project(s.history, t) == s.replies[t] + Pending(s.pc[t])
  {
    InitInv(n, initial);
    ExecInv(Init(n, initial), actions);
    ExecRefines(Init(n, initial), initial, actions);
  }

  // ---- Conservation ----

  function Posts(history: seq<Entry>): nat
  {
    if history == [] then 0
    else Posts(history[..|history| - 1]) + (if history[|history| - 1].response.op == Post then 1 else 0)
  }

  /** Successful waits of all three kinds. */
  function Takes(history: seq<Entry>): nat
  {
    if history == [] then 0
    else
      var r := history[|history| - 1].response;
      Takes(history[..|history| - 1]) + (if r.reply == Success && r.op != Post then 1 else 0)
  }

  lemma {:induction false} AtomicRunConserves(initial: nat, history: seq<Entry>, count: nat) returns (wraps: nat)
    requires initial < COUNT_LIMIT && AtomicRun(initial, history, count)
    ensures count < COUNT_LIMIT
    ensures count + Takes(history) + wraps * COUNT_LIMIT == initial + Posts(history)
    decreases |history|
  {
    wraps := 0;
    if history != [] {
      var n := |history| - 1;
      var last := history[n].response;
      var before: nat :|
        AtomicRun(initial, history[..n], before) && Allowed(before, last) && Applied(before, last) == count;
      wraps := AtomicRunConserves(initial, history[..n], before);
      if last.op == Post && before + 1 == COUNT_LIMIT {
        wraps := wraps + 1;
      }
    }
  }

  /** The count is initial + posts - successful waits modulo 2^32, and exactly that when it never exceeds 2^32 - 1;
      failed waits leave it alone. */
  lemma CountConserved(n: nat, initial: nat, actions: seq<Action>)
    requires initial < COUNT_LIMIT
    ensures var s := Exec(Init(n, initial), actions);
      && Takes(s.history) <= initial + Posts(s.history)
      && s.count == (initial + Posts(s.history) - Takes(s.history)) % COUNT_LIMIT
      && (initial + Posts(s.history) < COUNT_LIMIT ==> s.count == initial + Posts(s.history) - Takes(s.history))
  {
    RefinesAtomicSemaphore(n, initial, actions);
    var s := Exec(Init(n, initial), actions);
    var wraps := AtomicRunConserves(initial, s.history, s.count);
  }

  // ---- The code, one method per access to the shared state ----

  class Sem {
    var count: nat
    var holder: Holder
    var pc: seq<Pc>
    var clock: nat
    ghost var began: seq<nat>
    ghost var history: seq<Entry>
    ghost var replies: seq<seq<Response>>

    ghost function View(): State
      reads this
    {
      State(count, holder, pc, clock, began, history, replies)
    }

    ghost predicate Valid()
      reads this
    {
      Inv(View())
    }

    constructor (n: nat, initial: nat)
      requires initial < COUNT_LIMIT
      ensures View() == Init(n, initial)
      ensures Valid()
    {
      count, holder, clock := initial, Free, 0;
      pc := seq(n, _ => Idle);
      began, history, replies := seq(n, _ => 0), [], seq(n, _ => []);
      new;
      InitInv(n, initial);
    }

    /** A thread calls one of the four operations. */
    method Begin(t: nat, op: Op)
      requires Valid() && t < |pc| && pc[t].Idle? && (op.TimedWait? ==> op.ms < UINT32_LIMIT)
      modifies this
      ensures View() == Next(old(View()), Call(t, op))
      ensures Valid()
    {
      NextInv(View(), Call(t, op));
      pc := pc[t := AtLock(op)];
      began := began[t := clock];
    }

    /** pthread_mutex_lock; a caller that finds the mutex taken waits. */
    method LockMutex(t: nat)
      requires Valid() && t < |pc| && pc[t].AtLock?
      modifies this
      ensures View() == Next(old(View()), Step(t))
      ensures Valid()
    {
      NextInv(View(), Step(t));
      if holder == Free {
        holder := HeldBy(t);
        match pc[t].op {
          case Post => pc := pc[t := AtIncrement];
          case TimedWait(ms) => pc := pc[t := AtFirstTest(ms)];
          case Wait => pc := pc[t := AtTest(Wait, Never)];
          case TryWait => pc := pc[t := AtTest(TryWait, Never)];
        }
      }
    }

    /** timedwait: if (sem->count > 0), before the clock is read */
    method FirstTest(t: nat)
      requires Valid() && t < |pc| && pc[t].AtFirstTest?
      modifies this
      ensures View() == Next(old(View()), Step(t))
      ensures Valid()
    {
      NextInv(View(), Step(t));
      var ms := pc[t].ms;
      if count > 0 {
        pc := pc[t := AtDecrement(TimedWait(ms))];
      } else {
        pc := pc[t := AtClock(ms)];
      }
    }

    /** timedwait: clock_gettime and the deadline arithmetic */
    method ReadClock(t: nat)
      requires Valid() && t < |pc| && pc[t].AtClock? && pc[t].ms < UINT32_LIMIT
      modifies this
      ensures View() == Next(old(View()), Step(t))
      ensures Valid()
    {
      NextInv(View(), Step(t));
      var ms := pc[t].ms;
      var deadline, _ := DeadlineAfter(Reading(clock), ms);
      pc := pc[t := AtTest(TimedWait(ms), Until(deadline))];
    }

    /** while (sem->count == 0), or trywait's if (sem->count > 0) */
    method TestCount(t: nat)
      requires Valid() && t < |pc| && pc[t].AtTest?
      modifies this
      ensures View() == Next(old(View()), Step(t))
      ensures Valid()
    {
      NextInv(View(), Step(t));
      var op, limit := pc[t].op, pc[t].limit;
      if count > 0 {
        pc := pc[t := AtDecrement(op)];
      } else if op.TryWait? {
        pc := pc[t := AtUnlock(op, Timeout)];
        history := history + [Entry(t, Response(op, Timeout))];
      } else {
        pc := pc[t := AtSleep(op, limit)];
      }
    }

    /** pthread_cond_wait / pthread_cond_timedwait, entry: give up the mutex and sleep, in one step */
    method CondWait(t: nat)
      requires Valid() && t < |pc| && pc[t].AtSleep?
      modifies this
      ensures View() == Next(old(View()), Step(t))
      ensures Valid()
    {
      NextInv(View(), Step(t));
      holder := Free;
      pc := pc[t := Asleep(pc[t].op, pc[t].limit)];
    }

    /** The condition variable lets a sleeper go without a signal. */
    method WakeSpuriously(t: nat)
      requires Valid() && t < |pc| && pc[t].Asleep?
      modifies this
      ensures View() == Next(old(View()), SpuriousWakeup(t))
      ensures Valid()
    {
      NextInv(View(), SpuriousWakeup(t));
      pc := pc[t := AtReacquire(pc[t].op, pc[t].limit, false)];
    }

    /** The sleeper's deadline is reached. */
    method DeadlineReached(t: nat)
      requires Valid() && t < |pc| && pc[t].Asleep? && Expired(pc[t].limit, clock)
      modifies this
      ensures View() == Next(old(View()), Expire(t))
      ensures Valid()
    {
      NextInv(View(), Expire(t));
      pc := pc[t := AtReacquire(pc[t].op, pc[t].limit, true)];
    }

    /** Back from the condition variable once the mutex can be taken again; ETIMEDOUT leads out without a test. */
    method Reacquire(t: nat)
      requires Valid() && t < |pc| && pc[t].AtReacquire?
      modifies this
      ensures View() == Next(old(View()), Step(t))
      ensures Valid()
    {
      NextInv(View(), Step(t));
      var op, limit, timedOut := pc[t].op, pc[t].limit, pc[t].timedOut;
      if holder == Free {
        holder := HeldBy(t);
        if timedOut {
          pc := pc[t := AtUnlock(op, Timeout)];
          history := history + [Entry(t, Response(op, Timeout))];
        } else {
          pc := pc[t := AtTest(op, limit)];
        }
      }
    }

    /** sem->count--, which never happens at 0 */
    method Decrement(t: nat)
      requires Valid() && t < |pc| && pc[t].AtDecrement?
      modifies this
      ensures View() == Next(old(View()), Step(t))
      ensures Valid()
      ensures old(count) > 0 && count == old(count) - 1
    {
      assert ThreadInv(View(), t);
      NextInv(View(), Step(t));
      var op := pc[t].op;
      count := count - 1;
      pc := pc[t := AtUnlock(op, Success)];
      history := history + [Entry(t, Response(op, Success))];
    }

    /** sem->count++ on an unsigned 32-bit counter */
    method Increment(t: nat)
      requires Valid() && t < |pc| && pc[t].AtIncrement?
      modifies this
      ensures View() == Next(old(View()), Step(t))
      ensures Valid()
    {
      NextInv(View(), Step(t));
      count := (count + 1) % COUNT_LIMIT;
      pc := pc[t := AtSignal];
      history := history + [Entry(t, Response(Post, Success))];
    }

    /** pthread_cond_signal: one sleeper, of the condition variable's choice, is woken; none if nobody sleeps. */
    method CondSignal(t: nat, who: nat)
      requires Valid() && t < |pc| && pc[t].AtSignal?
      requires (who < |pc| && pc[who].Asleep?) || NobodyAsleep(View())
      modifies this
      ensures View() == Next(old(View()), Signal(t, who))
      ensures Valid()
    {
      NextInv(View(), Signal(t, who));
      var wakes := who < |pc| && pc[who].Asleep?;
      pc := pc[t := AtUnlock(Post, Success)];
      if wakes {
        pc := pc[who := AtReacquire(pc[who].op, pc[who].limit, false)];
      }
    }

    /** pthread_mutex_unlock and return */
    method UnlockMutex(t: nat)
      requires Valid() && t < |pc| && pc[t].AtUnlock?
      modifies this
      ensures View() == Next(old(View()), Step(t))
      ensures Valid()
    {
      NextInv(View(), Step(t));
      holder := Free;
      replies := replies[t := replies[t] + [Response(pc[t].op, pc[t].reply)]];
      pc := pc[t := Idle];
    }

    /** Whatever thread t does next on its own. */
    method StepThread(t: nat)
      requires Valid() && t < |pc|
      modifies this
      ensures View() == Next(old(View()), Step(t))
      ensures Valid()
    {
      match pc[t] {
        case AtLock(_) => LockMutex(t);
        case AtFirstTest(_) => FirstTest(t);
        case AtClock(ms) => assert ThreadInv(View(), t); ReadClock(t);
        case AtTest(_, _) => TestCount(t);
        case AtSleep(_, _) => CondWait(t);
        case AtReacquire(_, _, _) => Reacquire(t);
        case AtDecrement(_) => Decrement(t);
        case AtIncrement => Increment(t);
        case AtUnlock(_, _) => UnlockMutex(t);
        case Idle =>
        case Asleep(_, _) =>
        case AtSignal =>
      }
    }

    method StepSystem(a: Action)
      requires Valid()
      modifies this
      ensures View() == Next(old(View()), a)
      ensures Valid()
    {
      match a {
        case Call(t, op) =>
          if t < |pc| && pc[t].Idle? && (op.TimedWait? ==> op.ms < UINT32_LIMIT) {
            Begin(t, op);
          }
        case Step(t) =>
          if t < |pc| {
            StepThread(t);
          }
        case Signal(t, who) =>
          if t < |pc| && pc[t].AtSignal? {
            var nobody := forall j :: 0 <= j < |pc| ==> !pc[j].Asleep?;
            if (who < |pc| && pc[who].Asleep?) || nobody {
              CondSignal(t, who);
            }
          }
        case SpuriousWakeup(t) =>
          if t < |pc| && pc[t].Asleep? {
            WakeSpuriously(t);
          }
        case Expire(t) =>
          if t < |pc| && pc[t].Asleep? && Expired(pc[t].limit, clock) {
            DeadlineReached(t);
          }
        case Tick(nanos) =>
          NextInv(View(), a);
          clock := clock + nanos;
      }
    }

    /** Any interleaving of threads, wakeups and the clock. */
    method Run(actions: seq<Action>)
      requires Valid()
      modifies this
      ensures View() == Exec(old(View()), actions)
      ensures Valid()
    {
      var i := 0;
      while i < |actions|
        invariant 0 <= i <= |actions|
        invariant Valid() && Exec(View(), actions[i..]) == Exec(old(View()), actions)
      {
        assert actions[i..][1..] == actions[i + 1..];
        StepSystem(actions[i]);
        i := i + 1;
      }
    }
  }
}
