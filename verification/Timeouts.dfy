/** What a TIMEOUT of ccsem_timedwait (ccsem.c) says about the count.  The header promises that the count was 0 for the
    entire timeout; the code keeps this promise exactly under the conditions below. */
module Timeouts {
  import opened Deadline
  import opened Semaphore
  import Threads

  // ---- A run that breaks the promise ----

  /** At clock 0 thread 0 has begun to wait for at most one millisecond, and sleeps. */
  const TIMED_ASLEEP := Asleep(TimedWait(1), Until(Timespec(0, 1_000_000)))
  const ONE_SLEEPS := State(0, Threads.Free, [TIMED_ASLEEP, Idle, Idle], 0, [0, 0, 0], [], [[], [], []])

  /** Thread 2 has begun to wait without a limit, and sleeps too. */
  const TWO_SLEEP := ONE_SLEEPS.(pc := [TIMED_ASLEEP, Idle, Asleep(Wait, Never)])

  /** Thread 1 has posted, still at clock 0.  Its signal has gone to thread 2, which has not got the mutex back yet. */
  const POSTED :=
    TWO_SLEEP.(count := 1, pc := [TIMED_ASLEEP, Idle, AtReacquire(Wait, Never, false)],
               history := [Entry(1, Response(Post, Success))], replies := [[], [Response(Post, Success)], []])

  lemma FirstSleeps()
    ensures Exec(Init(3, 0), [Call(0, TimedWait(1)), Step(0), Step(0), Step(0), Step(0), Step(0)]) == ONE_SLEEPS
  {
    var op, limit := TimedWait(1), Until(Timespec(0, 1_000_000));
    var s := Init(3, 0);
    assert s == ONE_SLEEPS.(pc := [Idle, Idle, Idle]);
    TotalDetermines(DeadlineAt(0, 1), Timespec(0, 1_000_000));
    var m := ONE_SLEEPS.(holder := Threads.HeldBy(0), pc := [AtTest(op, limit), Idle, Idle]);
    assert StepOf(StepOf(StepOf(Next(s, Call(0, op)), 0), 0), 0) == m;
    assert StepOf(StepOf(m, 0), 0) == ONE_SLEEPS;
  }

  lemma SecondSleeps()
    ensures Exec(ONE_SLEEPS, [Call(2, Wait), Step(2), Step(2), Step(2)]) == TWO_SLEEP
  {
    var s := ONE_SLEEPS;
    assert Next(Next(s, Call(2, Wait)), Step(2))
        == s.(holder := Threads.HeldBy(2), pc := [TIMED_ASLEEP, Idle, AtTest(Wait, Never)]);
  }

  lemma ThirdPosts()
    ensures Exec(TWO_SLEEP, [Call(1, Post), Step(1), Step(1), Signal(1, 2), Step(1)]) == POSTED
  {
    var s3 := Next(Next(Next(TWO_SLEEP, Call(1, Post)), Step(1)), Step(1));
    assert s3 == TWO_SLEEP.(count := 1, holder := Threads.HeldBy(1),
                            pc := [TIMED_ASLEEP, AtSignal, Asleep(Wait, Never)],
                            history := [Entry(1, Response(Post, Success))]);
    var s4 := Next(s3, Signal(1, 2));
    assert s4 == s3.(pc := [TIMED_ASLEEP, AtUnlock(Post, Success), AtReacquire(Wait, Never, false)]);
    var s5 := Next(s4, Step(1));
    assert s5.replies[1] == [] + [Response(Post, Success)] == [Response(Post, Success)];
    assert s5.replies == POSTED.replies && s5.pc == POSTED.pc;
  }

  /** The header promises that TIMEOUT means the count was 0 for the whole interval; the code does not keep it.
      Thread 0 sleeps with a limit of one millisecond, and thread 2 without one.  Thread 1 posts at once, and its signal
      wakes thread 2.  From clock 0 on there is a unit to take, and nobody takes it; thread 0 reaches its deadline a
      millisecond later and reports TIMEOUT. */
  lemma TimeoutThoughUnitAvailable()
    ensures var asleep := Exec(Exec(Init(3, 0), [Call(0, TimedWait(1)), Step(0), Step(0), Step(0), Step(0), Step(0)]),
                               [Call(2, Wait), Step(2), Step(2), Step(2)]);
      var posted := Exec(asleep, [Call(1, Post), Step(1), Step(1), Signal(1, 2), Step(1)]);
      var late := [Tick(1_000_000), Expire(0), Step(0)];
      && |posted.pc| == 3 && posted.pc[0] == TIMED_ASLEEP && posted.clock == 0
      && (forall k :: 0 <= k <= 3 ==> Exec(posted, late[..k]).count == 1)
      && |Exec(posted, late).pc| == 3 && Exec(posted, late).pc[0] == AtUnlock(TimedWait(1), Timeout)
  {
    FirstSleeps();
    SecondSleeps();
    ThirdPosts();
    UnitStaysUntaken();
  }

  lemma UnitStaysUntaken()
    ensures var late := [Tick(1_000_000), Expire(0), Step(0)];
      && (forall k :: 0 <= k <= 3 ==> Exec(POSTED, late[..k]).count == 1)
      && |Exec(POSTED, late).pc| == 3 && Exec(POSTED, late).pc[0] == AtUnlock(TimedWait(1), Timeout)
  {
    var late := [Tick(1_000_000), Expire(0), Step(0)];
    var s1 := Next(POSTED, Tick(1_000_000));
    assert s1 == POSTED.(clock := 1_000_000);
    assert AtOrBefore(Timespec(0, 1_000_000), Reading(1_000_000));
    var s2 := Next(s1, Expire(0));
    assert s2.pc[0] == AtReacquire(TimedWait(1), Until(Timespec(0, 1_000_000)), true);
    assert late[..0] == [] && late[..1] == [late[0]] && late[..2] == [late[0], late[1]] && late[..3] == late;
    assert Exec(s1, [Expire(0)]) == s2 && Exec(s1, [Expire(0), Step(0)]) == Next(s2, Step(0));
    assert [late[0], late[1]][1..] == [Expire(0)] && late[1..] == [Expire(0), Step(0)];
  }

  // ---- When nothing could be taken ----

  /** The count is 0 all along the run. */
  ghost predicate StaysZero(s: State, actions: seq<Action>)
  {
    forall k :: 0 <= k <= |actions| ==> Exec(s, actions[..k]).count == 0
  }

  /** The count is 0 at every moment of the run at which the clock has not reached the deadline. */
  ghost predicate ZeroUntil(s: State, actions: seq<Action>, deadline: nat)
  {
    forall k :: 0 <= k <= |actions| && Exec(s, actions[..k]).clock < deadline ==> Exec(s, actions[..k]).count == 0
  }

  /** How many actions it takes the run to bring the clock to the deadline. */
  function Reaching(s: State, actions: seq<Action>, deadline: nat): (k: nat)
    ensures k <= |actions|
    decreases |actions|
  {
    if actions == [] || s.clock >= deadline then 0 else 1 + Reaching(Next(s, actions[0]), actions[1..], deadline)
  }

  lemma PostsStep(s: State, a: Action)
    requires Inv(s)
    ensures Posts(s.history) <= Posts(Next(s, a).history)
    ensures s.count == 0 ==> (Next(s, a).count == 0 <==> Posts(Next(s, a).history) == Posts(s.history))
    ensures s.clock <= Next(s, a).clock && (Next(s, a).clock == s.clock || Next(s, a).count == s.count)
  {
    var s' := Next(s, a);
    if a.Step? && a.t < |s.pc| {
      assert ThreadInv(s, a.t);
      assert s'.history != s.history ==> s'.history[..|s.history|] == s.history;
    }
  }

  lemma {:induction false} PostsGrow(s: State, actions: seq<Action>)
    requires Inv(s)
    ensures Posts(s.history) <= Posts(Exec(s, actions).history)
    decreases |actions|
  {
    if actions != [] {
      NextInv(s, actions[0]);
      PostsStep(s, actions[0]);
      PostsGrow(Next(s, actions[0]), actions[1..]);
    }
  }

  /** From a moment at which the count is 0 it is 0 throughout a run exactly when no post takes effect in it. */
  lemma {:induction false} ZeroThroughoutIffNoPost(s: State, actions: seq<Action>)
    requires Inv(s) && s.count == 0
    ensures StaysZero(s, actions) <==> Posts(Exec(s, actions).history) == Posts(s.history)
    decreases |actions|
  {
    assert Exec(s, actions[..0]).count == 0;
    if actions != [] {
      var s' := Next(s, actions[0]);
      NextInv(s, actions[0]);
      PostsStep(s, actions[0]);
      PostsGrow(s', actions[1..]);
      PrefixesShift(s, actions);
      if s'.count == 0 {
        ZeroThroughoutIffNoPost(s', actions[1..]);
      } else {
        assert Exec(s, actions[..1]) == Exec(s', actions[1..][..0]) == s';
      }
    }
  }

  lemma PrefixesShift(s: State, actions: seq<Action>)
    requires actions != []
    ensures forall k :: 0 < k <= |actions| ==> Exec(s, actions[..k]) == Exec(Next(s, actions[0]), actions[1..][..k - 1])
    ensures s.count == 0 ==> (StaysZero(s, actions) <==> StaysZero(Next(s, actions[0]), actions[1..]))
  {
    var s' := Next(s, actions[0]);
    forall k | 0 < k <= |actions|
      ensures Exec(s, actions[..k]) == Exec(s', actions[1..][..k - 1])
    {
      assert actions[..k][1..] == actions[1..][..k - 1];
    }
    if StaysZero(s, actions) {
      forall k | 0 <= k <= |actions[1..]|
        ensures Exec(s', actions[1..][..k]).count == 0
      {
        assert Exec(s, actions[..k + 1]).count == 0;
      }
    }
  }

  lemma {:induction false} ClockGrows(s: State, actions: seq<Action>)
    requires Inv(s)
    ensures s.clock <= Exec(s, actions).clock
    decreases |actions|
  {
    if actions != [] {
      NextInv(s, actions[0]);
      PostsStep(s, actions[0]);
      ClockGrows(Next(s, actions[0]), actions[1..]);
    }
  }

  /** The prefixes of a run are its first state and the prefixes of the rest. */
  lemma UntilShift(s: State, actions: seq<Action>, deadline: nat)
    requires actions != [] && s.clock < deadline
    ensures ZeroUntil(s, actions, deadline) <==>
      s.count == 0 && ZeroUntil(Next(s, actions[0]), actions[1..], deadline)
  {
    PrefixesShift(s, actions);
    var s' := Next(s, actions[0]);
    assert Exec(s, actions[..0]) == s;
    if ZeroUntil(s, actions, deadline) {
      forall k | 0 <= k <= |actions[1..]| && Exec(s', actions[1..][..k]).clock < deadline
        ensures Exec(s', actions[1..][..k]).count == 0
      {
        assert Exec(s, actions[..k + 1]) == Exec(s', actions[1..][..k]);
      }
    }
  }

  lemma AfterDeadline(s: State, actions: seq<Action>, deadline: nat)
    requires Inv(s) && s.clock >= deadline
    ensures ZeroUntil(s, actions, deadline)
  {
    forall k | 0 <= k <= |actions|
      ensures Exec(s, actions[..k]).clock >= deadline
    {
      ClockGrows(s, actions[..k]);
    }
  }

  /** Up to the deadline the count is 0 exactly when no post takes effect up to then. */
  lemma {:induction false} ZeroUntilIffNoPost(s: State, actions: seq<Action>, deadline: nat)
    requires Inv(s) && s.count == 0
    ensures ZeroUntil(s, actions, deadline) <==>
      Posts(Exec(s, actions[..Reaching(s, actions, deadline)]).history) == Posts(s.history)
    decreases |actions|
  {
    if s.clock >= deadline {
      AfterDeadline(s, actions, deadline);
    } else if actions != [] {
      var s', reached := Next(s, actions[0]), Reaching(Next(s, actions[0]), actions[1..], deadline);
      NextInv(s, actions[0]);
      PostsStep(s, actions[0]);
      UntilShift(s, actions, deadline);
      assert actions[..1 + reached][1..] == actions[1..][..reached];
      if s'.count == 0 {
        ZeroUntilIffNoPost(s', actions[1..], deadline);
      } else {
        assert Exec(s', actions[1..][..0]) == s';
        PostsGrow(s', actions[1..][..reached]);
      }
    } else {
      assert Exec(s, actions[..0]) == s;
    }
  }

  lemma {:induction false} ReachingIsFirst(s: State, actions: seq<Action>, deadline: nat)
    requires Inv(s) && Exec(s, actions).clock >= deadline
    ensures var k := Reaching(s, actions, deadline);
      && Exec(s, actions[..k]).clock >= deadline
      && forall j :: 0 <= j < k ==> Exec(s, actions[..j]).clock < deadline
    decreases |actions|
  {
    if s.clock < deadline && actions != [] {
      NextInv(s, actions[0]);
      ReachingIsFirst(Next(s, actions[0]), actions[1..], deadline);
      PrefixesShift(s, actions);
    }
  }

  // ---- The call in progress ----

  /** t is about to read the clock for its timed wait. */
  predicate StartsInterval(s: State, t: nat)
  {
    WellFormed(s) && t < |s.pc| && s.pc[t].AtClock?
  }

  /** The deadline that it will compute. */
  function DeadlineOf(s: State, t: nat): nat
    requires StartsInterval(s, t)
  {
    s.clock + s.pc[t].ms * NSEC_PER_MSEC
  }

  /** In s' the call that t was in at s reports TIMEOUT. */
  predicate ReportsTimeout(s: State, s': State, t: nat)
  {
    && WellFormed(s) && WellFormed(s') && t < |s.pc| && t < |s'.pc|
    && s'.replies[t] == s.replies[t]
    && s'.pc[t].AtUnlock? && s'.pc[t].op.TimedWait? && s'.pc[t].reply.Timeout?
  }

  /** Between the reading of the clock and the return of a timed wait with this deadline. */
  predicate Waiting(p: Pc, clock: nat, deadline: nat)
  {
    match p
    case AtTest(op, limit) => op.TimedWait? && limit.Until? && Nanos(limit.deadline) == deadline
    case AtSleep(op, limit) => op.TimedWait? && limit.Until? && Nanos(limit.deadline) == deadline
    case Asleep(op, limit) => op.TimedWait? && limit.Until? && Nanos(limit.deadline) == deadline
    case AtReacquire(op, limit, _) => op.TimedWait? && limit.Until? && Nanos(limit.deadline) == deadline
    case AtDecrement(op) => op.TimedWait?
    case AtUnlock(op, reply) => op.TimedWait? && (reply.Timeout? ==> deadline <= clock)
    case _ => false
  }

  lemma WaitingStep(s: State, a: Action, t: nat, deadline: nat)
    requires Inv(s) && t < |s.pc| && Waiting(s.pc[t], s.clock, deadline)
    ensures var s' := Next(s, a);
      && |s'.pc| == |s.pc| && |s'.replies| == |s.replies|
      && (|s'.replies[t]| > |s.replies[t]|
          || (s'.replies[t] == s.replies[t] && Waiting(s'.pc[t], s'.clock, deadline)))
  {
    assert ThreadInv(s, t);
  }

  lemma {:induction false} RepliesGrow(s: State, actions: seq<Action>, t: nat)
    requires WellFormed(s) && t < |s.pc|
    ensures var s' := Exec(s, actions);
      WellFormed(s') && |s'.pc| == |s.pc| && |s.replies[t]| <= |s'.replies[t]|
    decreases |actions|
  {
    if actions != [] {
      RepliesGrow(Next(s, actions[0]), actions[1..], t);
    }
  }

  /** A call that is not over has its deadline still. */
  lemma {:induction false} WaitingLasts(s: State, actions: seq<Action>, t: nat, deadline: nat)
    requires Inv(s) && t < |s.pc| && Waiting(s.pc[t], s.clock, deadline)
    ensures var s' := Exec(s, actions);
      && |s'.pc| == |s.pc| && |s'.replies| == |s.replies|
      && (|s'.replies[t]| == |s.replies[t]| ==> Waiting(s'.pc[t], s'.clock, deadline))
    decreases |actions|
  {
    if actions != [] {
      var s' := Next(s, actions[0]);
      NextInv(s, actions[0]);
      WaitingStep(s, actions[0], t, deadline);
      RepliesGrow(s', actions[1..], t);
      if s'.replies[t] == s.replies[t] {
        WaitingLasts(s', actions[1..], t, deadline);
      }
    }
  }

  /** The step that reads the clock. */
  lemma ReadsClock(s: State, t: nat)
    requires Inv(s) && StartsInterval(s, t)
    ensures var s' := Next(s, Step(t));
      && Inv(s') && s'.count == s.count == 0 && s'.clock == s.clock && s'.history == s.history
      && s'.replies == s.replies && s.holder == s'.holder == Threads.HeldBy(t)
      && s'.pc == s.pc[t := AtTest(TimedWait(s.pc[t].ms), Until(Reading(DeadlineOf(s, t))))]
      && Waiting(s'.pc[t], s'.clock, DeadlineOf(s, t))
  {
    assert ThreadInv(s, t);
    NextInv(s, Step(t));
  }

  /** Exactly when the promise is kept in a run.  For every timed wait that reports TIMEOUT: the clock did reach its
      deadline, and before that the count was 0 throughout if and only if no post took effect.  A post between the
      deadline and the report does not matter to the promise; with it, the count was 0 at every moment up to the k-th
      action exactly if no post was among those actions. */
  lemma PromiseKeptIffNoPost(n: nat, initial: nat, before: seq<Action>, rest: seq<Action>, t: nat)
    requires initial < COUNT_LIMIT
    requires StartsInterval(Exec(Init(n, initial), before), t)
    requires var s := Exec(Init(n, initial), before);
      ReportsTimeout(s, Exec(Next(s, Step(t)), rest), t)
    ensures var s := Exec(Init(n, initial), before);
      var read, deadline := Next(s, Step(t)), DeadlineOf(s, t);
      var reached := Reaching(read, rest, deadline);
      && Exec(read, rest[..reached]).clock >= deadline
      && (forall k :: 0 <= k < reached ==> Exec(read, rest[..k]).clock < deadline)
      && (ZeroUntil(read, rest, deadline) <==> Posts(Exec(read, rest[..reached]).history) == Posts(s.history))
      && (forall k :: 0 <= k <= |rest| ==>
            (StaysZero(read, rest[..k]) <==> Posts(Exec(read, rest[..k]).history) == Posts(s.history)))
  {
    InitInv(n, initial);
    ExecInv(Init(n, initial), before);
    var s := Exec(Init(n, initial), before);
    ReadsClock(s, t);
    var read, deadline := Next(s, Step(t)), DeadlineOf(s, t);
    WaitingLasts(read, rest, t, deadline);
    ReachingIsFirst(read, rest, deadline);
    ZeroUntilIffNoPost(read, rest, deadline);
    forall k | 0 <= k <= |rest|
      ensures StaysZero(read, rest[..k]) <==> Posts(Exec(read, rest[..k]).history) == Posts(s.history)
    {
      ZeroThroughoutIffNoPost(read, rest[..k]);
    }
  }

  // ---- When the promise is certain to be kept ----

  /** A thread in this position cannot be out of its operation before the deadline unless somebody posts: it waits
      without a limit, or with a limit that is no earlier. */
  predicate Confined(p: Pc, clock: nat, deadline: nat)
  {
    match p
    case AtLock(op) => op.Wait? || (op.TimedWait? && clock + op.ms * NSEC_PER_MSEC >= deadline)
    case AtFirstTest(ms) => clock + ms * NSEC_PER_MSEC >= deadline
    case AtClock(ms) => clock + ms * NSEC_PER_MSEC >= deadline
    case AtTest(op, limit) => op.Wait? || (limit.Until? && Nanos(limit.deadline) >= deadline)
    case AtSleep(op, limit) => op.Wait? || (limit.Until? && Nanos(limit.deadline) >= deadline)
    case Asleep(op, limit) => op.Wait? || (limit.Until? && Nanos(limit.deadline) >= deadline)
    case AtReacquire(op, limit, _) => op.Wait? || (limit.Until? && Nanos(limit.deadline) >= deadline)
    case _ => false
  }

  predicate AllConfined(s: State, deadline: nat)
  {
    forall u :: 0 <= u < |s.pc| ==> Confined(s.pc[u], s.clock, deadline)
  }

  lemma ConfinedStep(s: State, a: Action, deadline: nat)
    requires Inv(s) && s.count == 0 && AllConfined(s, deadline) && Next(s, a).clock < deadline
    ensures Next(s, a).count == 0 && AllConfined(Next(s, a), deadline)
  {
    if a.Tick? {
    } else if a.t < |s.pc| {
      assert ThreadInv(s, a.t) && Confined(s.pc[a.t], s.clock, deadline);
      if a.Expire? && s.pc[a.t].Asleep? && s.pc[a.t].limit.Until? {
        OrderIsTotalOrder(s.pc[a.t].limit.deadline, Reading(s.clock));
      }
    }
  }

  lemma {:induction false} ConfinedStaysZero(s: State, actions: seq<Action>, deadline: nat)
    requires Inv(s) && s.count == 0 && AllConfined(s, deadline)
    ensures ZeroUntil(s, actions, deadline)
    decreases |actions|
  {
    if s.clock >= deadline {
      AfterDeadline(s, actions, deadline);
    } else if actions != [] {
      NextInv(s, actions[0]);
      UntilShift(s, actions, deadline);
      if Next(s, actions[0]).clock < deadline {
        ConfinedStep(s, actions[0], deadline);
        ConfinedStaysZero(Next(s, actions[0]), actions[1..], deadline);
      } else {
        AfterDeadline(Next(s, actions[0]), actions[1..], deadline);
      }
    }
  }

  // ---- ... and when it is not: runs that break it ----

  ghost predicate Reaches(s: State, s': State)
  {
    exists actions :: Exec(s, actions) == s'
  }

  lemma {:induction false} ExecAppend(s: State, a: seq<Action>, b: seq<Action>)
    ensures Exec(s, a + b) == Exec(Exec(s, a), b)
    decreases |a|
  {
    if a == [] {
      assert a + b == b;
    } else {
      assert (a + b)[1..] == a[1..] + b;
      ExecAppend(Next(s, a[0]), a[1..], b);
    }
  }

  lemma Onward(s: State, s': State, s'': State)
    requires Reaches(s, s') && Reaches(s', s'')
    ensures Reaches(s, s'')
  {
    var a :| Exec(s, a) == s';
    var b :| Exec(s', b) == s'';
    ExecAppend(s, a, b);
    assert Exec(s, a + b) == s'';
  }

  lemma Start(s: State, a: Action)
    ensures Reaches(s, s) && Reaches(s, Next(s, a))
  {
    assert Exec(s, []) == s;
    assert Exec(s, [a]) == Next(s, a);
  }

  /** One action more. */
  lemma Then(s: State, s': State, a: Action)
    requires Reaches(s, s')
    ensures Reaches(s, Next(s', a))
  {
    Start(s', a);
    Onward(s, s', Next(s', a));
  }

  /** From a loop test at 0 a waiter goes to sleep and gives up the mutex. */
  lemma FallsAsleep(s: State, t: nat)
    requires WellFormed(s) && t < |s.pc| && s.pc[t].AtTest? && !s.pc[t].op.TryWait? && s.count == 0
    ensures Reaches(s, s.(holder := Threads.Free, pc := s.pc[t := Asleep(s.pc[t].op, s.pc[t].limit)]))
  {
    Start(s, Step(t));
    Then(s, Next(s, Step(t)), Step(t));
  }

  /** s' differs from s only in u's place, u's replies, the history and the clock; the mutex is free in both. */
  predicate OnlyMoved(s: State, s': State, u: nat)
    requires u < |s.pc|
  {
    && WellFormed(s) && WellFormed(s') && |s'.pc| == |s.pc| && s'.count == s.count
    && s'.pc == s.pc[u := s'.pc[u]] && s'.replies == s.replies[u := s'.replies[u]]
    && s.holder == s'.holder == Threads.Free && s.clock <= s'.clock
  }

  lemma LeavesTryWait(s: State, u: nat) returns (s': State)
    requires WellFormed(s) && u < |s.pc| && s.holder == Threads.Free && s.count == 0 && s.pc[u] == AtLock(TryWait)
    ensures Reaches(s, s') && OnlyMoved(s, s', u) && s'.clock == s.clock && s'.pc[u].Idle?
  {
    Start(s, Step(u));
    var locked := Next(s, Step(u));
    Then(s, locked, Step(u));
    var tested := Next(locked, Step(u));
    Then(s, tested, Step(u));
    s' := Next(tested, Step(u));
  }

  lemma LeavesExpired(s: State, u: nat) returns (s': State)
    requires WellFormed(s) && u < |s.pc| && s.holder == Threads.Free
    requires s.pc[u].AtReacquire? && s.pc[u].timedOut
    ensures Reaches(s, s') && OnlyMoved(s, s', u) && s'.clock == s.clock && s'.pc[u].Idle?
  {
    Start(s, Step(u));
    Then(s, Next(s, Step(u)), Step(u));
    s' := Next(Next(s, Step(u)), Step(u));
  }

  predicate LimitBefore(p: Pc, deadline: nat)
    requires p.Asleep? || p.AtReacquire?
  {
    p.limit.Until? && Normalised(p.limit.deadline) && Nanos(p.limit.deadline) < deadline
  }

  /** The clock is brought to the deadline of a sleeper, which then times out. */
  lemma Expires(s: State, u: nat, clock: nat) returns (s': State)
    requires WellFormed(s) && u < |s.pc| && s.pc[u].Asleep?
    requires s.pc[u].limit.Until? && Normalised(s.pc[u].limit.deadline)
    requires s.clock <= clock && Nanos(s.pc[u].limit.deadline) <= clock
    ensures Reaches(s, s')
    ensures s' == s.(clock := clock, pc := s.pc[u := AtReacquire(s.pc[u].op, s.pc[u].limit, true)])
  {
    var ticked := Next(s, Tick(clock - s.clock));
    Start(s, Tick(clock - s.clock));
    OrderIsTotalOrder(s.pc[u].limit.deadline, Reading(clock));
    Then(s, ticked, Expire(u));
    s' := Next(ticked, Expire(u));
  }

  lemma LeavesAsleep(s: State, u: nat, deadline: nat) returns (s': State)
    requires WellFormed(s) && u < |s.pc| && s.holder == Threads.Free
    requires s.pc[u].Asleep? && LimitBefore(s.pc[u], deadline) && s.clock < deadline
    ensures Reaches(s, s') && OnlyMoved(s, s', u) && s'.clock < deadline && s'.pc[u].Idle?
  {
    var limit := Nanos(s.pc[u].limit.deadline);
    var expired := Expires(s, u, if s.clock < limit then limit else s.clock);
    s' := LeavesExpired(expired, u);
    Onward(s, expired, s');
  }

  lemma LeavesReacquire(s: State, u: nat, deadline: nat) returns (s': State)
    requires WellFormed(s) && u < |s.pc| && s.holder == Threads.Free && s.count == 0
    requires s.pc[u].AtReacquire? && s.pc[u].op.TimedWait? && LimitBefore(s.pc[u], deadline) && s.clock < deadline
    ensures Reaches(s, s') && OnlyMoved(s, s', u) && s'.clock < deadline && s'.pc[u].Idle?
  {
    if s.pc[u].timedOut {
      s' := LeavesExpired(s, u);
    } else {
      var locked := Next(s, Step(u));
      Start(s, Step(u));
      FallsAsleep(locked, u);
      var asleep := locked.(holder := Threads.Free, pc := locked.pc[u := Asleep(s.pc[u].op, s.pc[u].limit)]);
      Onward(s, locked, asleep);
      s' := LeavesAsleep(asleep, u, deadline);
      Onward(s, asleep, s');
    }
  }

  lemma LeavesTimedWait(s: State, u: nat, deadline: nat) returns (s': State)
    requires WellFormed(s) && u < |s.pc| && s.holder == Threads.Free && s.count == 0
    requires s.pc[u].AtLock? && s.pc[u].op.TimedWait? && s.clock + s.pc[u].op.ms * NSEC_PER_MSEC < deadline
    ensures Reaches(s, s') && OnlyMoved(s, s', u) && s'.clock < deadline && s'.pc[u].Idle?
  {
    var locked := Next(s, Step(u));
    Start(s, Step(u));
    Then(s, locked, Step(u));
    var tested := Next(locked, Step(u));
    Then(s, tested, Step(u));
    var read := Next(tested, Step(u));
    FallsAsleep(read, u);
    var asleep := read.(holder := Threads.Free, pc := read.pc[u := Asleep(read.pc[u].op, read.pc[u].limit)]);
    Onward(s, read, asleep);
    s' := LeavesAsleep(asleep, u, deadline);
    Onward(s, asleep, s');
  }

  /** Outside the critical sections, with the limits that the invariant gives. */
  predicate AtRest(p: Pc)
  {
    && !InCritical(p) && WellTyped(p)
    && (p.Asleep? || p.AtReacquire? ==> p.limit.Until? ==> Normalised(p.limit.deadline))
  }

  /** A thread that is not confined can be brought to a post before the deadline, with the count 0 until then. */
  lemma ComesToPost(s: State, u: nat, deadline: nat) returns (s': State)
    requires WellFormed(s) && u < |s.pc| && s.holder == Threads.Free && s.count == 0 && s.clock < deadline
    requires AtRest(s.pc[u]) && !Confined(s.pc[u], s.clock, deadline)
    ensures Reaches(s, s') && OnlyMoved(s, s', u) && s'.clock < deadline && s'.pc[u] == AtLock(Post)
  {
    if s.pc[u] == AtLock(Post) {
      s' := s;
      Start(s, Step(u));
    } else {
      var idle := s;
      Start(s, Step(u));
      match s.pc[u] {
        case AtLock(TryWait) => idle := LeavesTryWait(s, u);
        case AtLock(TimedWait(_)) => idle := LeavesTimedWait(s, u, deadline);
        case Asleep(_, _) => idle := LeavesAsleep(s, u, deadline);
        case AtReacquire(_, _, _) => idle := LeavesReacquire(s, u, deadline);
        case Idle =>
      }
      Then(s, idle, Call(u, Post));
      s' := Next(idle, Call(u, Post));
    }
  }

  /** The post takes effect. */
  lemma Increments(s: State, u: nat) returns (s': State)
    requires WellFormed(s) && u < |s.pc| && s.holder == Threads.Free && s.count == 0 && s.pc[u] == AtLock(Post)
    ensures Reaches(s, s') && WellFormed(s') && s'.count == 1 && s'.holder == Threads.HeldBy(u)
    ensures s'.clock == s.clock && s'.pc == s.pc[u := AtSignal] && s'.replies == s.replies
  {
    Start(s, Step(u));
    Then(s, Next(s, Step(u)), Step(u));
    s' := Next(Next(s, Step(u)), Step(u));
  }

  /** u's signal wakes t, and u returns. */
  lemma SignalsTo(s: State, u: nat, t: nat) returns (s': State)
    requires WellFormed(s) && u < |s.pc| && t < |s.pc| && u != t
    requires s.pc[u].AtSignal? && s.pc[t].Asleep?
    ensures Reaches(s, s') && WellFormed(s') && s'.count == s.count && s'.clock == s.clock
    ensures s'.holder == Threads.Free && |s'.pc| == |s.pc| && s'.replies[t] == s.replies[t]
    ensures s'.pc == s.pc[u := Idle][t := AtReacquire(s.pc[t].op, s.pc[t].limit, false)]
  {
    Start(s, Signal(u, t));
    Then(s, Next(s, Signal(u, t)), Step(u));
    s' := Next(Next(s, Signal(u, t)), Step(u));
    assert s'.pc == s.pc[u := Idle][t := AtReacquire(s.pc[t].op, s.pc[t].limit, false)];
  }

  /** u takes the one unit back. */
  lemma TakesBack(s: State, u: nat) returns (s': State)
    requires WellFormed(s) && u < |s.pc| && s.holder == Threads.Free && s.count == 1 && s.pc[u].Idle?
    ensures Reaches(s, s') && WellFormed(s') && s'.count == 0 && s'.clock == s.clock && s'.holder == Threads.Free
    ensures s'.pc == s.pc && s'.replies == s.replies[u := s'.replies[u]]
  {
    var called := Next(s, Call(u, TryWait));
    Start(s, Call(u, TryWait));
    Then(s, called, Step(u));
    var locked := Next(called, Step(u));
    Then(s, locked, Step(u));
    var tested := Next(locked, Step(u));
    assert tested.pc == s.pc[u := AtDecrement(TryWait)];
    Then(s, tested, Step(u));
    var taken := Next(tested, Step(u));
    Then(s, taken, Step(u));
    s' := Next(taken, Step(u));
    assert s'.pc == s.pc;
  }

  /** A waiter woken for nothing goes back to sleep, reaches its deadline and reports TIMEOUT. */
  lemma TimesOut(s: State, t: nat) returns (s': State)
    requires WellFormed(s) && t < |s.pc| && s.holder == Threads.Free && s.count == 0
    requires s.pc[t].AtReacquire? && !s.pc[t].timedOut && s.pc[t].op.TimedWait?
    requires s.pc[t].limit.Until? && Normalised(s.pc[t].limit.deadline)
    ensures Reaches(s, s') && WellFormed(s') && |s'.pc| == |s.pc| && s'.replies == s.replies
    ensures s'.pc[t] == AtUnlock(s.pc[t].op, Timeout)
  {
    var locked := Next(s, Step(t));
    Start(s, Step(t));
    FallsAsleep(locked, t);
    var asleep := locked.(holder := Threads.Free, pc := locked.pc[t := Asleep(s.pc[t].op, s.pc[t].limit)]);
    Onward(s, locked, asleep);
    var expired := Expires(asleep, t, s.clock + Nanos(s.pc[t].limit.deadline));
    Onward(s, asleep, expired);
    Then(s, expired, Step(t));
    s' := Next(expired, Step(t));
  }

  /** Some run through `middle` ends with t's report. */
  lemma Through(s: State, middle: State, end: State) returns (a: seq<Action>, b: seq<Action>)
    requires Reaches(s, middle) && Reaches(middle, end)
    ensures Exec(s, a) == middle && Exec(s, a + b) == end && (a + b)[..|a|] == a
  {
    a :| Exec(s, a) == middle;
    b :| Exec(middle, b) == end;
    ExecAppend(s, a, b);
  }

  /** One thread that is not confined is enough: it posts before the deadline, its signal wakes t, it takes the unit
      back before t gets the mutex, and t sleeps on and reports TIMEOUT. */
  lemma PromiseBroken(s: State, t: nat, u: nat) returns (rest: seq<Action>)
    requires Inv(s) && StartsInterval(s, t) && s.pc[t].ms > 0
    requires u < |s.pc| && u != t && !Confined(s.pc[u], s.clock, DeadlineOf(s, t))
    ensures ReportsTimeout(s, Exec(Next(s, Step(t)), rest), t)
    ensures !ZeroUntil(Next(s, Step(t)), rest, DeadlineOf(s, t))
  {
    var deadline := DeadlineOf(s, t);
    ReadsClock(s, t);
    assert ThreadInv(s, u);
    var read := Next(s, Step(t));
    FallsAsleep(read, t);
    var asleep := read.(holder := Threads.Free, pc := read.pc[t := Asleep(read.pc[t].op, read.pc[t].limit)]);
    var posting := ComesToPost(asleep, u, deadline);
    Onward(read, asleep, posting);
    var posted := Increments(posting, u);
    Onward(read, posting, posted);
    var end := GoesOnToTimeout(posted, t, u);
    var a, b := Through(read, posted, end);
    rest := a + b;
  }

  lemma GoesOnToTimeout(s: State, t: nat, u: nat) returns (s': State)
    requires WellFormed(s) && t < |s.pc| && u < |s.pc| && u != t && s.count == 1
    requires s.pc[u].AtSignal? && s.pc[t].Asleep? && s.pc[t].op.TimedWait?
    requires s.pc[t].limit.Until? && Normalised(s.pc[t].limit.deadline)
    ensures Reaches(s, s') && WellFormed(s') && |s'.pc| == |s.pc| && s'.replies[t] == s.replies[t]
    ensures s'.pc[t] == AtUnlock(s.pc[t].op, Timeout)
  {
    var woken := SignalsTo(s, u, t);
    var taken := TakesBack(woken, u);
    Onward(s, woken, taken);
    s' := TimesOut(taken, t);
    Onward(s, taken, s');
  }

  /** From the reading of the clock there is always a way to TIMEOUT. */
  lemma CanTimeOut(s: State, t: nat) returns (rest: seq<Action>)
    requires Inv(s) && StartsInterval(s, t)
    ensures ReportsTimeout(s, Exec(Next(s, Step(t)), rest), t)
  {
    ReadsClock(s, t);
    var read := Next(s, Step(t));
    FallsAsleep(read, t);
    var asleep := read.(holder := Threads.Free, pc := read.pc[t := Asleep(read.pc[t].op, read.pc[t].limit)]);
    var expired := Expires(asleep, t, DeadlineOf(s, t));
    Onward(read, asleep, expired);
    Then(read, expired, Step(t));
    rest :| Exec(read, rest) == Next(expired, Step(t));
  }

  /** Exactly when the promise is certain to be kept, said of the moment at which the clock is read: every way on that
      leads to TIMEOUT, and there is one, keeps the count at 0 until the deadline if and only if the timeout is 0 or
      every other thread waits without a limit or with one that is no earlier. */
  lemma PromiseCertainIff(n: nat, initial: nat, before: seq<Action>, t: nat)
    requires initial < COUNT_LIMIT && StartsInterval(Exec(Init(n, initial), before), t)
    ensures var s := Exec(Init(n, initial), before);
      var read, deadline := Next(s, Step(t)), DeadlineOf(s, t);
      && (exists rest :: ReportsTimeout(s, Exec(read, rest), t))
      && ((forall rest :: ReportsTimeout(s, Exec(read, rest), t) ==> ZeroUntil(read, rest, deadline))
          <==>
          (s.pc[t].ms == 0 || forall u :: 0 <= u < |s.pc| && u != t ==> Confined(s.pc[u], s.clock, deadline)))
  {
    InitInv(n, initial);
    ExecInv(Init(n, initial), before);
    var s := Exec(Init(n, initial), before);
    var read, deadline := Next(s, Step(t)), DeadlineOf(s, t);
    ReadsClock(s, t);
    var soon := CanTimeOut(s, t);
    if s.pc[t].ms == 0 {
      forall rest
        ensures ZeroUntil(read, rest, deadline)
      {
        AfterDeadline(read, rest, deadline);
      }
    } else if forall u :: 0 <= u < |s.pc| && u != t ==> Confined(s.pc[u], s.clock, deadline) {
      forall rest
        ensures ZeroUntil(read, rest, deadline)
      {
        ConfinedStaysZero(read, rest, deadline);
      }
    } else {
      var u: nat :| u < |s.pc| && u != t && !Confined(s.pc[u], s.clock, deadline);
      var rest := PromiseBroken(s, t, u);
    }
  }

  // ---- Up to the report ----

  /** Inside ccsem_wait, before taking a unit. */
  predicate InWait(p: Pc)
  {
    (p.AtLock? || p.AtTest? || p.AtSleep? || p.Asleep? || p.AtReacquire?) && p.op.Wait?
  }

  /** t is in a timed wait that has taken nothing, and all others are inside ccsem_wait. */
  predicate OnlyWaits(s: State, t: nat)
    requires t < |s.pc|
  {
    var p := s.pc[t];
    && (p.AtTest? || p.AtSleep? || p.Asleep? || p.AtReacquire? || (p.AtUnlock? && p.reply.Timeout?))
    && p.op.TimedWait?
    && forall u :: 0 <= u < |s.pc| && u != t ==> InWait(s.pc[u])
  }

  lemma OnlyWaitsStep(s: State, a: Action, t: nat)
    requires Inv(s) && s.count == 0 && t < |s.pc| && OnlyWaits(s, t)
    ensures var s' := Next(s, a);
      && WellFormed(s') && |s'.pc| == |s.pc| && s'.count == 0
      && (|s'.replies[t]| > |s.replies[t]| || (s'.replies[t] == s.replies[t] && OnlyWaits(s', t)))
  {
    if !a.Tick? && a.t < |s.pc| {
      assert ThreadInv(s, a.t);
    }
  }

  lemma {:induction false} OnlyWaitsStaysZero(s: State, actions: seq<Action>, t: nat)
    requires Inv(s) && s.count == 0 && t < |s.pc| && OnlyWaits(s, t)
    requires t < |Exec(s, actions).replies| && |Exec(s, actions).replies[t]| == |s.replies[t]|
    ensures StaysZero(s, actions)
    decreases |actions|
  {
    assert Exec(s, actions[..0]) == s;
    if actions != [] {
      NextInv(s, actions[0]);
      OnlyWaitsStep(s, actions[0], t);
      RepliesGrow(Next(s, actions[0]), actions[1..], t);
      PrefixesShift(s, actions);
      OnlyWaitsStaysZero(Next(s, actions[0]), actions[1..], t);
    }
  }

  /** A thread outside ccsem_wait can post once t has missed its deadline, and before t has the mutex back. */
  lemma PostBeforeReport(s: State, t: nat, u: nat) returns (rest: seq<Action>)
    requires Inv(s) && StartsInterval(s, t) && u < |s.pc| && u != t && !InWait(s.pc[u])
    ensures ReportsTimeout(s, Exec(Next(s, Step(t)), rest), t)
    ensures !StaysZero(Next(s, Step(t)), rest)
  {
    ReadsClock(s, t);
    assert ThreadInv(s, u);
    var read := Next(s, Step(t));
    FallsAsleep(read, t);
    var asleep := read.(holder := Threads.Free, pc := read.pc[t := Asleep(read.pc[t].op, read.pc[t].limit)]);
    var expired := Expires(asleep, t, DeadlineOf(s, t));
    Onward(read, asleep, expired);
    var far := expired.clock + 1
      + (match s.pc[u]
         case AtLock(TimedWait(ms)) => ms * NSEC_PER_MSEC
         case Asleep(_, Until(d)) => Nanos(d)
         case AtReacquire(_, Until(d), _) => Nanos(d)
         case _ => 0);
    var posting := ComesToPost(expired, u, far);
    Onward(read, expired, posting);
    var posted := Increments(posting, u);
    Onward(read, posting, posted);
    var end := ReportsAfterPost(posted, t, u);
    var a, b := Through(read, posted, end);
    rest := a + b;
  }

  lemma ReportsAfterPost(s: State, t: nat, u: nat) returns (s': State)
    requires WellFormed(s) && t < |s.pc| && u < |s.pc| && u != t
    requires s.pc[u].AtSignal? && s.pc[t].AtReacquire? && s.pc[t].timedOut
    ensures Reaches(s, s') && WellFormed(s') && |s'.pc| == |s.pc| && s'.replies[t] == s.replies[t]
    ensures s'.pc[t] == AtUnlock(s.pc[t].op, Timeout)
  {
    var who: nat := u;
    if !NobodyAsleep(s) {
      who :| who < |s.pc| && s.pc[who].Asleep?;
    }
    var signalled := Next(s, Signal(u, who));
    Start(s, Signal(u, who));
    assert signalled.pc[u] == AtUnlock(Post, Success) && signalled.pc[t] == s.pc[t];
    Then(s, signalled, Step(u));
    var unlocked := Next(signalled, Step(u));
    Then(s, unlocked, Step(t));
    s' := Next(unlocked, Step(t));
  }

  /** Up to the report itself, with its wait for the mutex, the count is certain to be 0 exactly when every other
      thread is inside ccsem_wait. */
  lemma ZeroUpToReportIff(n: nat, initial: nat, before: seq<Action>, t: nat)
    requires initial < COUNT_LIMIT && StartsInterval(Exec(Init(n, initial), before), t)
    ensures var s := Exec(Init(n, initial), before);
      var read := Next(s, Step(t));
      (forall rest :: ReportsTimeout(s, Exec(read, rest), t) ==> StaysZero(read, rest))
      <==>
      (forall u :: 0 <= u < |s.pc| && u != t ==> InWait(s.pc[u]))
  {
    InitInv(n, initial);
    ExecInv(Init(n, initial), before);
    var s := Exec(Init(n, initial), before);
    var read := Next(s, Step(t));
    ReadsClock(s, t);
    if forall u :: 0 <= u < |s.pc| && u != t ==> InWait(s.pc[u]) {
      forall rest | ReportsTimeout(s, Exec(read, rest), t)
        ensures StaysZero(read, rest)
      {
        OnlyWaitsStaysZero(read, rest, t);
      }
    } else {
      var u: nat :| u < |s.pc| && u != t && !InWait(s.pc[u]);
      var rest := PostBeforeReport(s, t, u);
    }
  }
}
