/** The life of a thread handle (ccthread.c): the finishing thread (ccthread_wrapper or ccthread_exit) against the
    consumer (ccthread_join or ccthread_detach).

    The finishing side stores `finished` and then loads `detached`; the detaching side stores `detached` and then
    loads `finished`; whoever sees the other's flag competes for `cleanup_claimed`, and the winner frees the handle.
    Each of the two stores may wait in its writer's store buffer: the other side does not see it until it is
    committed, and an exchange commits its own side's buffer first.  `Fences` says whether a side commits its store
    before its load: with both fences the runs are the sequentially consistent ones.  The code has a release store
    followed by an acquire load, which is no such fence.  Frees are counted and the cells stay readable. */
module ThreadHandle {
  import opened Tally

  datatype Fences = Fences(finisher: bool, consumer: bool)

  datatype ThreadPc =
    | Running
    | AtResult(value: int)       // thread->result = value
    | AtFinished                 // store finished
    | AtDetachedTest             // load detached
    | AtThreadClaim              // exchange cleanup_claimed
    | AtThreadFree
    | Exited

  datatype ConsumerPc =
    | NotConsumed
    | AtDetachedGuard(join: bool)   // load detached, error if set
    | AtJoinedGuard(join: bool)     // load joined, error if set
    | AtPthreadJoin
    | AtCopyResult
    | AtJoined                      // store joined
    | AtJoinFree
    | AtPthreadDetach
    | AtDetached                    // store detached
    | AtFinishedTest                // load finished
    | AtDetachClaim
    | AtDetachFree
    | Joined(result: int)
    | Detached
    | Rejected

  /** finishedBuffered / detachedBuffered: the store has been executed but not yet committed. */
  datatype State = State(
    finished: bool, finishedBuffered: bool, detached: bool, detachedBuffered: bool, joined: bool, claimed: bool,
    result: int, copied: int, outcome: int, frees: nat, thread: ThreadPc, consumer: ConsumerPc)

  datatype Action =
    | Finish(value: int)       // the function returns value, or calls ccthread_exit(value)
    | StepThread
    | CommitFinished
    | Consume(join: bool)      // the one ccthread_join or ccthread_detach of this handle
    | StepConsumer
    | CommitDetached

  function Create(): State
  {
    State(false, false, false, false, false, false, 0, 0, 0, 0, Running, NotConsumed)
  }

  function StepThreadOf(s: State, f: Fences): State
  {
    match s.thread
    case AtResult(value) => s.(result := value, thread := AtFinished)
    case AtFinished => s.(finishedBuffered := true, thread := AtDetachedTest)
    case AtDetachedTest =>
      if f.finisher && s.finishedBuffered then s
      else s.(thread := if s.detached then AtThreadClaim else Exited)
    case AtThreadClaim =>
      s.(finished := s.finished || s.finishedBuffered, finishedBuffered := false, claimed := true,
         thread := if s.claimed then Exited else AtThreadFree)
    case AtThreadFree => s.(frees := s.frees + 1, thread := Exited)
    case Running => s
    case Exited => s
  }

  function StepConsumerOf(s: State, f: Fences): State
  {
    match s.consumer
    case AtDetachedGuard(join) =>
      s.(consumer := if s.detached || s.detachedBuffered then Rejected else AtJoinedGuard(join))
    case AtJoinedGuard(join) =>
      s.(consumer := if s.joined then Rejected else if join then AtPthreadJoin else AtPthreadDetach)
    case AtPthreadJoin => if s.thread.Exited? && !s.finishedBuffered then s.(consumer := AtCopyResult) else s
    case AtCopyResult => s.(copied := s.result, consumer := AtJoined)
    case AtJoined => s.(joined := true, consumer := AtJoinFree)
    case AtJoinFree => s.(frees := s.frees + 1, consumer := Joined(s.copied))
    case AtPthreadDetach => s.(consumer := AtDetached)
    case AtDetached => s.(detachedBuffered := true, consumer := AtFinishedTest)
    case AtFinishedTest =>
      if f.consumer && s.detachedBuffered then s
      else s.(consumer := if s.finished then AtDetachClaim else Detached)
    case AtDetachClaim =>
      s.(detached := s.detached || s.detachedBuffered, detachedBuffered := false, claimed := true,
         consumer := if s.claimed then Detached else AtDetachFree)
    case AtDetachFree => s.(frees := s.frees + 1, consumer := Detached)
    case NotConsumed => s
    case Joined(_) => s
    case Detached => s
    case Rejected => s
  }

  function Next(s: State, f: Fences, a: Action): State
  {
    match a
    case Finish(value) => if s.thread.Running? then s.(thread := AtResult(value), outcome := value) else s
    case StepThread => StepThreadOf(s, f)
    case CommitFinished => s.(finished := s.finished || s.finishedBuffered, finishedBuffered := false)
    case Consume(join) => if s.consumer.NotConsumed? then s.(consumer := AtDetachedGuard(join)) else s
    case StepConsumer => StepConsumerOf(s, f)
    case CommitDetached => s.(detached := s.detached || s.detachedBuffered, detachedBuffered := false)
  }

  function Exec(s: State, f: Fences, actions: seq<Action>): State
    decreases |actions|
  {
    if actions == [] then s else Exec(Next(s, f, actions[0]), f, actions[1..])
  }

  // ---- The invariant, with or without fences ----

  predicate StoredFinished(p: ThreadPc)
  {
    p.AtDetachedTest? || p.AtThreadClaim? || p.AtThreadFree? || p.Exited?
  }

  predicate StoredDetached(p: ConsumerPc)
  {
    p.AtFinishedTest? || p.AtDetachClaim? || p.AtDetachFree? || p.Detached?
  }

  predicate Joining(p: ConsumerPc)
  {
    p.AtPthreadJoin? || p.AtCopyResult? || p.AtJoined? || p.AtJoinFree? || p.Joined?
  }

  /** Exactly one free goes with each completed claim and with the join. */
  function FreesDue(s: State): nat
  {
    (if s.claimed && !s.thread.AtThreadFree? && !s.consumer.AtDetachFree? then 1 else 0)
    + (if s.consumer.Joined? then 1 else 0)
  }

  predicate Inv(s: State)
  {
    && (s.finished || s.finishedBuffered <==> StoredFinished(s.thread))
    && (s.detached || s.detachedBuffered <==> StoredDetached(s.consumer))
    && !s.consumer.Rejected?
    && (s.joined <==> s.consumer.AtJoinFree? || s.consumer.Joined?)
    && (s.claimed ==> s.detached && s.finished)
    && (s.thread.AtThreadClaim? || s.thread.AtThreadFree? ==> s.detached)
    && (s.consumer.AtDetachClaim? || s.consumer.AtDetachFree? ==> s.finished)
    && (s.thread.AtThreadFree? ==> s.claimed && !s.consumer.AtDetachFree?)
    && (s.consumer.AtDetachFree? ==> s.claimed)
    && s.frees == FreesDue(s)
    && (s.thread.AtResult? ==> s.thread.value == s.outcome)
    && (s.thread.AtFinished? || StoredFinished(s.thread) ==> s.result == s.outcome)
    && (Joining(s.consumer) && !s.consumer.AtPthreadJoin? ==> s.thread.Exited? && s.finished && !s.finishedBuffered)
    && (s.consumer.AtJoined? || s.consumer.AtJoinFree? ==> s.copied == s.outcome)
    && (s.consumer.Joined? ==> s.consumer.result == s.outcome)
  }

  lemma StepThreadInv(s: State, f: Fences)
    requires Inv(s)
    ensures Inv(StepThreadOf(s, f))
  {
  }

  lemma JoinInv(s: State, f: Fences)
    requires Inv(s) && !StoredDetached(s.consumer)
    ensures Inv(StepConsumerOf(s, f))
  {
  }

  lemma DetachInv(s: State, f: Fences)
    requires Inv(s) && StoredDetached(s.consumer)
    ensures Inv(StepConsumerOf(s, f))
  {
  }

  lemma NextInv(s: State, f: Fences, a: Action)
    requires Inv(s)
    ensures Inv(Next(s, f, a))
  {
    match a
    case StepThread => StepThreadInv(s, f);
    case StepConsumer => if StoredDetached(s.consumer) { DetachInv(s, f); } else { JoinInv(s, f); }
    case Finish(_) =>
    case CommitFinished =>
    case Consume(_) =>
    case CommitDetached =>
  }

  lemma {:induction false} ExecInv(s: State, f: Fences, actions: seq<Action>)
    requires Inv(s)
    ensures Inv(Exec(s, f, actions))
    decreases |actions|
  {
    if actions != [] {
      NextInv(s, f, actions[0]);
      ExecInv(Next(s, f, actions[0]), f, actions[1..]);
    }
  }

  /** On any of these machines, fenced or not: the handle is freed at most once, a handle consumed once is never
      rejected, and the two claims are never both won. */
  lemma NeverFreedTwice(f: Fences, actions: seq<Action>)
    ensures var s := Exec(Create(), f, actions);
      s.frees <= 1 && !s.consumer.Rejected? && !(s.thread.AtThreadFree? && s.consumer.AtDetachFree?)
  {
    ExecInv(Create(), f, actions);
  }

  // ---- What was asked, read off the run ----

  datatype Option<T> = None | Some(value: T)

  /** The value with which the function first ends. */
  function FirstFinish(actions: seq<Action>): Option<int>
  {
    if actions == [] then None
    else if actions[0].Finish? then Some(actions[0].value)
    else FirstFinish(actions[1..])
  }

  /** Whether the handle is first joined or detached. */
  function FirstConsume(actions: seq<Action>): Option<bool>
  {
    if actions == [] then None
    else if actions[0].Consume? then Some(actions[0].join)
    else FirstConsume(actions[1..])
  }

  function OrElse<T>(a: Option<T>, b: Option<T>): Option<T>
  {
    if a.Some? then a else b
  }

  /** Inside ccthread_join, or inside ccthread_detach. */
  predicate OnPath(p: ConsumerPc, join: bool)
  {
    match p
    case AtDetachedGuard(j) => j == join
    case AtJoinedGuard(j) => j == join
    case AtPthreadDetach => !join
    case AtDetached => !join
    case NotConsumed => false
    case Rejected => false
    case _ => if join then Joining(p) else StoredDetached(p)
  }

  /** The function has ended with this value, or not at all. */
  predicate EndedWith(s: State, finish: Option<int>)
  {
    if finish.Some? then !s.thread.Running? && s.outcome == finish.value else s.thread.Running?
  }

  /** The handle is being, or has been, consumed like this, or not at all. */
  predicate ConsumedBy(s: State, consume: Option<bool>)
  {
    if consume.Some? then OnPath(s.consumer, consume.value) else s.consumer.NotConsumed?
  }

  lemma ThreadFrame(s: State, f: Fences)
    ensures StepThreadOf(s, f).consumer == s.consumer && StepThreadOf(s, f).outcome == s.outcome
    ensures StepThreadOf(s, f).thread.Running? <==> s.thread.Running?
  {
    match s.thread
    case AtDetachedTest =>
    case AtThreadClaim =>
    case _ =>
  }

  /** What a step of the consumer keeps: the thread's side, and its own path. */
  predicate KeepsPath(s: State, s': State)
  {
    && s'.thread == s.thread && s'.outcome == s.outcome
    && (s'.consumer.Rejected? || forall join :: OnPath(s.consumer, join) ==> OnPath(s'.consumer, join))
  }

  lemma JoinKeepsPath(s: State, f: Fences)
    requires Joining(s.consumer)
    ensures KeepsPath(s, StepConsumerOf(s, f))
  {
  }

  lemma DetachKeepsPath(s: State, f: Fences)
    requires StoredDetached(s.consumer)
    ensures KeepsPath(s, StepConsumerOf(s, f))
  {
  }

  lemma ConsumerKeepsPath(s: State, f: Fences)
    ensures KeepsPath(s, StepConsumerOf(s, f))
  {
    if Joining(s.consumer) {
      JoinKeepsPath(s, f);
    } else if StoredDetached(s.consumer) {
      DetachKeepsPath(s, f);
    }
  }

  lemma AskedStep(s: State, f: Fences, a: Action, finish: Option<int>, consume: Option<bool>)
    requires EndedWith(s, finish) && ConsumedBy(s, consume) && !Next(s, f, a).consumer.Rejected?
    ensures EndedWith(Next(s, f, a), if finish.None? && a.Finish? then Some(a.value) else finish)
    ensures ConsumedBy(Next(s, f, a), if consume.None? && a.Consume? then Some(a.join) else consume)
  {
    match a
    case StepThread => ThreadFrame(s, f);
    case StepConsumer =>
      ConsumerKeepsPath(s, f);
      if consume.None? {
        assert StepConsumerOf(s, f) == s;
      }
    case Finish(_) =>
    case CommitFinished =>
    case Consume(_) =>
    case CommitDetached =>
  }

  lemma {:induction false} AskedRun(
      s: State, f: Fences, actions: seq<Action>, finish: Option<int>, consume: Option<bool>)
    requires Inv(s) && EndedWith(s, finish) && ConsumedBy(s, consume)
    ensures EndedWith(Exec(s, f, actions), OrElse(finish, FirstFinish(actions)))
    ensures ConsumedBy(Exec(s, f, actions), OrElse(consume, FirstConsume(actions)))
    decreases |actions|
  {
    if actions != [] {
      var a := actions[0];
      NextInv(s, f, a);
      AskedStep(s, f, a, finish, consume);
      AskedRun(Next(s, f, a), f, actions[1..], if finish.None? && a.Finish? then Some(a.value) else finish,
               if consume.None? && a.Consume? then Some(a.join) else consume);
    }
  }

  /** A join delivers the value with which the function first ended, by returning it or through ccthread_exit, after the
      thread has exited; the finishing side leaves the handle alone and the join's free is the only one.  A join can
      only end as a join and a detach only as a detach. */
  lemma JoinDeliversResult(f: Fences, actions: seq<Action>)
    ensures var s := Exec(Create(), f, actions);
      && (s.consumer.Joined? ==>
            && FirstFinish(actions) == Some(s.consumer.result) && FirstConsume(actions) == Some(true)
            && s.thread.Exited? && s.finished && s.joined && s.frees == 1)
      && (s.consumer.Detached? ==> FirstConsume(actions) == Some(false))
      && (s.thread.Exited? ==> FirstFinish(actions) == Some(s.result))
      && (s.thread.Running? <==> FirstFinish(actions).None?)
      && (s.consumer.NotConsumed? <==> FirstConsume(actions).None?)
      && (Joining(s.consumer) ==> !s.claimed && !s.thread.AtThreadClaim? && !s.thread.AtThreadFree?)
      && (Joining(s.consumer) && !s.consumer.Joined? ==> s.frees == 0)
      && (s.consumer.AtCopyResult? ==> s.thread.Exited? && s.finished)
  {
    ExecInv(Create(), f, actions);
    AskedRun(Create(), f, actions, None, None);
  }

  /** The guards of join and detach, from any state whatever: a call on a handle whose detached or joined flag its
      caller can see is refused and changes nothing, and any other call gets past them with nothing changed. */
  lemma ConsumedHandleRefused(s: State, f: Fences, join: bool)
    requires s.consumer == AtDetachedGuard(join)
    ensures var s' := Exec(s, f, [StepConsumer, StepConsumer]);
      s' == s.(consumer := if s.detached || s.detachedBuffered || s.joined then Rejected
                           else if join then AtPthreadJoin else AtPthreadDetach)
  {
    var once := Next(s, f, StepConsumer);
    assert Exec(once, f, [StepConsumer]) == Next(once, f, StepConsumer);
  }

  /** Both sides are through. */
  predicate BothDone(s: State)
  {
    s.thread.Exited? && (s.consumer.Detached? || s.consumer.Joined?)
  }

  /** Steps left to a consumed handle; a join waits for the thread. */
  function StepsLeft(s: State): nat
  {
    (if s.finishedBuffered then 1 else 0) + (if s.detachedBuffered then 1 else 0)
    + (match s.thread
       case Running => 7
       case AtResult(_) => 6
       case AtFinished => 5
       case AtDetachedTest => 3
       case AtThreadClaim => 2
       case AtThreadFree => 1
       case Exited => 0)
    + (match s.consumer
       case NotConsumed => 9
       case AtDetachedGuard(_) => 8
       case AtJoinedGuard(_) => 7
       case AtPthreadJoin => 4
       case AtCopyResult => 3
       case AtJoined => 2
       case AtJoinFree => 1
       case AtPthreadDetach => 6
       case AtDetached => 5
       case AtFinishedTest => 3
       case AtDetachClaim => 2
       case AtDetachFree => 1
       case _ => 0)
  }

  /** What to do next to get both sides through. */
  function Onward(s: State): Action
  {
    if s.finishedBuffered then CommitFinished
    else if s.detachedBuffered then CommitDetached
    else if s.thread.Running? then Finish(0)
    else if !s.thread.Exited? then StepThread
    else if s.consumer.NotConsumed? then Consume(true)
    else StepConsumer
  }

  lemma OnwardStep(s: State, f: Fences)
    requires Inv(s) && !BothDone(s)
    ensures StepsLeft(Next(s, f, Onward(s))) < StepsLeft(s)
  {
  }

  lemma {:induction false} GetsThrough(s: State, f: Fences) returns (rest: seq<Action>)
    requires Inv(s)
    ensures BothDone(Exec(s, f, rest))
    decreases StepsLeft(s)
  {
    if BothDone(s) {
      rest := [];
    } else {
      OnwardStep(s, f);
      NextInv(s, f, Onward(s));
      var more := GetsThrough(Next(s, f, Onward(s)), f);
      rest := [Onward(s)] + more;
      assert rest[1..] == more;
    }
  }

  /** No dead end: from every state of every run, fenced or not, there is a way on which the function ends and the join
      or detach returns. */
  lemma BothSidesCanFinish(f: Fences, before: seq<Action>)
    ensures exists rest :: BothDone(Exec(Exec(Create(), f, before), f, rest))
  {
    ExecInv(Create(), f, before);
    var rest := GetsThrough(Exec(Create(), f, before), f);
  }

  // ---- Exactly when a handle is always reclaimed ----

  /** Inv, and a fenced side that is through has its store committed. */
  predicate SideInv(s: State, f: Fences)
  {
    && Inv(s)
    && (f.finisher && s.thread.Exited? ==> s.finished)
    && (f.consumer && s.consumer.Detached? ==> s.detached)
  }

  /** On its way to the join's free. */
  predicate Destined(p: ConsumerPc)
  {
    Joining(p) || ((p.AtDetachedGuard? || p.AtJoinedGuard?) && p.join)
  }

  /** Somebody is certain to free the handle: the join; or the detaching side, which finds finished set when it looks;
      or the finishing side, which finds detached set; or, with both fences, whichever looks second. */
  predicate Safe(s: State, f: Fences)
  {
    || Destined(s.consumer)
    || (s.finished && (s.consumer.Detached? ==> s.claimed))
    || (s.detached && (s.thread.Exited? ==> s.claimed))
    || (f.finisher && f.consumer && (s.thread.Exited? && s.consumer.Detached? ==> s.claimed))
  }

  lemma ThreadSide(s: State, f: Fences)
    requires SideInv(s, f)
    ensures SideInv(StepThreadOf(s, f), f) && (Safe(s, f) ==> Safe(StepThreadOf(s, f), f))
  {
    StepThreadInv(s, f);
  }

  lemma ConsumerSide(s: State, f: Fences)
    requires SideInv(s, f)
    ensures SideInv(StepConsumerOf(s, f), f) && (Safe(s, f) ==> Safe(StepConsumerOf(s, f), f))
  {
    NextInv(s, f, StepConsumer);
  }

  /** Once safe, always safe. */
  lemma SafeNext(s: State, f: Fences, a: Action)
    requires SideInv(s, f)
    ensures SideInv(Next(s, f, a), f) && (Safe(s, f) ==> Safe(Next(s, f, a), f))
  {
    match a
    case StepThread => ThreadSide(s, f);
    case StepConsumer => ConsumerSide(s, f);
    case Finish(_) =>
    case CommitFinished =>
    case Consume(_) =>
    case CommitDetached =>
  }

  lemma {:induction false} SafeExec(s: State, f: Fences, actions: seq<Action>)
    requires SideInv(s, f)
    ensures SideInv(Exec(s, f, actions), f) && (Safe(s, f) ==> Safe(Exec(s, f, actions), f))
    decreases |actions|
  {
    if actions != [] {
      SafeNext(s, f, actions[0]);
      SafeExec(Next(s, f, actions[0]), f, actions[1..]);
    }
  }

  /** The run ends with both sides through and nobody having freed the handle. */
  predicate Leaks(s: State, f: Fences, actions: seq<Action>)
  {
    BothDone(Exec(s, f, actions)) && Exec(s, f, actions).frees == 0
  }

  /** Steps left to both sides when they race towards a leak. */
  function Rank(s: State): nat
  {
    (match s.thread
     case Running => 5
     case AtResult(_) => 4
     case AtFinished => 3
     case AtDetachedTest => if s.finishedBuffered then 2 else 1
     case _ => 0)
    + (match s.consumer
       case NotConsumed => 7
       case AtDetachedGuard(_) => 6
       case AtJoinedGuard(_) => 5
       case AtPthreadDetach => 4
       case AtDetached => 3
       case AtFinishedTest => if s.detachedBuffered then 2 else 1
       case _ => 0)
  }

  /** The next action of a leak: both sides run up to their loads, a side without a fence loads while its own store is
      still buffered, the other side commits if it must, and loads. */
  function Adverse(s: State, f: Fences): Action
  {
    if s.thread.Running? then Finish(0)
    else if s.thread.AtResult? || s.thread.AtFinished? then StepThread
    else if s.consumer.NotConsumed? then Consume(false)
    else if !s.consumer.AtFinishedTest? && !s.consumer.Detached? then StepConsumer
    else if s.thread.AtDetachedTest? && (s.consumer.Detached? || !f.finisher) then
      if f.finisher && s.finishedBuffered then CommitFinished else StepThread
    else if f.consumer && s.detachedBuffered then CommitDetached
    else StepConsumer
  }

  lemma AdverseStep(s: State, f: Fences)
    requires SideInv(s, f) && !Safe(s, f) && !BothDone(s)
    ensures var s' := Next(s, f, Adverse(s, f));
      SideInv(s', f) && !Safe(s', f) && Rank(s') < Rank(s)
  {
    SafeNext(s, f, Adverse(s, f));
  }

  lemma {:induction false} UnsafeLeaks(s: State, f: Fences) returns (actions: seq<Action>)
    requires SideInv(s, f) && !Safe(s, f)
    ensures Leaks(s, f, actions)
    decreases Rank(s)
  {
    if BothDone(s) {
      actions := [];
    } else {
      AdverseStep(s, f);
      var rest := UnsafeLeaks(Next(s, f, Adverse(s, f)), f);
      actions := [Adverse(s, f)] + rest;
      assert actions[1..] == rest;
    }
  }

  ghost predicate AlwaysReclaimsFrom(s: State, f: Fences)
  {
    forall actions :: BothDone(Exec(s, f, actions)) ==> Exec(s, f, actions).frees == 1
  }

  ghost predicate AlwaysReclaims(f: Fences)
  {
    AlwaysReclaimsFrom(Create(), f)
  }

  /** From any state of any run: every continuation that gets both sides through has freed the handle exactly once if
      and only if the state is safe. */
  lemma ReclaimedIffSafe(f: Fences, before: seq<Action>)
    ensures AlwaysReclaimsFrom(Exec(Create(), f, before), f) <==> Safe(Exec(Create(), f, before), f)
  {
    SafeExec(Create(), f, before);
    SafeIsExact(Exec(Create(), f, before), f);
  }

  lemma SafeIsExact(s: State, f: Fences)
    requires SideInv(s, f)
    ensures AlwaysReclaimsFrom(s, f) <==> Safe(s, f)
  {
    if Safe(s, f) {
      forall actions | BothDone(Exec(s, f, actions))
        ensures Exec(s, f, actions).frees == 1
      {
        SafeExec(s, f, actions);
      }
    } else {
      var actions := UnsafeLeaks(s, f);
      assert BothDone(Exec(s, f, actions));
    }
  }

  /** Which detaches are reclaimed.  In any state of any run in which the handle has not been consumed, calling
      ccthread_detach now leads to exactly one free on every continuation if and only if the thread's store of
      finished is already visible, or both sides are fenced.  Of the code as it stands, without fences: a detach is
      safe exactly when the thread is known to have finished before it. */
  lemma DetachReclaimedIff(f: Fences, before: seq<Action>)
    requires Exec(Create(), f, before).consumer.NotConsumed?
    ensures var s := Exec(Create(), f, before);
      AlwaysReclaimsFrom(Next(s, f, Consume(false)), f) <==> s.finished || (f.finisher && f.consumer)
  {
    var s := Exec(Create(), f, before);
    SafeExec(Create(), f, before);
    SafeNext(s, f, Consume(false));
    SafeIsExact(Next(s, f, Consume(false)), f);
  }

  /** The same for the finishing side: when the function ends, the handle is certain to be freed exactly once if and
      only if the store of detached is already visible, or a join has begun, or both sides are fenced. */
  lemma FinishReclaimedIff(f: Fences, before: seq<Action>, value: int)
    requires Exec(Create(), f, before).thread.Running?
    ensures var s := Exec(Create(), f, before);
      AlwaysReclaimsFrom(Next(s, f, Finish(value)), f) <==>
        s.detached || Destined(s.consumer) || (f.finisher && f.consumer)
  {
    var s := Exec(Create(), f, before);
    SafeExec(Create(), f, before);
    SafeNext(s, f, Finish(value));
    SafeIsExact(Next(s, f, Finish(value)), f);
  }

  /** Without a fence on one side there is a run in which nobody frees the handle. */
  lemma UnfencedLeaks(f: Fences) returns (actions: seq<Action>)
    requires !(f.finisher && f.consumer)
    ensures BothDone(Exec(Create(), f, actions)) && Exec(Create(), f, actions).frees == 0
  {
    actions := UnsafeLeaks(Create(), f);
  }

  /** As a statement about builds: every handle that is both finished and consumed has been freed exactly once, on
      every run, if and only if both sides commit their store before their load.  Sequential consistency does; a
      release store followed by an acquire load does not. */
  lemma ReclaimedExactlyOnceIffFenced(f: Fences)
    ensures AlwaysReclaims(f) <==> f.finisher && f.consumer
  {
    SafeIsExact(Create(), f);
  }

  // ---- Many handles ----

  /** The action and the handle it is for. */
  datatype FleetAction = FleetAction(handle: nat, action: Action)

  function FleetExec(fleet: seq<State>, actions: seq<FleetAction>): seq<State>
    decreases |actions|
  {
    if actions == [] then fleet else
    var a := actions[0];
    if a.handle < |fleet| then
      FleetExec(fleet[a.handle := Next(fleet[a.handle], Fences(true, true), a.action)], actions[1..])
    else
      FleetExec(fleet, actions[1..])
  }

  function Frees(s: State): nat
  {
    s.frees
  }

  lemma {:induction false} FleetInv(fleet: seq<State>, actions: seq<FleetAction>)
    requires forall i :: 0 <= i < |fleet| ==>
      SideInv(fleet[i], Fences(true, true)) && Safe(fleet[i], Fences(true, true))
    ensures |FleetExec(fleet, actions)| == |fleet|
    ensures forall i :: 0 <= i < |fleet| ==>
      var s := FleetExec(fleet, actions)[i]; SideInv(s, Fences(true, true)) && Safe(s, Fences(true, true))
    decreases |actions|
  {
    if actions != [] {
      var a := actions[0];
      if a.handle < |fleet| {
        SafeNext(fleet[a.handle], Fences(true, true), a.action);
        FleetInv(fleet[a.handle := Next(fleet[a.handle], Fences(true, true), a.action)], actions[1..]);
      } else {
        FleetInv(fleet, actions[1..]);
      }
    }
  }

  /** n handles, each joined or detached once and finished, in any interleaving: n allocations, n frees. */
  lemma AllocationsEqualFrees(n: nat, actions: seq<FleetAction>)
    ensures var fleet := FleetExec(seq(n, _ => Create()), actions);
      && |fleet| == n
      && ((forall i :: 0 <= i < n ==> BothDone(fleet[i])) ==> Sum(fleet, Frees) == n)
  {
    FleetInv(seq(n, _ => Create()), actions);
    var fleet := FleetExec(seq(n, _ => Create()), actions);
    if forall i :: 0 <= i < n ==> BothDone(fleet[i]) {
      SumConstant(fleet, Frees, 1);
    }
  }

  // ---- The code, one method per access to the handle ----

  class Handle {
    const fences: Fences
    var finished: bool
    var finishedBuffered: bool
    var detached: bool
    var detachedBuffered: bool
    var joined: bool
    var claimed: bool
    var result: int
    var copied: int
    ghost var outcome: int
    ghost var frees: nat
    var thread: ThreadPc
    var consumer: ConsumerPc

    ghost function View(): State
      reads this
    {
      State(finished, finishedBuffered, detached, detachedBuffered, joined, claimed, result, copied, outcome, frees,
            thread, consumer)
    }

    ghost predicate Valid()
      reads this
    {
      Inv(View())
    }

    /** ccthread_create: calloc and the three flags cleared */
    constructor (fences: Fences)
      ensures View() == Create() && this.fences == fences
      ensures Valid()
    {
      this.fences := fences;
      finished, finishedBuffered, detached, detachedBuffered := false, false, false, false;
      joined, claimed, result, copied, outcome, frees := false, false, 0, 0, 0, 0;
      thread, consumer := Running, NotConsumed;
    }

    /** The user's function ends, by returning or through ccthread_exit. */
    method EndFunction(value: int)
      requires Valid() && thread.Running?
      modifies this
      ensures View() == Next(old(View()), fences, Finish(value))
      ensures Valid()
    {
      thread, outcome := AtResult(value), value;
    }

    /** thread->result = ret; then the release store of finished, into the store buffer */
    method StoreResult()
      requires Valid() && (thread.AtResult? || thread.AtFinished?)
      modifies this
      ensures View() == Next(old(View()), fences, StepThread)
      ensures Valid()
    {
      if thread.AtResult? {
        result, thread := thread.value, AtFinished;
      } else {
        finishedBuffered, thread := true, AtDetachedTest;
      }
    }

    /** if (ccatomic_load_acquire(&thread->detached)) */
    method LoadDetached()
      requires Valid() && thread.AtDetachedTest?
      modifies this
      ensures View() == Next(old(View()), fences, StepThread)
      ensures Valid()
    {
      if !(fences.finisher && finishedBuffered) {
        thread := if detached then AtThreadClaim else Exited;
      }
    }

    /** ccatomic_exchange_acquire(&thread->cleanup_claimed, 1) == 0, by the finishing side */
    method ClaimAsThread()
      requires Valid() && thread.AtThreadClaim?
      modifies this
      ensures View() == Next(old(View()), fences, StepThread)
      ensures Valid()
    {
      finished, finishedBuffered := finished || finishedBuffered, false;
      var previous := claimed;
      claimed := true;
      thread := if previous then Exited else AtThreadFree;
    }

    /** free(thread), by the finishing side: the only free of this handle */
    method FreeAsThread()
      requires Valid() && thread.AtThreadFree?
      modifies this
      ensures View() == Next(old(View()), fences, StepThread)
      ensures Valid()
      ensures old(frees) == 0 && frees == 1
    {
      frees := frees + 1;
      thread := Exited;
    }

    /** The entry guards of ccthread_join and ccthread_detach. */
    method TestGuards()
      requires Valid() && (consumer.AtDetachedGuard? || consumer.AtJoinedGuard?)
      modifies this
      ensures View() == Next(old(View()), fences, StepConsumer)
      ensures Valid()
      ensures !consumer.Rejected?
    {
      if consumer.AtDetachedGuard? {
        consumer := if detached || detachedBuffered then Rejected else AtJoinedGuard(consumer.join);
      } else {
        consumer := if joined then Rejected else if consumer.join then AtPthreadJoin else AtPthreadDetach;
      }
    }

    /** ccthread_join after its guards: wait, copy the result, set joined, free */
    method StepJoin()
      requires Valid()
      requires consumer.AtPthreadJoin? || consumer.AtCopyResult? || consumer.AtJoined? || consumer.AtJoinFree?
      modifies this
      ensures View() == Next(old(View()), fences, StepConsumer)
      ensures Valid()
      ensures consumer.Joined? ==> consumer.result == outcome && frees == 1
    {
      match consumer {
        case AtPthreadJoin =>
          if thread.Exited? && !finishedBuffered {
            consumer := AtCopyResult;
          }
        case AtCopyResult => copied, consumer := result, AtJoined;
        case AtJoined => joined, consumer := true, AtJoinFree;
        case AtJoinFree => frees := frees + 1; consumer := Joined(copied);
      }
    }

    /** ccthread_detach after its guards, up to the release store of detached */
    method StoreDetached()
      requires Valid() && (consumer.AtPthreadDetach? || consumer.AtDetached?)
      modifies this
      ensures View() == Next(old(View()), fences, StepConsumer)
      ensures Valid()
    {
      if consumer.AtPthreadDetach? {
        consumer := AtDetached;
      } else {
        detachedBuffered, consumer := true, AtFinishedTest;
      }
    }

    /** if (ccatomic_load_acquire(&thread->finished)) */
    method LoadFinished()
      requires Valid() && consumer.AtFinishedTest?
      modifies this
      ensures View() == Next(old(View()), fences, StepConsumer)
      ensures Valid()
    {
      if !(fences.consumer && detachedBuffered) {
        consumer := if finished then AtDetachClaim else Detached;
      }
    }

    /** ccatomic_exchange_acquire(&thread->cleanup_claimed, 1) == 0, by the detaching side */
    method ClaimAsConsumer()
      requires Valid() && consumer.AtDetachClaim?
      modifies this
      ensures View() == Next(old(View()), fences, StepConsumer)
      ensures Valid()
    {
      detached, detachedBuffered := detached || detachedBuffered, false;
      var previous := claimed;
      claimed := true;
      consumer := if previous then Detached else AtDetachFree;
    }

    /** free(thread), by the detaching side: the only free of this handle */
    method FreeAsConsumer()
      requires Valid() && consumer.AtDetachFree?
      modifies this
      ensures View() == Next(old(View()), fences, StepConsumer)
      ensures Valid()
      ensures old(frees) == 0 && frees == 1
    {
      frees := frees + 1;
      consumer := Detached;
    }

    method StepSystem(a: Action)
      requires Valid()
      modifies this
      ensures View() == Next(old(View()), fences, a)
      ensures Valid()
    {
      match a {
        case Finish(value) =>
          if thread.Running? {
            EndFunction(value);
          }
        case StepThread =>
          match thread {
            case Running =>
            case AtResult(_) => StoreResult();
            case AtFinished => StoreResult();
            case AtDetachedTest => LoadDetached();
            case AtThreadClaim => ClaimAsThread();
            case AtThreadFree => FreeAsThread();
            case Exited =>
          }
        case CommitFinished => finished, finishedBuffered := finished || finishedBuffered, false;
        case Consume(join) =>
          if consumer.NotConsumed? {
            consumer := AtDetachedGuard(join);
          }
        case StepConsumer =>
          match consumer {
            case AtDetachedGuard(_) => TestGuards();
            case AtJoinedGuard(_) => TestGuards();
            case AtPthreadDetach => StoreDetached();
            case AtDetached => StoreDetached();
            case AtFinishedTest => LoadFinished();
            case AtDetachClaim => ClaimAsConsumer();
            case AtDetachFree => FreeAsConsumer();
            case AtPthreadJoin => StepJoin();
            case AtCopyResult => StepJoin();
            case AtJoined => StepJoin();
            case AtJoinFree => StepJoin();
            case NotConsumed =>
            case Joined(_) =>
            case Detached =>
            case Rejected =>
          }
        case CommitDetached => detached, detachedBuffered := detached || detachedBuffered, false;
      }
    }

    /** Any interleaving of the two sides and their store buffers. */
    method Run(actions: seq<Action>)
      requires Valid()
      modifies this
      ensures View() == Exec(old(View()), fences, actions)
      ensures Valid()
    {
      var i := 0;
      while i < |actions|
        invariant 0 <= i <= |actions|
        invariant Valid() && Exec(View(), fences, actions[i..]) == Exec(old(View()), fences, actions)
      {
        assert actions[i..][1..] == actions[i + 1..];
        StepSystem(actions[i]);
        i := i + 1;
      }
    }
  }
}
