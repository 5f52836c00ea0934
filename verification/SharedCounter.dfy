/** The lock-protected counter (examples/ccspinlock_basic.c): any number of workers, each incrementing the shared
    counter `rounds` times under the spinlock, with g_counter++ split into its read and its write. */
module SharedCounter {
  import opened Tally
  import opened Threads
  import SpinLock

  /** Where a worker is; `made` counts the increments it has made. */
  datatype Phase =
    | Ready(made: nat)                  // at the head of its for loop
    | Locking(made: nat)                // inside ccspinlock_lock
    | Reading(made: nat)                // about to read g_counter
    | Writing(made: nat, value: nat)    // about to write value + 1 back
    | Leaving(made: nat)                // about to call ccspinlock_unlock
    | Unlocking(made: nat)              // inside ccspinlock_unlock

  datatype State = State(lock: SpinLock.State, phase: seq<Phase>, counter: nat, rounds: nat)

  /** Worker t steps; an access to the lock's owner word uses position `at` of its modification order. */
  datatype Action = Action(t: nat, at: nat)

  function Init(ids: seq<nat>, rounds: nat): State
  {
    State(SpinLock.Init(ids), seq(|ids|, _ => Ready(0)), 0, rounds)
  }

  predicate WellFormed(s: State)
  {
    |s.lock.pc| == |s.phase|
  }

  function Next(s: State, a: Action): State
  {
    if !WellFormed(s) || a.t >= |s.phase| then s else
    var t := a.t;
    match s.phase[t]
    case Ready(made) =>
      if made < s.rounds then
        s.(lock := SpinLock.Next(s.lock, SpinLock.CallLock(t)), phase := s.phase[t := Locking(made)])
      else s
    case Locking(made) =>
      if s.lock.pc[t].Idle? then s.(phase := s.phase[t := Reading(made)])
      else s.(lock := SpinLock.Next(s.lock, SpinLock.Step(t, a.at)))
    case Reading(made) => s.(phase := s.phase[t := Writing(made, s.counter)])
    case Writing(made, value) => s.(counter := value + 1, phase := s.phase[t := Leaving(made + 1)])
    case Leaving(made) =>
      s.(lock := SpinLock.Next(s.lock, SpinLock.CallUnlock(t)), phase := s.phase[t := Unlocking(made)])
    case Unlocking(made) =>
      if s.lock.pc[t].Idle? then s.(phase := s.phase[t := Ready(made)])
      else s.(lock := SpinLock.Next(s.lock, SpinLock.Step(t, a.at)))
  }

  function Exec(s: State, actions: seq<Action>): State
    decreases |actions|
  {
    if actions == [] then s else Exec(Next(s, actions[0]), actions[1..])
  }

  function Made(p: Phase): nat
  {
    p.made
  }

  /** Inside ccspinlock_lock, or just out of it with the lock. */
  ghost predicate InLock(l: SpinLock.State, t: nat)
    requires t < |l.pc|
  {
    var p := l.pc[t];
    if l.lock == SpinLock.Held(t, 1) then p.AtSetOwner? || p.AtSetRecursion? || p.Idle?
    else !SpinLock.Holds(l, t) && (p.AtOwner? || p.AtOwnerAgain? || p.AtExchange?) && p.retry
  }

  /** Inside ccspinlock_unlock, or just out of it without the lock. */
  ghost predicate InUnlock(l: SpinLock.State, t: nat)
    requires t < |l.pc|
  {
    var p := l.pc[t];
    if l.lock == SpinLock.Held(t, 1) then
      p.AtDepthTest? || p.AtClearOwner? || p.AtClearRecursion? || p.AtClearFlag?
    else !SpinLock.Holds(l, t) && p.Idle?
  }

  /** How far through the lock's code a worker can be in each phase. */
  ghost predicate WorkerInv(s: State, t: nat)
    requires SpinLock.WellFormed(s.lock) && WellFormed(s) && t < |s.phase|
  {
    var p, holds := s.lock.pc[t], s.lock.lock == SpinLock.Held(t, 1);
    && (SpinLock.Holds(s.lock, t) ==> holds)
    && match s.phase[t]
       case Ready(made) => !holds && p.Idle? && made <= s.rounds
       case Locking(made) => made < s.rounds && InLock(s.lock, t)
       case Reading(made) => holds && p.Idle? && made < s.rounds
       case Writing(made, value) => holds && p.Idle? && made < s.rounds && value == s.counter
       case Leaving(made) => holds && p.Idle? && made <= s.rounds
       case Unlocking(made) => made <= s.rounds && InUnlock(s.lock, t)
  }

  ghost predicate Inv(s: State)
  {
    && SpinLock.Inv(s.lock) && WellFormed(s)
    && s.counter == Sum(s.phase, Made)
    && forall t :: 0 <= t < |s.phase| ==> WorkerInv(s, t)
  }

  lemma InitInv(ids: seq<nat>, rounds: nat)
    requires GoodIds(ids)
    ensures Inv(Init(ids, rounds))
  {
    SpinLock.InitInv(ids);
    SumConstant(Init(ids, rounds).phase, Made, 0);
  }

  /** What the lock guarantees about one thread's action: other threads keep their place, and keep the lock or do
      not get it. */
  lemma LockFrame(l: SpinLock.State, a: SpinLock.Action)
    requires SpinLock.Inv(l)
    ensures var l' := SpinLock.Next(l, a);
      && SpinLock.Inv(l') && |l'.pc| == |l.pc|
      && (forall u :: 0 <= u < |l.pc| && u != a.t ==> l'.pc[u] == l.pc[u])
      && (forall u :: u != a.t ==> (SpinLock.Holds(l, u) <==> SpinLock.Holds(l', u)))
      && (l.lock.Held? && l.lock.owner != a.t ==> l'.lock == l.lock)
  {
    SpinLock.NextInv(l, a);
    SpinLock.MovesOne(l, a);
    SpinLock.OthersKeepLock(l, a);
  }

  /** A move of worker t that keeps its own part of the invariant keeps everybody's. */
  lemma MoveInv(s: State, s': State, t: nat)
    requires Inv(s) && SpinLock.Inv(s'.lock) && WellFormed(s') && t < |s.phase| == |s'.phase| && s'.rounds == s.rounds
    requires s'.phase == s.phase[t := s'.phase[t]] && WorkerInv(s', t)
    requires s'.counter + s.phase[t].made == s.counter + s'.phase[t].made
    requires s'.counter == s.counter || SpinLock.Holds(s.lock, t)
    requires forall u :: 0 <= u < |s.phase| && u != t ==> s'.lock.pc[u] == s.lock.pc[u]
    requires forall u :: u != t ==> (SpinLock.Holds(s.lock, u) <==> SpinLock.Holds(s'.lock, u))
    requires s.lock.lock.Held? && s.lock.lock.owner != t ==> s'.lock.lock == s.lock.lock
    ensures Inv(s')
  {
    SumUpdate(s.phase, Made, t, s'.phase[t]);
    forall u | 0 <= u < |s.phase|
      ensures WorkerInv(s', u)
    {
      assert WorkerInv(s, u);
    }
  }

  lemma LockStep(l: SpinLock.State, t: nat, at: nat)
    requires SpinLock.Inv(l) && t < |l.pc| && !l.pc[t].Idle?
    ensures var l' := SpinLock.Next(l, SpinLock.Step(t, at));
      |l'.pc| == |l.pc| && (InLock(l, t) ==> InLock(l', t)) && (InUnlock(l, t) ==> InUnlock(l', t))
  {
    assert SpinLock.ThreadInv(l, t);
  }

  lemma LockingInv(s: State, t: nat, at: nat)
    requires Inv(s) && t < |s.phase| && (s.phase[t].Locking? || s.phase[t].Unlocking?) && !s.lock.pc[t].Idle?
    ensures Inv(Next(s, Action(t, at)))
  {
    LockFrame(s.lock, SpinLock.Step(t, at));
    LockStep(s.lock, t, at);
    assert WorkerInv(s, t);
    MoveInv(s, Next(s, Action(t, at)), t);
  }

  lemma CallingInv(s: State, t: nat, at: nat)
    requires Inv(s) && t < |s.phase| && (s.phase[t].Ready? || s.phase[t].Leaving?)
    ensures Inv(Next(s, Action(t, at)))
  {
    LockFrame(s.lock, SpinLock.CallLock(t));
    LockFrame(s.lock, SpinLock.CallUnlock(t));
    assert WorkerInv(s, t);
    MoveInv(s, Next(s, Action(t, at)), t);
  }

  lemma NextInv(s: State, a: Action)
    requires Inv(s)
    ensures Inv(Next(s, a))
  {
    var t := a.t;
    if t < |s.phase| {
      if s.phase[t].Ready? || s.phase[t].Leaving? {
        CallingInv(s, t, a.at);
      } else if (s.phase[t].Locking? || s.phase[t].Unlocking?) && !s.lock.pc[t].Idle? {
        LockingInv(s, t, a.at);
      } else {
        assert WorkerInv(s, t);
        MoveInv(s, Next(s, a), t);
      }
    }
  }

  lemma {:induction false} ExecInv(s: State, actions: seq<Action>)
    requires Inv(s)
    ensures Inv(Exec(s, actions)) && |Exec(s, actions).phase| == |s.phase| && Exec(s, actions).rounds == s.rounds
    decreases |actions|
  {
    if actions != [] {
      NextInv(s, actions[0]);
      ExecInv(Next(s, actions[0]), actions[1..]);
    }
  }

  predicate Finished(s: State)
  {
    forall t :: 0 <= t < |s.phase| ==> s.phase[t] == Ready(s.rounds)
  }

  lemma {:induction false} SumBounded(phase: seq<Phase>, rounds: nat)
    requires forall t :: 0 <= t < |phase| ==> phase[t].made <= rounds
    ensures Sum(phase, Made) <= |phase| * rounds
  {
    if phase != [] {
      SumBounded(phase[..|phase| - 1], rounds);
      assert |phase| * rounds == (|phase| - 1) * rounds + rounds;
    }
  }

  /** Writes of g_counter during the run: a worker that was about to write goes on. */
  function Writes(s: State, actions: seq<Action>): nat
    decreases |actions|
  {
    if actions == [] then 0 else
    var a, s' := actions[0], Next(s, actions[0]);
    (if a.t < |s.phase| && s.phase[a.t].Writing? && a.t < |s'.phase| && !s'.phase[a.t].Writing? then 1 else 0)
    + Writes(s', actions[1..])
  }

  lemma {:induction false} EachWriteAddsOne(s: State, actions: seq<Action>)
    requires Inv(s)
    ensures Exec(s, actions).counter == s.counter + Writes(s, actions)
    decreases |actions|
  {
    if actions != [] {
      NextInv(s, actions[0]);
      if actions[0].t < |s.phase| {
        assert WorkerInv(s, actions[0].t);
      }
      EachWriteAddsOne(Next(s, actions[0]), actions[1..]);
    }
  }

  /** No increment is lost: in every interleaving the counter is the number of writes that workers have made, which is
      the sum of the rounds they count, it never exceeds workers * rounds, and it is exactly that once all workers have
      finished.  A worker at its read or its write holds the lock, and at most one worker is between the two. */
  lemma NoIncrementLost(ids: seq<nat>, rounds: nat, actions: seq<Action>)
    requires GoodIds(ids)
    ensures var s := Exec(Init(ids, rounds), actions);
      && |s.phase| == |ids|
      && s.counter == Writes(Init(ids, rounds), actions) == Sum(s.phase, Made) <= |ids| * rounds
      && (forall t :: 0 <= t < |ids| && (s.phase[t].Reading? || s.phase[t].Writing?) ==> SpinLock.Holds(s.lock, t))
      && (Finished(s) ==> s.counter == |ids| * rounds)
      && (forall t, u :: 0 <= t < u < |ids| ==> !(s.phase[t].Writing? && s.phase[u].Writing?))
  {
    InitInv(ids, rounds);
    ExecInv(Init(ids, rounds), actions);
    EachWriteAddsOne(Init(ids, rounds), actions);
    var s := Exec(Init(ids, rounds), actions);
    forall t | 0 <= t < |ids|
      ensures WorkerInv(s, t) && s.phase[t].made <= rounds
    {
    }
    SumBounded(s.phase, rounds);
    if Finished(s) {
      SumConstant(s.phase, Made, rounds);
    }
  }

  /** The increment is a read and a write apart, and it is the lock that makes it one: put two workers between the two
      at once, as no run does, and their two writes add one. */
  lemma LockIsNeeded(s: State, t: nat, u: nat, made: nat, at: nat)
    requires WellFormed(s) && t < |s.phase| && u < |s.phase| && t != u
    requires s.phase[t] == s.phase[u] == Writing(made, s.counter)
    ensures Exec(s, [Action(t, at), Action(u, at)]).counter == s.counter + 1
  {
    var s' := Next(s, Action(t, at));
    assert s'.phase[u] == Writing(made, s.counter);
    assert Exec(s', [Action(u, at)]) == Next(s', Action(u, at));
  }

  // ---- The workers can always finish ----

  /** Steps left in the round when nobody is in the way. */
  function Rank(phase: Phase, p: SpinLock.Pc): nat
  {
    match phase
    case Ready(_) => 9
    case Locking(_) =>
      (match p
       case AtOwner(_) => 8
       case AtOwnerAgain(_) => 7
       case AtExchange(_) => 6
       case AtSetOwner => 5
       case AtSetRecursion => 4
       case _ => 3)
    case Reading(_) => 2
    case Writing(_, _) => 1
    case Leaving(_) => 16
    case Unlocking(_) =>
      (match p
       case AtDepthTest => 15
       case AtClearOwner => 14
       case AtClearRecursion => 13
       case AtClearFlag => 12
       case _ => 11)
  }

  function Load(phase: Phase, p: SpinLock.Pc, rounds: nat): nat
  {
    (if phase.made < rounds then 16 * (rounds - phase.made) else 0) + Rank(phase, p)
  }

  function Loads(s: State): seq<nat>
    requires WellFormed(s)
  {
    seq(|s.phase|, t requires 0 <= t < |s.phase| => Load(s.phase[t], s.lock.pc[t], s.rounds))
  }

  function Itself(load: nat): nat
  {
    load
  }

  /** The latest entry to read and the end to write at. */
  function Place(l: SpinLock.State, t: nat): nat
    requires t < |l.pc| && l.order != []
  {
    match l.pc[t]
    case AtOwner(_) => |l.order| - 1
    case AtOwnerAgain(_) => |l.order| - 1
    case AtExchange(_) => |l.flag|
    case AtClearFlag => |l.flag|
    case _ => |l.order|
  }

  /** The lock's code, alone with the lock held by t or free, leads t to its end. */
  lemma LockAdvances(l: SpinLock.State, t: nat)
    requires SpinLock.Inv(l) && t < |l.pc| && !l.pc[t].Idle? && (l.lock.Free? || SpinLock.Holds(l, t))
    ensures var p, l' := l.pc[t], SpinLock.Next(l, SpinLock.Step(t, Place(l, t)));
      && |l'.pc| == |l.pc|
      && (InLock(l, t) ==> Rank(Locking(0), l'.pc[t]) < Rank(Locking(0), p))
      && (InUnlock(l, t) ==> Rank(Unlocking(0), l'.pc[t]) < Rank(Unlocking(0), p))
  {
    assert SpinLock.ThreadInv(l, t);
    assert SpinLock.FlagAhead(l.flag, l.seenFlag[t], t, SpinLock.Holds(l, t));
  }

  lemma IdleAdvances(s: State, t: nat, at: nat)
    requires SpinLock.Inv(s.lock) && WellFormed(s) && t < |s.phase| && WorkerInv(s, t)
    requires s.phase[t] != Ready(s.rounds) && s.lock.pc[t].Idle?
    ensures var s' := Next(s, Action(t, at));
      && WellFormed(s') && |s'.phase| == |s.phase|
      && Load(s'.phase[t], s'.lock.pc[t], s.rounds) < Load(s.phase[t], s.lock.pc[t], s.rounds)
  {
  }

  /** A worker that holds the lock, or finds it free, gets on with its rounds. */
  lemma Advances(s: State, t: nat)
    requires Inv(s) && t < |s.phase| && s.phase[t] != Ready(s.rounds)
    requires s.lock.lock.Free? || SpinLock.Holds(s.lock, t)
    ensures var s' := Next(s, Action(t, Place(s.lock, t)));
      && WellFormed(s') && s'.rounds == s.rounds && |s'.phase| == |s.phase|
      && Load(s'.phase[t], s'.lock.pc[t], s.rounds) < Load(s.phase[t], s.lock.pc[t], s.rounds)
  {
    assert WorkerInv(s, t);
    if s.lock.pc[t].Idle? {
      IdleAdvances(s, t, Place(s.lock, t));
    } else {
      LockAdvances(s.lock, t);
    }
  }

  lemma OthersKeepLoad(s: State, a: Action)
    requires WellFormed(s) && a.t < |s.phase|
    ensures var s' := Next(s, a);
      WellFormed(s') && s'.rounds == s.rounds && |s'.phase| == |s.phase| && Loads(s') == Loads(s)[a.t := Loads(s')[a.t]]
  {
    SpinLock.MovesOne(s.lock, SpinLock.CallLock(a.t));
    SpinLock.MovesOne(s.lock, SpinLock.CallUnlock(a.t));
    SpinLock.MovesOne(s.lock, SpinLock.Step(a.t, a.at));
  }

  lemma {:induction false} CanFinish(s: State) returns (rest: seq<Action>)
    requires Inv(s)
    ensures Finished(Exec(s, rest))
    decreases Sum(Loads(s), Itself)
  {
    if Finished(s) {
      rest := [];
    } else {
      var t: nat :| t < |s.phase| && s.phase[t] != Ready(s.rounds);
      if s.lock.lock.Held? {
        t := s.lock.lock.owner;
        assert WorkerInv(s, t);
      }
      var a := Action(t, Place(s.lock, t));
      var s' := Next(s, a);
      Advances(s, t);
      NextInv(s, a);
      OthersKeepLoad(s, a);
      SumUpdate(Loads(s), Itself, t, Loads(s')[t]);
      var later := CanFinish(s');
      rest := [a] + later;
      assert rest[1..] == later;
    }
  }

  /** Stale reads and displaced exchanges never lead to a dead end: from every state of every run there is a way on
      which all workers finish, and there the counter is workers * rounds. */
  lemma WorkersCanFinish(ids: seq<nat>, rounds: nat, before: seq<Action>)
    requires GoodIds(ids)
    ensures var s := Exec(Init(ids, rounds), before);
      exists rest :: Finished(Exec(s, rest)) && |Exec(s, rest).phase| == |ids|
                     && Exec(s, rest).counter == |ids| * rounds
  {
    InitInv(ids, rounds);
    ExecInv(Init(ids, rounds), before);
    var s := Exec(Init(ids, rounds), before);
    var rest := CanFinish(s);
    ExecInv(s, rest);
    SumConstant(Exec(s, rest).phase, Made, rounds);
  }

  // ---- The code ----

  class Workers {
    const spin: SpinLock.Spin
    const rounds: nat
    var counter: nat
    var phase: seq<Phase>

    ghost function View(): State
      reads this, spin
    {
      State(spin.View(), phase, counter, rounds)
    }

    ghost predicate Valid()
      reads this, spin
    {
      Inv(View())
    }

    constructor (ids: seq<nat>, rounds: nat)
      requires GoodIds(ids)
      ensures View() == Init(ids, rounds) && fresh(spin)
      ensures Valid()
    {
      spin := new SpinLock.Spin(SpinLock.Plain, ids);
      this.rounds := rounds;
      counter := 0;
      phase := seq(|ids|, _ => Ready(0));
      new;
      InitInv(ids, rounds);
    }

    /** The next step of worker t: for (i < rounds) { lock; g_counter++; unlock; } */
    method StepWorker(t: nat, at: nat)
      requires Valid() && t < |phase|
      modifies this, spin
      ensures View() == Next(old(View()), Action(t, at))
      ensures Valid()
    {
      NextInv(View(), Action(t, at));
      assert WorkerInv(View(), t);
      match phase[t] {
        case Ready(made) =>
          if made < rounds {
            spin.BeginAcquire(t, true);
            phase := phase[t := Locking(made)];
          }
        case Locking(made) =>
          if spin.pc[t].Idle? {
            phase := phase[t := Reading(made)];
          } else {
            spin.StepThread(t, at);
          }
        case Reading(made) => phase := phase[t := Writing(made, counter)];
        case Writing(made, value) =>
          counter := value + 1;
          phase := phase[t := Leaving(made + 1)];
        case Leaving(made) =>
          spin.BeginRelease(t);
          phase := phase[t := Unlocking(made)];
        case Unlocking(made) =>
          if spin.pc[t].Idle? {
            phase := phase[t := Ready(made)];
          } else {
            spin.StepThread(t, at);
          }
      }
    }

    /** Any interleaving of the workers. */
    method Run(actions: seq<Action>)
      requires Valid()
      modifies this, spin
      ensures View() == Exec(old(View()), actions)
      ensures Valid()
    {
      var i := 0;
      while i < |actions|
        invariant 0 <= i <= |actions|
        invariant Valid() && Exec(View(), actions[i..]) == Exec(old(View()), actions)
      {
        assert actions[i..][1..] == actions[i + 1..];
        if actions[i].t < |phase| {
          StepWorker(actions[i].t, actions[i].at);
        }
        i := i + 1;
      }
    }
  }
}
