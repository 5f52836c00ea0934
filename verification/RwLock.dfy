/** The Windows read-write lock (ccrwlock.c): an SRWLOCK plus the id of its writer.

    ccrwlock_unlock is told nothing about the mode and infers it from writer_tid.  Of the SRWLOCK only its contract is
    used: exclusive is granted when nobody holds the lock, shared when no writer does, either may also be refused or
    delayed, and releasing a mode that the caller does not hold is a fault. */
module RwLock {
  import opened Threads

  datatype Pc =
    | Idle
    | AtAcquireShared(attempt: bool)       // AcquireSRWLockShared, or TryAcquireSRWLockShared
    | AtAcquireExclusive(attempt: bool)
    | AtSetWriter                          // rw->writer_tid = ccthread_gettid(NULL)
    | AtWriterTest                         // unlock: rw->writer_tid, tested against 0
    | AtWriterCompare                      // unlock: rw->writer_tid, compared with the caller's id
    | AtClearWriter
    | AtReleaseExclusive
    | AtReleaseShared

  datatype Outcome = Success | Error
  datatype Writer = NoWriter | WrittenBy(t: nat)

  /** shared[t]: how many times t holds the native lock in shared mode; exclusive: who holds it exclusively. */
  datatype State = State(
    ids: seq<nat>, shared: seq<nat>, exclusive: Writer, writerTid: nat, pc: seq<Pc>, outcome: seq<Outcome>,
    fault: bool)

  datatype Action =
    | CallRead(t: nat, attempt: bool)
    | CallWrite(t: nat, attempt: bool)
    | CallUnlock(t: nat)
    | Step(t: nat, granted: bool)      // `granted`: whether the native lock lets an acquisition through now

  function Init(ids: seq<nat>): State
  {
    State(ids, seq(|ids|, _ => 0), NoWriter, 0, seq(|ids|, _ => Idle), seq(|ids|, _ => Success), false)
  }

  predicate WellFormed(s: State)
  {
    |s.shared| == |s.ids| && |s.pc| == |s.ids| && |s.outcome| == |s.ids|
  }

  predicate NoReaders(s: State)
  {
    forall i :: 0 <= i < |s.shared| ==> s.shared[i] == 0
  }

  predicate Holds(s: State, t: nat)
    requires WellFormed(s) && t < |s.pc|
  {
    s.shared[t] > 0 || s.exclusive == WrittenBy(t)
  }

  function Return(s: State, t: nat, o: Outcome): State
    requires WellFormed(s) && t < |s.pc|
  {
    s.(pc := s.pc[t := Idle], outcome := s.outcome[t := o])
  }

  function StepOf(s: State, t: nat, granted: bool): (s': State)
    requires WellFormed(s) && t < |s.pc|
    ensures WellFormed(s') && s'.ids == s.ids
  {
    match s.pc[t]
    case AtAcquireShared(attempt) =>
      if granted && s.exclusive.NoWriter? then Return(s, t, Success).(shared := s.shared[t := s.shared[t] + 1])
      else if attempt then Return(s, t, Error)
      else s
    case AtAcquireExclusive(attempt) =>
      if granted && s.exclusive.NoWriter? && NoReaders(s) then
        s.(exclusive := WrittenBy(t), pc := s.pc[t := AtSetWriter])
      else if attempt then Return(s, t, Error)
      else s
    case AtSetWriter => Return(s, t, Success).(writerTid := s.ids[t])
    case AtWriterTest => s.(pc := s.pc[t := if s.writerTid != 0 then AtWriterCompare else AtReleaseShared])
    case AtWriterCompare => s.(pc := s.pc[t := if s.writerTid == s.ids[t] then AtClearWriter else AtReleaseShared])
    case AtClearWriter => s.(writerTid := 0, pc := s.pc[t := AtReleaseExclusive])
    case AtReleaseExclusive =>
      Return(s, t, Success).(exclusive := NoWriter, fault := s.fault || s.exclusive != WrittenBy(t))
    case AtReleaseShared =>
      Return(s, t, Success).(shared := s.shared[t := if s.shared[t] > 0 then s.shared[t] - 1 else 0],
                             fault := s.fault || s.shared[t] == 0)
    case Idle => s
  }

  /** Callers unlock only what they hold. */
  predicate MayCall(s: State, a: Action)
  {
    WellFormed(s) && a.t < |s.pc| && s.pc[a.t].Idle? && (a.CallUnlock? ==> Holds(s, a.t))
  }

  function Next(s: State, a: Action): State
  {
    match a
    case CallRead(t, attempt) => if MayCall(s, a) then s.(pc := s.pc[t := AtAcquireShared(attempt)]) else s
    case CallWrite(t, attempt) => if MayCall(s, a) then s.(pc := s.pc[t := AtAcquireExclusive(attempt)]) else s
    case CallUnlock(t) => if MayCall(s, a) then s.(pc := s.pc[t := AtWriterTest]) else s
    case Step(t, granted) => if WellFormed(s) && t < |s.pc| then StepOf(s, t, granted) else s
  }

  function Exec(s: State, actions: seq<Action>): State
    decreases |actions|
  {
    if actions == [] then s else Exec(Next(s, actions[0]), actions[1..])
  }

  // ---- The invariant ----

  /** The exclusive holder's id is in writer_tid except just after acquiring and just before releasing. */
  ghost predicate WriterInv(s: State, t: nat)
    requires WellFormed(s) && t < |s.pc|
  {
    && s.writerTid == (if s.pc[t].AtSetWriter? || s.pc[t].AtReleaseExclusive? then 0 else s.ids[t])
    && !s.pc[t].AtReleaseShared?
  }

  ghost predicate OtherInv(s: State, t: nat)
    requires WellFormed(s) && t < |s.pc|
  {
    && !s.pc[t].AtSetWriter? && !s.pc[t].AtClearWriter? && !s.pc[t].AtReleaseExclusive? && !s.pc[t].AtWriterCompare?
    && (s.pc[t].AtWriterTest? || s.pc[t].AtReleaseShared? ==> s.shared[t] > 0)
  }

  ghost predicate ThreadInv(s: State, t: nat)
    requires WellFormed(s) && t < |s.pc|
  {
    if s.exclusive == WrittenBy(t) then WriterInv(s, t) else OtherInv(s, t)
  }

  ghost predicate Inv(s: State)
  {
    && WellFormed(s) && GoodIds(s.ids) && !s.fault
    && (s.exclusive.WrittenBy? ==> s.exclusive.t < |s.pc| && NoReaders(s))
    && (s.exclusive.NoWriter? ==> s.writerTid == 0)
    && forall t :: 0 <= t < |s.pc| ==> ThreadInv(s, t)
  }

  lemma StepInv(s: State, t: nat, granted: bool)
    requires Inv(s) && t < |s.pc|
    ensures Inv(StepOf(s, t, granted))
  {
    var s' := StepOf(s, t, granted);
    forall u | 0 <= u < |s.pc|
      ensures ThreadInv(s', u)
    {
      assert ThreadInv(s, u);
      assert ThreadInv(s, t);
    }
    assert ThreadInv(s, t);
  }

  lemma CallInv(s: State, a: Action)
    requires Inv(s) && !a.Step?
    ensures Inv(Next(s, a))
  {
    forall u | 0 <= u < |s.pc|
      ensures ThreadInv(Next(s, a), u)
    {
      assert ThreadInv(s, u);
    }
  }

  lemma NextInv(s: State, a: Action)
    requires Inv(s)
    ensures Inv(Next(s, a))
  {
    match a
    case Step(t, granted) => if t < |s.pc| { StepInv(s, t, granted); }
    case CallRead(_, _) => CallInv(s, a);
    case CallWrite(_, _) => CallInv(s, a);
    case CallUnlock(_) => CallInv(s, a);
  }

  lemma {:induction false} ExecInv(s: State, actions: seq<Action>)
    requires Inv(s)
    ensures Inv(Exec(s, actions)) && Exec(s, actions).ids == s.ids
    decreases |actions|
  {
    if actions != [] {
      NextInv(s, actions[0]);
      ExecInv(Next(s, actions[0]), actions[1..]);
    }
  }

  /** On every run: unlock releases the mode its caller holds, so the native lock is never misused; a shared hold
      means writer_tid is 0; between the calls of the exclusive holder writer_tid is its id; readers and a writer
      never coexist. */
  lemma UnlockReleasesTheRightMode(ids: seq<nat>, actions: seq<Action>)
    requires GoodIds(ids)
    ensures var s := Exec(Init(ids), actions);
      && !s.fault && WellFormed(s) && s.ids == ids
      && (forall t :: 0 <= t < |ids| && s.pc[t].AtReleaseShared? ==> s.shared[t] > 0 && s.exclusive != WrittenBy(t))
      && (forall t :: 0 <= t < |ids| && s.pc[t].AtReleaseExclusive? ==> s.exclusive == WrittenBy(t) && s.shared[t] == 0)
      && (forall t :: 0 <= t < |ids| && s.shared[t] > 0 ==> s.writerTid == 0 && s.exclusive.NoWriter?)
      && (forall t :: 0 <= t < |ids| && s.pc[t].Idle? ==> (s.writerTid == ids[t] <==> s.exclusive == WrittenBy(t)))
  {
    ExecInv(Init(ids), actions);
    var s := Exec(Init(ids), actions);
    if s.exclusive.WrittenBy? {
      assert ThreadInv(s, s.exclusive.t);
    }
    forall t | 0 <= t < |ids|
      ensures s.pc[t].AtReleaseShared? ==> s.shared[t] > 0 && s.exclusive != WrittenBy(t)
      ensures s.pc[t].AtReleaseExclusive? ==> s.exclusive == WrittenBy(t) && s.shared[t] == 0
      ensures s.pc[t].Idle? ==> (s.writerTid == ids[t] <==> s.exclusive == WrittenBy(t))
    {
      assert ThreadInv(s, t);
    }
  }

  /** The steps of one ccrwlock_unlock, taken without interruption by its caller. */
  function Unlocking(t: nat): seq<Action>
  {
    [CallUnlock(t), Step(t, true), Step(t, true), Step(t, true), Step(t, true)]
  }

  function FourSteps(s: State, t: nat): State
    requires WellFormed(s) && t < |s.pc|
  {
    StepOf(StepOf(StepOf(StepOf(s, t, true), t, true), t, true), t, true)
  }

  lemma UnlockingRuns(s: State, t: nat)
    requires MayCall(s, CallUnlock(t))
    ensures Exec(s, Unlocking(t)) == FourSteps(s.(pc := s.pc[t := AtWriterTest]), t)
  {
    var s1 := s.(pc := s.pc[t := AtWriterTest]);
    var s3 := StepOf(StepOf(s1, t, true), t, true);
    ExecTwo(s1, t, [Step(t, true), Step(t, true)]);
    ExecTwo(s3, t, []);
    assert Unlocking(t)[1..] == [Step(t, true), Step(t, true)] + [Step(t, true), Step(t, true)];
    assert [Step(t, true), Step(t, true)] + [] == [Step(t, true), Step(t, true)];
  }

  lemma ReaderUnlocks(s: State, t: nat)
    requires WellFormed(s) && t < |s.pc| && s.pc[t].AtWriterTest? && s.writerTid == 0 && s.shared[t] > 0 && !s.fault
    ensures FourSteps(s, t)
         == s.(shared := s.shared[t := s.shared[t] - 1], pc := s.pc[t := Idle], outcome := s.outcome[t := Success])
  {
    var s3 := StepOf(StepOf(s, t, true), t, true);
    assert s3.pc[t].Idle?;
  }

  lemma WriterUnlocks(s: State, t: nat)
    requires WellFormed(s) && t < |s.pc| && s.pc[t].AtWriterTest? && s.writerTid == s.ids[t] != 0
    requires s.exclusive == WrittenBy(t) && !s.fault
    ensures FourSteps(s, t)
         == s.(exclusive := NoWriter, writerTid := 0, pc := s.pc[t := Idle], outcome := s.outcome[t := Success])
  {
    var s3 := StepOf(StepOf(s, t, true), t, true);
    assert s3 == s.(pc := s.pc[t := AtClearWriter]);
  }

  /** How unlock infers the mode, from any state whatever and whoever calls: a thread whose id is in writer_tid gives
      back the exclusive mode and clears the id, any other thread one shared hold, leaving the writer's mark alone. */
  lemma UnlockInfersMode(s: State, t: nat)
    requires WellFormed(s) && t < |s.pc| && s.pc[t].AtWriterTest? && s.ids[t] != 0
    ensures var s' := FourSteps(s, t);
      && s'.pc == s.pc[t := Idle]
      && (if s.writerTid == s.ids[t] then s'.exclusive == NoWriter && s'.writerTid == 0 && s'.shared == s.shared
          else
            && s'.exclusive == s.exclusive && s'.writerTid == s.writerTid
            && s'.shared == s.shared[t := if s.shared[t] > 0 then s.shared[t] - 1 else 0])
  {
    var s2 := StepOf(StepOf(s, t, true), t, true);
    assert s.writerTid == 0 ==> s2.pc[t].Idle?;
    assert s.writerTid == s.ids[t] ==> s2.pc == s.pc[t := AtClearWriter];
  }

  /** Without other threads in between, a whole unlock changes nothing but the caller's hold: it gives back one shared
      hold, or the exclusive one. */
  lemma UnlockUndoesAcquisition(s: State, t: nat)
    requires Inv(s) && t < |s.pc| && s.pc[t].Idle? && Holds(s, t)
    ensures var s' := Exec(s, Unlocking(t));
      && s'.shared == (if s.shared[t] > 0 then s.shared[t := s.shared[t] - 1] else s.shared)
      && s'.exclusive == (if s.shared[t] > 0 then s.exclusive else NoWriter)
      && s'.writerTid == 0 && s'.pc == s.pc && s'.outcome == s.outcome[t := Success]
  {
    assert ThreadInv(s, t);
    UnlockingRuns(s, t);
    if s.shared[t] > 0 {
      ReaderUnlocks(s.(pc := s.pc[t := AtWriterTest]), t);
    } else {
      WriterUnlocks(s.(pc := s.pc[t := AtWriterTest]), t);
    }
    assert s.pc[t := AtWriterTest][t := Idle] == s.pc;
  }

  lemma ExecTwo(s: State, t: nat, rest: seq<Action>)
    requires WellFormed(s) && t < |s.pc|
    ensures Exec(s, [Step(t, true), Step(t, true)] + rest) == Exec(StepOf(StepOf(s, t, true), t, true), rest)
  {
    var step := Step(t, true);
    assert ([step, step] + rest)[1..] == [step] + rest && ([step] + rest)[1..] == rest;
    assert Exec(s, [step, step] + rest) == Exec(StepOf(s, t, true), [step] + rest);
  }

  /** t's call is under way before each action of the run and has returned after the last. */
  predicate OneCall(s: State, actions: seq<Action>, t: nat)
    requires t < |s.pc|
    decreases |actions|
  {
    if s.pc[t].Idle? then actions == []
    else
      actions != [] && t < |Next(s, actions[0]).pc| && OneCall(Next(s, actions[0]), actions[1..], t)
  }

  /** Inside ccrwlock_unlock. */
  predicate InUnlock(p: Pc)
  {
    p.AtWriterTest? || p.AtWriterCompare? || p.AtClearWriter? || p.AtReleaseExclusive? || p.AtReleaseShared?
  }

  /** One action, t's or another thread's, while t is inside unlock: t's hold stays as it is until the step that
      returns, and that step gives back exactly the mode held. */
  lemma UnlockStep(s: State, a: Action, t: nat)
    requires Inv(s) && t < |s.pc| && InUnlock(s.pc[t])
    ensures var s' := Next(s, a);
      && |s'.pc| == |s.pc| && WellFormed(s')
      && (if s'.pc[t].Idle? then
            && s'.outcome[t] == Success && s'.exclusive != WrittenBy(t)
            && (if s.shared[t] > 0 then s'.shared[t] == s.shared[t] - 1 && s'.exclusive.NoWriter?
                else s.exclusive == WrittenBy(t) && s'.shared[t] == 0 && s'.exclusive.NoWriter? && s'.writerTid == 0)
          else
            && InUnlock(s'.pc[t]) && s'.shared[t] == s.shared[t]
            && (s'.exclusive == WrittenBy(t) <==> s.exclusive == WrittenBy(t)))
  {
    assert ThreadInv(s, t);
    if a.t < |s.pc| {
      assert ThreadInv(s, a.t);
    }
  }

  lemma {:induction false} UnlockRun(s: State, actions: seq<Action>, t: nat)
    requires Inv(s) && t < |s.pc| && InUnlock(s.pc[t]) && OneCall(s, actions, t)
    ensures var s' := Exec(s, actions);
      && |s'.pc| == |s.pc| && WellFormed(s')
      && s'.pc[t].Idle? && s'.outcome[t] == Success && s'.exclusive.NoWriter?
      && s'.shared[t] == (if s.shared[t] > 0 then s.shared[t] - 1 else 0)
      && (s.shared[t] == 0 ==> s.exclusive == WrittenBy(t) && s'.writerTid == 0)
    decreases |actions|
  {
    UnlockStep(s, actions[0], t);
    NextInv(s, actions[0]);
    if Next(s, actions[0]).pc[t].Idle? {
      assert actions[1..] == [];
    } else {
      UnlockRun(Next(s, actions[0]), actions[1..], t);
    }
  }

  /** Whatever the other threads do during an unlock: when it returns, its caller has given back one shared hold if it
      had any, and the exclusive hold otherwise. */
  lemma UnlockGivesBackHold(ids: seq<nat>, before: seq<Action>, during: seq<Action>, t: nat)
    requires GoodIds(ids) && MayCall(Exec(Init(ids), before), CallUnlock(t))
    requires t < |Next(Exec(Init(ids), before), CallUnlock(t)).pc|
    requires OneCall(Next(Exec(Init(ids), before), CallUnlock(t)), during, t)
    ensures var s := Exec(Init(ids), before);
      var s' := Exec(Next(s, CallUnlock(t)), during);
      && |s'.pc| == |s.pc| && WellFormed(s')
      && s'.pc[t].Idle? && s'.outcome[t] == Success && s'.exclusive.NoWriter?
      && s'.shared[t] == (if s.shared[t] > 0 then s.shared[t] - 1 else 0)
      && (s.shared[t] == 0 ==> s.exclusive == WrittenBy(t) && s'.writerTid == 0)
  {
    ExecInv(Init(ids), before);
    var s := Exec(Init(ids), before);
    NextInv(s, CallUnlock(t));
    UnlockRun(Next(s, CallUnlock(t)), during, t);
  }

  // ---- What an acquisition tells its caller ----

  /** Waiting for the native lock in the mode that was called for, or, for a writer, about to record its id. */
  predicate Acquiring(s: State, t: nat, call: Action)
    requires WellFormed(s) && t < |s.pc|
  {
    match call
    case CallRead(_, attempt) => s.pc[t] == AtAcquireShared(attempt)
    case CallWrite(_, attempt) => s.pc[t] == AtAcquireExclusive(attempt) || s.pc[t].AtSetWriter?
    case _ => false
  }

  /** What t holds: so many times shared, and whether exclusively. */
  datatype Hold = Hold(shared: nat, exclusive: bool)

  function HoldOf(s: State, t: nat): Hold
    requires WellFormed(s) && t < |s.pc|
  {
    Hold(s.shared[t], s.exclusive == WrittenBy(t))
  }

  /** The hold that a successful call adds to. */
  function Gained(hold: Hold, call: Action): Hold
  {
    if call.CallRead? then hold.(shared := hold.shared + 1) else hold.(exclusive := true)
  }

  /** t's hold while its call is under way: what it had, and for a writer about to record its id the lock as well. */
  function HoldDuring(hold: Hold, p: Pc): Hold
  {
    if p.AtSetWriter? then hold.(exclusive := true) else hold
  }

  /** Other threads change neither t's hold nor its place, nor, while t has the lock exclusively, writer_tid. */
  lemma OthersKeepHold(s: State, a: Action, t: nat)
    requires Inv(s) && t < |s.pc| && a.t != t
    ensures var s' := Next(s, a);
      WellFormed(s') && |s'.pc| == |s.pc| && s'.ids == s.ids && s'.pc[t] == s.pc[t] && HoldOf(s', t) == HoldOf(s, t)
  {
    assert ThreadInv(s, t);
    if a.t < |s.pc| {
      assert ThreadInv(s, a.t);
    }
  }

  lemma AcquireStep(s: State, a: Action, t: nat, call: Action, hold: Hold)
    requires Inv(s) && t < |s.pc| && Acquiring(s, t, call) && HoldOf(s, t) == HoldDuring(hold, s.pc[t])
    requires (call.CallRead? || call.CallWrite?) && (s.pc[t].AtSetWriter? ==> !hold.exclusive && hold.shared == 0)
    ensures var s' := Next(s, a);
      && WellFormed(s') && |s'.pc| == |s.pc| && s'.ids == s.ids
      && (if s'.pc[t].Idle? then
            if s'.outcome[t] == Success then
              && HoldOf(s', t) == Gained(hold, call) && (call.CallWrite? ==> !hold.exclusive)
              && (call.CallWrite? ==> s'.writerTid == s'.ids[t])
            else call.attempt && HoldOf(s', t) == hold
          else
            && Acquiring(s', t, call) && HoldOf(s', t) == HoldDuring(hold, s'.pc[t])
            && (s'.pc[t].AtSetWriter? ==> !hold.exclusive && hold.shared == 0))
  {
    if a.t != t {
      OthersKeepHold(s, a, t);
    } else {
      assert ThreadInv(s, t);
    }
  }

  lemma {:induction false} AcquireRun(s: State, actions: seq<Action>, t: nat, call: Action, hold: Hold)
    requires Inv(s) && t < |s.pc| && Acquiring(s, t, call) && HoldOf(s, t) == HoldDuring(hold, s.pc[t])
    requires (call.CallRead? || call.CallWrite?) && (s.pc[t].AtSetWriter? ==> !hold.exclusive && hold.shared == 0)
    requires OneCall(s, actions, t)
    ensures var s' := Exec(s, actions);
      && WellFormed(s') && |s'.pc| == |s.pc| && s'.ids == s.ids && s'.pc[t].Idle?
      && (if s'.outcome[t] == Success then
            && HoldOf(s', t) == Gained(hold, call) && (call.CallWrite? ==> !hold.exclusive)
            && (call.CallWrite? ==> s'.writerTid == s'.ids[t])
          else call.attempt && HoldOf(s', t) == hold)
    decreases |actions|
  {
    AcquireStep(s, actions[0], t, call, hold);
    NextInv(s, actions[0]);
    if Next(s, actions[0]).pc[t].Idle? {
      assert actions[1..] == [];
    } else {
      AcquireRun(Next(s, actions[0]), actions[1..], t, call, hold);
    }
  }

  /** Whatever other threads do meanwhile, rdlock, tryrdlock, wrlock and trywrlock tell their caller the truth when they
      return: Success means that its hold has grown by exactly one in the mode asked for, a writer's id being recorded,
      and Error, which only the try forms give, that its hold is what it was before the call. */
  lemma AcquisitionOutcomeIsTrue(ids: seq<nat>, before: seq<Action>, call: Action, during: seq<Action>)
    requires GoodIds(ids) && (call.CallRead? || call.CallWrite?) && MayCall(Exec(Init(ids), before), call)
    requires call.t < |Next(Exec(Init(ids), before), call).pc|
    requires OneCall(Next(Exec(Init(ids), before), call), during, call.t)
    ensures var s, t := Exec(Init(ids), before), call.t;
      var s' := Exec(Next(s, call), during);
      && WellFormed(s') && |s'.pc| == |s.pc| && s'.ids == ids && s'.pc[t].Idle?
      && (if s'.outcome[t] == Success then
            && HoldOf(s', t) == Gained(HoldOf(s, t), call) && HoldOf(s', t) != HoldOf(s, t)
            && (call.CallWrite? ==> s'.writerTid == ids[t])
          else call.attempt && HoldOf(s', t) == HoldOf(s, t))
  {
    ExecInv(Init(ids), before);
    var s := Exec(Init(ids), before);
    NextInv(s, call);
    AcquireRun(Next(s, call), during, call.t, call, HoldOf(s, call.t));
  }

  /** How many holds t has that it has been told of. */
  function Holdings(s: State, t: nat): nat
    requires WellFormed(s) && t < |s.pc|
  {
    s.shared[t] + (if s.exclusive == WrittenBy(t) && !s.pc[t].AtSetWriter? then 1 else 0)
  }

  /** What a returning call of t adds: one for an acquisition that reports Success, none for one that reports Error, and
      one less for an unlock. */
  function ReturnOf(s: State, a: Action, t: nat): int
    requires WellFormed(s) && t < |s.pc|
  {
    if !(a.Step? && a.t == t) || s.pc[t].Idle? || !StepOf(s, t, a.granted).pc[t].Idle? then 0
    else if InUnlock(s.pc[t]) then -1
    else if StepOf(s, t, a.granted).outcome[t] == Success then 1
    else 0
  }

  lemma ReturnStep(s: State, a: Action, t: nat)
    requires Inv(s) && t < |s.pc|
    ensures var s' := Next(s, a);
      WellFormed(s') && |s'.pc| == |s.pc| && Holdings(s', t) == Holdings(s, t) + ReturnOf(s, a, t)
  {
    if a.t != t {
      OthersKeepHold(s, a, t);
    } else {
      assert ThreadInv(s, t);
    }
  }

  /** Acquired minus released, over the returned calls of t. */
  function Balance(s: State, actions: seq<Action>, t: nat): int
    requires Inv(s) && t < |s.pc|
    decreases |actions|
  {
    if actions == [] then 0 else
    NextInv(s, actions[0]);
    ReturnStep(s, actions[0], t);
    ReturnOf(s, actions[0], t) + Balance(Next(s, actions[0]), actions[1..], t)
  }

  lemma {:induction false} BalanceRun(s: State, actions: seq<Action>, t: nat)
    requires Inv(s) && t < |s.pc|
    ensures var s' := Exec(s, actions);
      WellFormed(s') && |s'.pc| == |s.pc| && Holdings(s', t) == Holdings(s, t) + Balance(s, actions, t)
    decreases |actions|
  {
    if actions != [] {
      NextInv(s, actions[0]);
      ReturnStep(s, actions[0], t);
      BalanceRun(Next(s, actions[0]), actions[1..], t);
    }
  }

  /** Holds are exactly what the calls have said: on every run a thread holds the lock, in the two modes together, as
      many times as its acquisitions have returned Success, less its returned unlocks, and nobody holds it at first. */
  lemma HoldsAreAccounted(ids: seq<nat>, actions: seq<Action>, t: nat)
    requires GoodIds(ids) && t < |ids|
    ensures Inv(Init(ids)) && |Init(ids).pc| == |ids|
    ensures var s := Exec(Init(ids), actions);
      WellFormed(s) && |s.pc| == |ids| && Holdings(s, t) == Balance(Init(ids), actions, t)
  {
    BalanceRun(Init(ids), actions, t);
  }

  /** An acquisition that the native lock grants succeeds, from every state of every run: a reader when nobody holds
      exclusively, a writer when nobody holds at all.  A try form that is refused returns at once, and nothing else has
      changed; a blocking form waits. */
  lemma GrantedSucceeds(ids: seq<nat>, before: seq<Action>, call: Action, granted: bool)
    requires GoodIds(ids) && (call.CallRead? || call.CallWrite?) && MayCall(Exec(Init(ids), before), call)
    ensures var s, t := Exec(Init(ids), before), call.t;
      var available := s.exclusive.NoWriter? && (call.CallWrite? ==> NoReaders(s));
      var s' := Exec(s, [call, Step(t, granted), Step(t, granted)]);
      && (granted && available ==>
            if call.CallRead? then
              s' == s.(shared := s.shared[t := s.shared[t] + 1], outcome := s.outcome[t := Success])
            else s' == s.(exclusive := WrittenBy(t), writerTid := s.ids[t], outcome := s.outcome[t := Success]))
      && (!(granted && available) && call.attempt ==> s' == s.(outcome := s.outcome[t := Error]))
      && (!(granted && available) && !call.attempt ==> s' == Next(s, call))
  {
    ExecInv(Init(ids), before);
    var s, t := Exec(Init(ids), before), call.t;
    var step := Step(t, granted);
    var s1 := Next(s, call);
    var s2 := Next(s1, step);
    assert Exec(s2, [step]) == Exec(Next(s2, step), []) == Next(s2, step);
    assert [call, step, step][1..] == [step, step] && [step, step][1..] == [step];
    assert s.pc[t := Idle] == s.pc;
  }

  // ---- The code ----

  class RwLockHandle {
    const ids: seq<nat>
    var shared: seq<nat>
    var exclusive: Writer
    var writerTid: nat
    var pc: seq<Pc>
    var outcome: seq<Outcome>
    ghost var fault: bool

    ghost function View(): State
      reads this
    {
      State(ids, shared, exclusive, writerTid, pc, outcome, fault)
    }

    ghost predicate Valid()
      reads this
    {
      Inv(View())
    }

    /** ccrwlock_create */
    constructor (ids: seq<nat>)
      requires GoodIds(ids)
      ensures View() == Init(ids)
      ensures Valid()
    {
      this.ids := ids;
      exclusive, writerTid, fault := NoWriter, 0, false;
      shared, pc, outcome := seq(|ids|, _ => 0), seq(|ids|, _ => Idle), seq(|ids|, _ => Success);
    }

    /** AcquireSRWLockShared / TryAcquireSRWLockShared */
    method AcquireShared(t: nat, granted: bool)
      requires Valid() && t < |pc| && pc[t].AtAcquireShared?
      modifies this
      ensures View() == Next(old(View()), Step(t, granted))
      ensures Valid()
    {
      NextInv(View(), Step(t, granted));
      if granted && exclusive.NoWriter? {
        shared := shared[t := shared[t] + 1];
        pc, outcome := pc[t := Idle], outcome[t := Success];
      } else if pc[t].attempt {
        pc, outcome := pc[t := Idle], outcome[t := Error];
      }
    }

    /** AcquireSRWLockExclusive / TryAcquireSRWLockExclusive */
    method AcquireExclusive(t: nat, granted: bool)
      requires Valid() && t < |pc| && pc[t].AtAcquireExclusive?
      modifies this
      ensures View() == Next(old(View()), Step(t, granted))
      ensures Valid()
    {
      NextInv(View(), Step(t, granted));
      if granted && exclusive.NoWriter? && NoReaders(State(ids, shared, exclusive, writerTid, pc, outcome, false)) {
        exclusive := WrittenBy(t);
        pc := pc[t := AtSetWriter];
      } else if pc[t].attempt {
        pc, outcome := pc[t := Idle], outcome[t := Error];
      }
    }

    /** rw->writer_tid = ccthread_gettid(NULL) */
    method SetWriter(t: nat)
      requires Valid() && t < |pc| && pc[t].AtSetWriter?
      modifies this
      ensures View() == Next(old(View()), Step(t, true))
      ensures Valid()
    {
      NextInv(View(), Step(t, true));
      writerTid := ids[t];
      pc, outcome := pc[t := Idle], outcome[t := Success];
    }

    /** if (rw->writer_tid && rw->writer_tid == ccthread_gettid(NULL)), one operand at a time */
    method TestWriter(t: nat)
      requires Valid() && t < |pc| && (pc[t].AtWriterTest? || pc[t].AtWriterCompare?)
      modifies this
      ensures View() == Next(old(View()), Step(t, true))
      ensures Valid()
      ensures pc[t].AtReleaseShared? <==> old(shared)[t] > 0
    {
      assert ThreadInv(View(), t);
      NextInv(View(), Step(t, true));
      if pc[t].AtWriterTest? {
        pc := pc[t := if writerTid != 0 then AtWriterCompare else AtReleaseShared];
      } else {
        pc := pc[t := if writerTid == ids[t] then AtClearWriter else AtReleaseShared];
      }
    }

    /** rw->writer_tid = 0 */
    method ClearWriter(t: nat)
      requires Valid() && t < |pc| && pc[t].AtClearWriter?
      modifies this
      ensures View() == Next(old(View()), Step(t, true))
      ensures Valid()
    {
      NextInv(View(), Step(t, true));
      writerTid := 0;
      pc := pc[t := AtReleaseExclusive];
    }

    /** ReleaseSRWLockExclusive, by the thread that holds it exclusively */
    method ReleaseExclusive(t: nat)
      requires Valid() && t < |pc| && pc[t].AtReleaseExclusive?
      modifies this
      ensures View() == Next(old(View()), Step(t, true))
      ensures Valid()
      ensures old(exclusive) == WrittenBy(t)
    {
      assert ThreadInv(View(), t);
      NextInv(View(), Step(t, true));
      exclusive := NoWriter;
      pc, outcome := pc[t := Idle], outcome[t := Success];
    }

    /** ReleaseSRWLockShared, by a thread that holds it in shared mode */
    method ReleaseShared(t: nat)
      requires Valid() && t < |pc| && pc[t].AtReleaseShared?
      modifies this
      ensures View() == Next(old(View()), Step(t, true))
      ensures Valid()
      ensures old(shared)[t] > 0
    {
      assert ThreadInv(View(), t);
      NextInv(View(), Step(t, true));
      shared := shared[t := shared[t] - 1];
      pc, outcome := pc[t := Idle], outcome[t := Success];
    }

    method StepThread(t: nat, granted: bool)
      requires Valid() && t < |pc|
      modifies this
      ensures View() == Next(old(View()), Step(t, granted))
      ensures Valid()
    {
      match pc[t] {
        case Idle =>
        case AtAcquireShared(_) => AcquireShared(t, granted);
        case AtAcquireExclusive(_) => AcquireExclusive(t, granted);
        case AtSetWriter => SetWriter(t);
        case AtWriterTest => TestWriter(t);
        case AtWriterCompare => TestWriter(t);
        case AtClearWriter => ClearWriter(t);
        case AtReleaseExclusive => ReleaseExclusive(t);
        case AtReleaseShared => ReleaseShared(t);
      }
    }

    /** Any interleaving of calls and steps; an unlock by a thread that holds nothing is skipped. */
    method Run(actions: seq<Action>)
      requires Valid()
      modifies this
      ensures View() == Exec(old(View()), actions)
      ensures Valid()
    {
      var i := 0;
      while i < |actions|
        invariant 0 <= i <= |actions|
        invariant Valid() && Exec(View(), actions[i..]) == Exec(old(View()), actions)
      {
        assert actions[i..][1..] == actions[i + 1..];
        var t := actions[i].t;
        NextInv(View(), actions[i]);
        if t < |pc| {
          var idle, holds := pc[t].Idle?, shared[t] > 0 || exclusive == WrittenBy(t);
          match actions[i] {
            case CallRead(_, attempt) => if idle { pc := pc[t := AtAcquireShared(attempt)]; }
            case CallWrite(_, attempt) => if idle { pc := pc[t := AtAcquireExclusive(attempt)]; }
            case CallUnlock(_) => if idle && holds { pc := pc[t := AtWriterTest]; }
            case Step(_, granted) => StepThread(t, granted);
          }
        }
        i := i + 1;
      }
    }
  }
}
