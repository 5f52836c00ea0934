/** The recursive spinlock (ccspinlock.c).

    trylock reads owner_tid without holding the lock.  The field is a relaxed word here: a modification order of
    the ids written to it, of which a thread may read any entry not before what it has already seen, and into which
    a thread may write anywhere after what it has seen.  The flag is exchanged with acquire and cleared with
    release, so it also hands over how far in that order the last holder had got.  It has a modification order of
    its own, into which a write may go anywhere after what its thread has seen, but never between an exchange and the
    write that the exchange read: an exchange may miss a release that has already happened.  recursion, which only
    the holder touches, is ordinary memory. */
module SpinLock {
  import opened Memory
  import Threads

  const INT_MAX := 0x7fff_ffff

  /** The atomic specification: free, or held by one thread to some depth. */
  datatype Lock = Free | Held(owner: nat, depth: nat)

  datatype Pc =
    | Idle
    | AtOwner(retry: bool)                     // spin->owner_tid, tested against 0
    | AtOwnerAgain(retry: bool)                // spin->owner_tid, compared with the caller's id
    | AtDeeper                                 // spin->recursion++, its read
    | AtDeeperWrite(value: nat)                // spin->recursion++, its write
    | AtExchange(retry: bool)
    | AtSetOwner
    | AtSetRecursion
    | AtDepthTest                              // unlock: spin->recursion > 1
    | AtShallower                              // spin->recursion--, its read
    | AtShallowerWrite(value: nat)
    | AtClearOwner
    | AtClearRecursion
    | AtClearFlag

  datatype Outcome = Success | Busy

  /** A write to the flag.  It hands over a position in the order of owner_tid: a release the releaser's own, an
      exchange that of the write it read.  `tenant` is the thread whose tenure of the lock it belongs to. */
  datatype FlagWrite = FlagWrite(value: nat, handed: nat, tenant: nat, exchanged: bool)

  /** `flag` and `order` are the modification orders of flag and owner_tid, `seenFlag` and `seen` the positions the
      threads have reached in them; `lock` is the atomic lock the steps refine. */
  datatype State = State(
    ids: seq<nat>, flag: seq<FlagWrite>, seenFlag: seq<nat>, order: seq<nat>, seen: seq<nat>, recursion: nat,
    pc: seq<Pc>, outcome: seq<Outcome>, lock: Lock)

  datatype Action =
    | CallLock(t: nat)
    | CallTryLock(t: nat)
    | CallUnlock(t: nat)
    | Step(t: nat, at: nat)     // an access to owner_tid or flag uses position `at` of its modification order

  /** The type asked for at creation. */
  datatype Recursion = Plain | Recursive

  /** ccspinlock_create: the type is dropped. */
  function Create(type_: Recursion, ids: seq<nat>): State
  {
    Init(ids)
  }

  function Init(ids: seq<nat>): State
  {
    State(ids, [FlagWrite(0, 0, 0, false)], seq(|ids|, _ => 0), [0], seq(|ids|, _ => 0), 0,
          seq(|ids|, _ => Idle), seq(|ids|, _ => Success), Free)
  }

  predicate WellFormed(s: State)
  {
    |s.pc| == |s.ids| && |s.seen| == |s.ids| && |s.seenFlag| == |s.ids| && |s.outcome| == |s.ids|
  }

  predicate Holds(s: State, t: nat)
  {
    s.lock.Held? && s.lock.owner == t
  }

  predicate CanRead(s: State, t: nat, at: nat)
    requires WellFormed(s) && t < |s.pc|
  {
    s.seen[t] <= at < |s.order|
  }

  function WriteOwner(s: State, t: nat, at: nat, id: nat, p: Pc): State
    requires WellFormed(s) && t < |s.pc|
  {
    if s.seen[t] < at <= |s.order| then
      s.(order := Insert(s.order, at, id), seen := Shift(s.seen, at, t), pc := s.pc[t := p])
    else s
  }

  /** A write of t to the flag may be placed at this position. */
  predicate CanWriteFlag(s: State, t: nat, at: nat)
    requires WellFormed(s) && t < |s.pc|
  {
    s.seenFlag[t] < at <= |s.flag| && (at < |s.flag| ==> !s.flag[at].exchanged)
  }

  function Exchange(s: State, t: nat, at: nat, retry: bool): State
    requires WellFormed(s) && t < |s.pc|
  {
    if !CanWriteFlag(s, t, at) then s else
    var m := s.flag[at - 1];
    var joined := s.(flag := Insert(s.flag, at, FlagWrite(1, m.handed, if m.value == 0 then t else m.tenant, true)),
                     seenFlag := Shift(s.seenFlag, at, t), seen := s.seen[t := Max(s.seen[t], m.handed)]);
    if m.value == 0 then joined.(pc := s.pc[t := AtSetOwner])
    else if retry then joined.(pc := s.pc[t := AtOwner(true)])
    else joined.(pc := s.pc[t := Idle], outcome := s.outcome[t := Busy])
  }

  function ClearFlag(s: State, t: nat, at: nat): State
    requires WellFormed(s) && t < |s.pc|
  {
    if !CanWriteFlag(s, t, at) then s else
    s.(flag := Insert(s.flag, at, FlagWrite(0, s.seen[t], t, false)), seenFlag := Shift(s.seenFlag, at, t),
       pc := s.pc[t := Idle], outcome := s.outcome[t := Success])
  }

  // ---- The atomic lock ----

  datatype Event = Acquire(t: nat) | Reenter(t: nat) | Release(t: nat) | Silent

  predicate Allowed(l: Lock, e: Event)
  {
    match e
    case Acquire(_) => l == Free
    case Reenter(t) => l.Held? && l.owner == t && l.depth < INT_MAX
    case Release(t) => l.Held? && l.owner == t && l.depth > 0
    case Silent => true
  }

  function Applied(l: Lock, e: Event): Lock
  {
    match e
    case Acquire(t) => Held(t, 1)
    case Reenter(_) => if l.Held? then Held(l.owner, l.depth + 1) else l
    case Release(_) => if l.Held? && l.depth > 1 then Held(l.owner, l.depth - 1) else Free
    case Silent => l
  }

  /** Where each step takes effect on the atomic lock. */
  function EventOf(s: State, a: Action): Event
  {
    if a.Step? && WellFormed(s) && a.t < |s.pc| then
      match s.pc[a.t]
      case AtExchange(_) =>
        if CanWriteFlag(s, a.t, a.at) && s.flag[a.at - 1].value == 0 then Acquire(a.t) else Silent
      case AtDeeperWrite(_) => Reenter(a.t)
      case AtShallowerWrite(_) => Release(a.t)
      case AtClearFlag => if CanWriteFlag(s, a.t, a.at) then Release(a.t) else Silent
      case _ => Silent
    else Silent
  }

  // ---- The steps of the code ----

  function StepOf(s: State, t: nat, at: nat): State
    requires WellFormed(s) && t < |s.pc|
  {
    match s.pc[t]
    case AtOwner(retry) =>
      if !CanRead(s, t, at) then s
      else s.(seen := s.seen[t := at],
              pc := s.pc[t := if s.order[at] != 0 then AtOwnerAgain(retry) else AtExchange(retry)])
    case AtOwnerAgain(retry) =>
      if !CanRead(s, t, at) then s
      else s.(seen := s.seen[t := at],
              pc := s.pc[t := if s.order[at] == s.ids[t] then AtDeeper else AtExchange(retry)])
    case AtDeeper => s.(pc := s.pc[t := AtDeeperWrite(s.recursion)])
    case AtDeeperWrite(value) =>
      s.(recursion := value + 1, pc := s.pc[t := Idle], outcome := s.outcome[t := Success])
    case AtExchange(retry) => Exchange(s, t, at, retry)
    case AtSetOwner => WriteOwner(s, t, at, s.ids[t], AtSetRecursion)
    case AtSetRecursion => s.(recursion := 1, pc := s.pc[t := Idle], outcome := s.outcome[t := Success])
    case AtDepthTest => s.(pc := s.pc[t := if s.recursion > 1 then AtShallower else AtClearOwner])
    case AtShallower => s.(pc := s.pc[t := AtShallowerWrite(s.recursion)])
    case AtShallowerWrite(value) =>
      s.(recursion := if value > 0 then value - 1 else 0, pc := s.pc[t := Idle], outcome := s.outcome[t := Success])
    case AtClearOwner => WriteOwner(s, t, at, 0, AtClearRecursion)
    case AtClearRecursion => s.(recursion := 0, pc := s.pc[t := AtClearFlag])
    case AtClearFlag => ClearFlag(s, t, at)
    case Idle => s
  }

  /** Callers unlock only what they hold, and do not nest deeper than an int can count. */
  predicate MayCall(s: State, a: Action)
  {
    && WellFormed(s) && a.t < |s.pc| && s.pc[a.t].Idle?
    && (a.CallUnlock? ==> Holds(s, a.t))
    && (Holds(s, a.t) && !a.CallUnlock? ==> s.lock.depth < INT_MAX)
  }

  function Next(s: State, a: Action): State
  {
    match a
    case CallLock(t) => if MayCall(s, a) then s.(pc := s.pc[t := AtOwner(true)]) else s
    case CallTryLock(t) => if MayCall(s, a) then s.(pc := s.pc[t := AtOwner(false)]) else s
    case CallUnlock(t) => if MayCall(s, a) then s.(pc := s.pc[t := AtDepthTest]) else s
    case Step(t, at) =>
      if WellFormed(s) && t < |s.pc| then StepOf(s, t, at).(lock := Applied(s.lock, EventOf(s, a))) else s
  }

  lemma StepMovesOne(s: State, t: nat, at: nat)
    requires WellFormed(s) && t < |s.pc|
    ensures var s' := StepOf(s, t, at);
      s'.ids == s.ids && s'.pc == s.pc[t := s'.pc[t]]
  {
  }

  /** An action moves at most its own thread. */
  lemma MovesOne(s: State, a: Action)
    ensures |Next(s, a).pc| == |s.pc| && Next(s, a).ids == s.ids
    ensures forall u :: 0 <= u < |s.pc| && u != a.t ==> Next(s, a).pc[u] == s.pc[u]
  {
    if a.Step? && WellFormed(s) && a.t < |s.pc| {
      StepMovesOne(s, a.t, a.at);
    }
  }

  function Exec(s: State, actions: seq<Action>): State
    decreases |actions|
  {
    if actions == [] then s else Exec(Next(s, actions[0]), actions[1..])
  }

  // ---- The invariant ----

  function Latest(s: State): nat
    requires s.order != []
  {
    s.order[|s.order| - 1]
  }

  /** What the latest write left in the flag. */
  function FlagValue(s: State): nat
    requires s.flag != []
  {
    s.flag[|s.flag| - 1].value
  }

  /** What the holder's position in the code says about the cells; d is the depth of the atomic lock. */
  ghost predicate HolderInv(s: State, t: nat, d: nat)
    requires WellFormed(s) && t < |s.pc| && s.order != []
  {
    && 1 <= d <= INT_MAX
    && s.seen[t] == |s.order| - 1
    && match s.pc[t]
       case AtExchange(_) => false
       case AtSetOwner => d == 1
       case AtSetRecursion => d == 1 && Latest(s) == s.ids[t]
       case AtClearRecursion => d == 1 && Latest(s) == 0
       case AtClearFlag => d == 1 && Latest(s) == 0 && s.recursion == 0
       case AtClearOwner => d == 1 && Latest(s) == s.ids[t] && s.recursion == d
       case AtShallower => d > 1 && Latest(s) == s.ids[t] && s.recursion == d
       case AtShallowerWrite(value) => d > 1 && Latest(s) == s.ids[t] && s.recursion == d == value
       case AtDeeperWrite(value) => d < INT_MAX && Latest(s) == s.ids[t] && s.recursion == d == value
       case Idle => Latest(s) == s.ids[t] && s.recursion == d
       case AtDepthTest => Latest(s) == s.ids[t] && s.recursion == d
       case _ => d < INT_MAX && Latest(s) == s.ids[t] && s.recursion == d
  }

  /** A thread without the lock is outside the owner's code and can no longer read its own id. */
  ghost predicate OtherInv(s: State, t: nat)
    requires WellFormed(s) && t < |s.pc|
  {
    && (s.pc[t].Idle? || s.pc[t].AtOwner? || s.pc[t].AtOwnerAgain? || s.pc[t].AtExchange?)
    && forall k :: s.seen[t] <= k < |s.order| ==> s.order[k] != s.ids[t]
  }

  ghost predicate ThreadInv(s: State, t: nat)
    requires WellFormed(s) && t < |s.pc| && s.order != []
  {
    && s.seen[t] < |s.order|
    && if Holds(s, t) then HolderInv(s, t, s.lock.depth) else OtherInv(s, t)
  }

  /** The modification order of the flag: 1s written by exchanges and 0s written by releases, each 0 after a 1. */
  ghost predicate FlagOrder(flag: seq<FlagWrite>, length: nat)
  {
    && flag != [] && flag[0].value == 0
    && (forall k :: 0 <= k < |flag| ==> flag[k].value <= 1 && flag[k].handed < length)
    && (forall k :: 0 < k < |flag| ==> (flag[k].exchanged <==> flag[k].value == 1))
    && (forall k :: 0 < k < |flag| && !flag[k].exchanged ==> flag[k - 1].value == 1)
  }

  /** What thread t, having seen the flag up to a position, may still find behind it: the holder only exchanges of
      others, and a thread without the lock nothing of its own tenures. */
  ghost predicate FlagAhead(flag: seq<FlagWrite>, position: nat, t: nat, holds: bool)
  {
    && position < |flag|
    && (holds ==> forall k :: position < k < |flag| ==> flag[k].exchanged)
    && (!holds ==> forall k :: position <= k < |flag| && flag[k].value == 1 ==> flag[k].tenant != t)
  }

  ghost predicate FlagInv(s: State)
    requires WellFormed(s)
  {
    && FlagOrder(s.flag, |s.order|)
    && FlagValue(s) == (if s.lock.Free? then 0 else 1)
    && (s.lock.Free? ==> s.flag[|s.flag| - 1].handed == |s.order| - 1)
    && forall t :: 0 <= t < |s.pc| ==> FlagAhead(s.flag, s.seenFlag[t], t, Holds(s, t))
  }

  ghost predicate Inv(s: State)
  {
    && WellFormed(s) && Threads.GoodIds(s.ids)
    && s.order != [] && FlagInv(s)
    && (s.lock.Free? ==> s.recursion == 0 && Latest(s) == 0)
    && (s.lock.Held? ==> s.lock.owner < |s.pc|)
    && forall t :: 0 <= t < |s.pc| ==> ThreadInv(s, t)
  }

  lemma InitInv(ids: seq<nat>)
    requires Threads.GoodIds(ids)
    ensures Inv(Init(ids))
  {
  }

  /** The holder's write of owner_tid has only one place to go, because the flag handed it the whole order. */
  lemma OwnerWriteGoesLast(s: State, t: nat, at: nat)
    requires Inv(s) && t < |s.pc| && Holds(s, t) && s.seen[t] < at <= |s.order|
    ensures at == |s.order|
  {
    assert ThreadInv(s, t);
  }

  lemma WriteInv(s: State, t: nat, at: nat)
    requires Inv(s) && t < |s.pc| && (s.pc[t].AtSetOwner? || s.pc[t].AtClearOwner?)
    ensures Inv(Next(s, Step(t, at)))
  {
    assert ThreadInv(s, t);
    if s.seen[t] < at <= |s.order| {
      OwnerWriteGoesLast(s, t, at);
      var s' := Next(s, Step(t, at));
      InsertKeeps(s.order, at, s'.order[at]);
      forall u | 0 <= u < |s.pc|
        ensures ThreadInv(s', u)
      {
        assert ThreadInv(s, u);
      }
    }
  }

  /** Likewise its release. */
  lemma ReleaseGoesLast(s: State, t: nat, at: nat)
    requires Inv(s) && t < |s.pc| && Holds(s, t) && CanWriteFlag(s, t, at)
    ensures at == |s.flag|
  {
    assert FlagAhead(s.flag, s.seenFlag[t], t, true);
  }

  /** An exchange that reads a 0 goes last and finds the lock free; one that is placed before a release has read a 1
      of somebody else's tenure. */
  lemma ExchangeReads(s: State, t: nat, at: nat)
    requires Inv(s) && t < |s.pc| && !Holds(s, t) && CanWriteFlag(s, t, at)
    ensures s.flag[at - 1].value == 0 <==> s.lock.Free? && at == |s.flag|
    ensures s.flag[at - 1].value == 1 ==> s.flag[at - 1].tenant != t
  {
    assert FlagAhead(s.flag, s.seenFlag[t], t, false);
  }

  /** A step that leaves the order of owner_tid alone, and the lock and recursion too unless they are t's to
      change, keeps the invariant if it keeps the flag's part of it and t's own. */
  lemma MoveInv(s: State, s': State, t: nat)
    requires Inv(s) && WellFormed(s') && t < |s.pc|
    requires s'.ids == s.ids && s'.order == s.order
    requires s'.pc == s.pc[t := s'.pc[t]] && s'.seen == s.seen[t := s'.seen[t]]
    requires ThreadInv(s', t)
    requires FlagInv(s')
    requires s'.lock.Free? ==> s'.recursion == 0 && Latest(s) == 0
    requires (s'.lock == s.lock && s'.recursion == s.recursion)
          || ((s.lock.Held? ==> s.lock.owner == t) && (s'.lock.Held? ==> s'.lock.owner == t))
    ensures Inv(s')
  {
    forall u | 0 <= u < |s.pc|
      ensures ThreadInv(s', u)
    {
      assert ThreadInv(s, u);
    }
  }

  /** A write that enters the flag's order leaves what another thread u may still find behind its position. */
  lemma WriteAhead(flag: seq<FlagWrite>, position: nat, at: nat, m: FlagWrite, u: nat, holds: bool)
    requires FlagAhead(flag, position, u, holds) && 0 < at <= |flag|
    requires holds ==> m.exchanged
    requires !holds && m.value == 1 ==> m.tenant != u || (flag[at - 1].value == 1 && m.tenant == flag[at - 1].tenant)
    ensures FlagAhead(Insert(flag, at, m), if position >= at then position + 1 else position, u, holds)
  {
    InsertKeeps(flag, at, m);
  }

  lemma ExchangeOrder(flag: seq<FlagWrite>, length: nat, at: nat, m: FlagWrite)
    requires FlagOrder(flag, length) && 0 < at <= |flag| && (at < |flag| ==> !flag[at].exchanged)
    requires m.value == 1 && m.exchanged && m.handed < length
    ensures FlagOrder(Insert(flag, at, m), length)
  {
    InsertKeeps(flag, at, m);
  }

  /** The same for the exchanging thread t itself, which now holds the lock exactly if it read a 0. */
  lemma ExchangerAhead(flag: seq<FlagWrite>, position: nat, at: nat, m: FlagWrite, t: nat)
    requires FlagAhead(flag, position, t, false) && position < at <= |flag|
    requires flag[at - 1].value == 0 ==> at == |flag|
    requires m.tenant == if flag[at - 1].value == 0 then t else flag[at - 1].tenant
    requires flag[at - 1].value <= 1
    ensures FlagAhead(Insert(flag, at, m), at, t, flag[at - 1].value == 0)
  {
    InsertKeeps(flag, at, m);
  }

  lemma ExchangeStep(s: State, t: nat, at: nat)
    requires WellFormed(s) && t < |s.pc| && s.pc[t].AtExchange? && CanWriteFlag(s, t, at)
    ensures var s', m := Next(s, Step(t, at)), s.flag[at - 1];
      && s' == Exchange(s, t, at, s.pc[t].retry).(lock := if m.value == 0 then Held(t, 1) else s.lock)
      && s'.flag == Insert(s.flag, at, FlagWrite(1, m.handed, if m.value == 0 then t else m.tenant, true))
      && s'.seenFlag == Shift(s.seenFlag, at, t) && s'.order == s.order && WellFormed(s')
  {
  }

  lemma ExchangeKeepsFlag(s: State, t: nat, at: nat)
    requires Inv(s) && t < |s.pc| && s.pc[t].AtExchange? && CanWriteFlag(s, t, at)
    ensures FlagInv(Next(s, Step(t, at)))
  {
    assert !Holds(s, t) && FlagAhead(s.flag, s.seenFlag[t], t, false) by {
      assert ThreadInv(s, t);
    }
    ExchangeReads(s, t, at);
    ExchangeStep(s, t, at);
    var s' := Next(s, Step(t, at));
    var m := s'.flag[at];
    ExchangeOrder(s.flag, |s.order|, at, m);
    forall u | 0 <= u < |s.pc|
      ensures FlagAhead(s'.flag, s'.seenFlag[u], u, Holds(s', u))
    {
      if u != t {
        WriteAhead(s.flag, s.seenFlag[u], at, m, u, Holds(s, u));
      } else {
        ExchangerAhead(s.flag, s.seenFlag[t], at, m, t);
      }
    }
  }

  lemma ExchangeInv(s: State, t: nat, at: nat)
    requires Inv(s) && t < |s.pc| && s.pc[t].AtExchange? && CanWriteFlag(s, t, at)
    ensures Inv(Next(s, Step(t, at)))
  {
    assert ThreadInv(s, t);
    ExchangeReads(s, t, at);
    ExchangeKeepsFlag(s, t, at);
    MoveInv(s, Next(s, Step(t, at)), t);
  }

  lemma ReleaseInv(s: State, t: nat, at: nat)
    requires Inv(s) && t < |s.pc| && s.pc[t].AtClearFlag? && CanWriteFlag(s, t, at)
    ensures Inv(Next(s, Step(t, at)))
  {
    assert ThreadInv(s, t);
    ReleaseGoesLast(s, t, at);
    var s' := Next(s, Step(t, at));
    InsertKeeps(s.flag, at, s'.flag[at]);
    forall u | 0 <= u < |s.pc|
      ensures FlagAhead(s'.flag, s'.seenFlag[u], u, Holds(s', u))
    {
      if u != t {
        WriteAhead(s.flag, s.seenFlag[u], at, s'.flag[at], u, false);
      }
    }
    MoveInv(s, s', t);
  }

  /** A step that touches neither the flag's order nor the lock's owner keeps the flag's part of the invariant. */
  lemma FlagUnmoved(s: State, s': State)
    requires Inv(s) && WellFormed(s') && s'.ids == s.ids && s'.order == s.order
    requires s'.flag == s.flag && s'.seenFlag == s.seenFlag
    requires s'.lock == s.lock || (s'.lock.Held? && s.lock.Held? && s'.lock.owner == s.lock.owner)
    ensures FlagInv(s')
  {
    forall u | 0 <= u < |s.pc|
      ensures FlagAhead(s'.flag, s'.seenFlag[u], u, Holds(s', u))
    {
      assert FlagAhead(s.flag, s.seenFlag[u], u, Holds(s, u));
    }
  }

  /** The owner check, by whoever is there. */
  lemma OwnerCheckInv(s: State, t: nat, at: nat)
    requires Inv(s) && t < |s.pc| && (s.pc[t].AtOwner? || s.pc[t].AtOwnerAgain?)
    ensures Inv(Next(s, Step(t, at)))
  {
    assert ThreadInv(s, t);
    FlagUnmoved(s, Next(s, Step(t, at)));
    MoveInv(s, Next(s, Step(t, at)), t);
  }

  /** The holder's steps other than its writes of owner_tid and flag. */
  lemma HolderStepInv(s: State, t: nat, at: nat)
    requires Inv(s) && t < |s.pc| && !s.pc[t].AtSetOwner? && !s.pc[t].AtClearOwner? && !s.pc[t].AtClearFlag?
    requires !s.pc[t].AtOwner? && !s.pc[t].AtOwnerAgain? && !s.pc[t].AtExchange?
    ensures Inv(Next(s, Step(t, at)))
  {
    HolderKeepsOwn(s, t, at);
    FlagUnmoved(s, Next(s, Step(t, at)));
    MoveInv(s, Next(s, Step(t, at)), t);
  }

  lemma HolderKeepsOwn(s: State, t: nat, at: nat)
    requires Inv(s) && t < |s.pc| && !s.pc[t].AtSetOwner? && !s.pc[t].AtClearOwner? && !s.pc[t].AtClearFlag?
    requires !s.pc[t].AtOwner? && !s.pc[t].AtOwnerAgain? && !s.pc[t].AtExchange?
    ensures var s' := Next(s, Step(t, at));
      && s' == s.(pc := s.pc[t := s'.pc[t]], outcome := s'.outcome, recursion := s'.recursion, lock := s'.lock)
      && WellFormed(s') && ThreadInv(s', t) && (s' == s || Holds(s, t))
      && (s'.lock == s.lock || (Holds(s, t) && Holds(s', t)))
  {
    assert ThreadInv(s, t);
  }

  lemma CallInv(s: State, a: Action)
    requires Inv(s) && !a.Step?
    ensures Inv(Next(s, a))
  {
    forall u | 0 <= u < |s.pc|
      ensures ThreadInv(Next(s, a), u)
    {
      assert ThreadInv(s, u);
    }
  }

  lemma NextInv(s: State, a: Action)
    requires Inv(s)
    ensures Inv(Next(s, a))
  {
    match a
    case Step(t, at) =>
      if t < |s.pc| {
        var p := s.pc[t];
        if p.AtSetOwner? || p.AtClearOwner? {
          WriteInv(s, t, at);
        } else if p.AtOwner? || p.AtOwnerAgain? {
          OwnerCheckInv(s, t, at);
        } else if p.AtExchange? && CanWriteFlag(s, t, at) {
          ExchangeInv(s, t, at);
        } else if p.AtClearFlag? && CanWriteFlag(s, t, at) {
          ReleaseInv(s, t, at);
        } else if !p.AtExchange? && !p.AtClearFlag? {
          HolderStepInv(s, t, at);
        }
      }
    case CallLock(t) => CallInv(s, a);
    case CallTryLock(t) => CallInv(s, a);
    case CallUnlock(t) => CallInv(s, a);
  }

  lemma {:induction false} ExecInv(s: State, actions: seq<Action>)
    requires Inv(s)
    ensures Inv(Exec(s, actions)) && Exec(s, actions).ids == s.ids
    decreases |actions|
  {
    if actions != [] {
      NextInv(s, actions[0]);
      MovesOne(s, actions[0]);
      ExecInv(Next(s, actions[0]), actions[1..]);
    }
  }

  /** Only t itself gets the lock for t or gives it up. */
  lemma OthersKeepLock(s: State, a: Action)
    requires Inv(s)
    ensures forall u :: u != a.t ==> (Holds(s, u) <==> Holds(Next(s, a), u))
    ensures s.lock.Held? && s.lock.owner != a.t ==> Next(s, a).lock == s.lock
  {
    if a.Step? && a.t < |s.pc| {
      assert ThreadInv(s, a.t);
      assert Next(s, a).lock == Applied(s.lock, EventOf(s, a));
      if s.pc[a.t].AtExchange? && CanWriteFlag(s, a.t, a.at) {
        ExchangeReads(s, a.t, a.at);
      }
    }
  }

  // ---- The unlocked owner check ----

  lemma CheckReads(s: State, t: nat, at: nat)
    requires Inv(s) && t < |s.pc| && (s.pc[t].AtOwner? || s.pc[t].AtOwnerAgain?) && CanRead(s, t, at)
    ensures s.order[at] == s.ids[t] <==> Holds(s, t)
  {
    assert ThreadInv(s, t);
  }

  /** Exact although unlocked and possibly stale: whatever entry the check reads, it is the caller's own id exactly
      when the caller holds the lock. */
  lemma OwnerCheckExact(ids: seq<nat>, actions: seq<Action>, t: nat, at: nat)
    requires Threads.GoodIds(ids) && t < |ids|
    ensures var s := Exec(Init(ids), actions);
      && WellFormed(s) && s.ids == ids
      && ((s.pc[t].AtOwner? || s.pc[t].AtOwnerAgain?) && CanRead(s, t, at) ==> (s.order[at] == ids[t] <==> Holds(s, t)))
  {
    InitInv(ids);
    ExecInv(Init(ids), actions);
    var s := Exec(Init(ids), actions);
    if (s.pc[t].AtOwner? || s.pc[t].AtOwnerAgain?) && CanRead(s, t, at) {
      CheckReads(s, t, at);
    }
  }

  /** Inside ccspinlock_lock or ccspinlock_trylock. */
  predicate Acquiring(p: Pc)
  {
    p.AtOwner? || p.AtOwnerAgain? || p.AtDeeper? || p.AtDeeperWrite? || p.AtExchange? || p.AtSetOwner?
    || p.AtSetRecursion?
  }

  /** Action a ends a call of t. */
  predicate Returns(s: State, a: Action, t: nat)
  {
    a.Step? && a.t == t && WellFormed(s) && t < |s.pc| && !s.pc[t].Idle? && StepOf(s, t, a.at).pc[t].Idle?
  }

  /** So a trylock reports Busy exactly when its exchange lands in another thread's tenure: one that goes on, unless
      the exchange is placed before a release that it has missed; and Busy is reported at no other step.  It acquires
      exactly when it goes last and the lock is free.  The holder itself never gets that far. */
  lemma BusyMeansHeldByAnother(ids: seq<nat>, actions: seq<Action>, t: nat, at: nat)
    requires Threads.GoodIds(ids) && t < |ids|
    ensures var s := Exec(Init(ids), actions);
      && WellFormed(s) && s.ids == ids
      && (Returns(s, Step(t, at), t) && StepOf(s, t, at).outcome[t] == Busy && Acquiring(s.pc[t]) ==>
            s.pc[t] == AtExchange(false) && CanWriteFlag(s, t, at))
      && (s.pc[t].AtExchange? ==> !Holds(s, t) && CanWriteFlag(s, t, |s.flag|))
      && (s.pc[t] == AtExchange(false) && CanWriteFlag(s, t, at) ==>
            var s' := Next(s, Step(t, at));
            && (s'.pc[t].Idle? <==> s.flag[at - 1].value == 1)
            && (s'.pc[t].Idle? ==> s'.outcome[t] == Busy && s.flag[at - 1].tenant != t)
            && (s'.pc[t].AtSetOwner? <==> s.lock.Free? && at == |s.flag|)
            && (s'.pc[t].AtSetOwner? ==> s'.lock == Held(t, 1))
            && (at == |s.flag| ==> (s'.pc[t].Idle? <==> s.lock.Held? && s.lock.owner != t))
            && (at < |s.flag| ==> s.flag[at].value == 0))
  {
    InitInv(ids);
    ExecInv(Init(ids), actions);
    var s := Exec(Init(ids), actions);
    assert ThreadInv(s, t);
    if s.pc[t].AtExchange? && CanWriteFlag(s, t, at) {
      ExchangeReads(s, t, at);
    }
  }

  /** What t's calls of lock and trylock report during the run, in order. */
  function Outcomes(s: State, actions: seq<Action>, t: nat): seq<Outcome>
    decreases |actions|
  {
    if actions == [] then [] else
    (if Returns(s, actions[0], t) && Acquiring(s.pc[t]) then [StepOf(s, t, actions[0].at).outcome[t]] else [])
    + Outcomes(Next(s, actions[0]), actions[1..], t)
  }

  /** The holder's way through lock and trylock. */
  predicate Reentering(s: State, t: nat)
  {
    && Holds(s, t) && WellFormed(s) && t < |s.pc|
    && (s.pc[t].AtOwner? || s.pc[t].AtOwnerAgain? || s.pc[t].AtDeeper? || s.pc[t].AtDeeperWrite?)
  }

  lemma ReenteringStep(s: State, a: Action, t: nat)
    requires Inv(s) && Reentering(s, t)
    ensures Reentering(Next(s, a), t) || (Returns(s, a, t) && StepOf(s, t, a.at).outcome[t] == Success)
    ensures Returns(s, a, t) ==> StepOf(s, t, a.at).outcome[t] == Success
  {
    if a.t != t {
      MovesOne(s, a);
      OthersKeepLock(s, a);
    } else {
      assert ThreadInv(s, t);
    }
  }

  lemma {:induction false} ReenteringSucceeds(s: State, actions: seq<Action>, t: nat)
    requires Inv(s) && Reentering(s, t)
    ensures Outcomes(s, actions, t) == [] || Outcomes(s, actions, t)[0] == Success
    decreases |actions|
  {
    if actions != [] {
      NextInv(s, actions[0]);
      ReenteringStep(s, actions[0], t);
      if !Returns(s, actions[0], t) {
        ReenteringSucceeds(Next(s, actions[0]), actions[1..], t);
      }
    }
  }

  /** A trylock begun by the holder reports Success, whatever type the lock was created with and however the other
      threads interleave. */
  lemma HolderTrylockSucceeds(type_: Recursion, ids: seq<nat>, before: seq<Action>, rest: seq<Action>, t: nat)
    requires Threads.GoodIds(ids) && Holds(Exec(Create(type_, ids), before), t)
    requires MayCall(Exec(Create(type_, ids), before), CallTryLock(t))
    ensures var outcomes := Outcomes(Next(Exec(Create(type_, ids), before), CallTryLock(t)), rest, t);
      outcomes == [] || outcomes[0] == Success
  {
    InitInv(ids);
    ExecInv(Init(ids), before);
    var s := Exec(Init(ids), before);
    NextInv(s, CallTryLock(t));
    ReenteringSucceeds(Next(s, CallTryLock(t)), rest, t);
  }

  /** The documentation has trylock fail on a lock that is held, and PLAIN mode ignore the owner.  The thread with
      id 7 locks a plain lock and tries again: both succeed, and the depth is 2. */
  lemma PlainLockReenters()
    ensures var locked := [CallLock(0), Step(0, 0), Step(0, 1), Step(0, 1), Step(0, 0)];
      var again := [CallTryLock(0), Step(0, 1), Step(0, 1), Step(0, 0), Step(0, 0)];
      var s := Exec(Exec(Create(Plain, [7]), locked), again);
      s.lock == Held(0, 2) && s.recursion == 2 && s.outcome == [Success] && s.pc == [Idle]
  {
    FirstLock();
    SecondTryLock();
  }

  const LOCKED_ONCE := State([7], [FlagWrite(0, 0, 0, false), FlagWrite(1, 0, 0, true)], [1], [0, 7], [1], 1,
                             [Idle], [Success], Held(0, 1))

  lemma FiveSteps(s: State, a: Action, b: Action, c: Action, d: Action, e: Action)
    ensures Exec(s, [a, b, c, d, e]) == Next(Next(Next(Next(Next(s, a), b), c), d), e)
  {
    var s1 := Next(s, a);
    var s2 := Next(s1, b);
    var s3 := Next(s2, c);
    assert Exec(s3, [d, e]) == Exec(Next(s3, d), [e]) == Next(Next(s3, d), e);
    assert [c, d, e][1..] == [d, e] && Exec(s2, [c, d, e]) == Exec(s3, [d, e]);
    assert [b, c, d, e][1..] == [c, d, e] && Exec(s1, [b, c, d, e]) == Exec(s2, [c, d, e]);
    assert [a, b, c, d, e][1..] == [b, c, d, e];
  }

  /** A lone lock call on a fresh lock, in general and then for thread 0. */
  lemma FreshLock(ids: seq<nat>)
    requires |ids| > 0
    ensures var s := Init(ids);
      var s2 := Next(Next(s, CallLock(0)), Step(0, 0));
      && s2 == s.(pc := s.pc[0 := AtExchange(true)])
      && Next(s2, Step(0, 1)) == s.(flag := [FlagWrite(0, 0, 0, false), FlagWrite(1, 0, 0, true)],
                                    seenFlag := s.seenFlag[0 := 1], pc := s.pc[0 := AtSetOwner], lock := Held(0, 1))
  {
    var s := Init(ids);
    var s1 := Next(s, CallLock(0));
    assert s1 == s.(pc := s.pc[0 := AtOwner(true)]);
    var s2 := Next(s1, Step(0, 0));
    assert s2.seen == s.seen;
    var s3 := Next(s2, Step(0, 1));
    assert s3.seenFlag == s.seenFlag[0 := 1] && s3.seen == s.seen;
  }

  lemma FirstLock()
    ensures Exec(Init([7]), [CallLock(0), Step(0, 0), Step(0, 1), Step(0, 1), Step(0, 0)]) == LOCKED_ONCE
  {
    var s := Init([7]);
    FreshLock([7]);
    var s3 := Next(Next(Next(s, CallLock(0)), Step(0, 0)), Step(0, 1));
    assert s3 == s.(flag := LOCKED_ONCE.flag, seenFlag := [1], pc := [AtSetOwner], lock := Held(0, 1));
    var s4 := Next(s3, Step(0, 1));
    assert s4 == s3.(order := [0, 7], seen := [1], pc := [AtSetRecursion]);
    FiveSteps(s, CallLock(0), Step(0, 0), Step(0, 1), Step(0, 1), Step(0, 0));
  }

  lemma SecondTryLock()
    ensures Exec(LOCKED_ONCE, [CallTryLock(0), Step(0, 1), Step(0, 1), Step(0, 0), Step(0, 0)])
         == LOCKED_ONCE.(recursion := 2, lock := Held(0, 2))
  {
    var s2 := Next(Next(LOCKED_ONCE, CallTryLock(0)), Step(0, 1));
    assert s2 == LOCKED_ONCE.(pc := [AtOwnerAgain(false)]);
    var s3 := Next(s2, Step(0, 1));
    assert s3 == LOCKED_ONCE.(pc := [AtDeeper]);
    FiveSteps(LOCKED_ONCE, CallTryLock(0), Step(0, 1), Step(0, 1), Step(0, 0), Step(0, 0));
  }

  /** With no order but acquire and release, a trylock can miss a release: thread 0 has locked and unlocked, nobody
      holds the lock, and thread 1 is told Busy. */
  lemma TrylockMissesRelease()
    ensures var locked := [CallLock(0), Step(0, 0), Step(0, 1), Step(0, 1), Step(0, 0)];
      var unlocked := [CallUnlock(0), Step(0, 0), Step(0, 2), Step(0, 0), Step(0, 2)];
      var missed := [CallTryLock(1), Step(1, 0), Step(1, 2)];
      var s := Exec(Exec(Exec(Init([7, 8]), locked), unlocked), missed);
      s.lock == Free && s.pc == [Idle, Idle] && s.outcome == [Success, Busy]
  {
    LockOfTwo();
    UnlockOfTwo();
    MissedByOther();
  }

  const TWO_LOCKED := State([7, 8], [FlagWrite(0, 0, 0, false), FlagWrite(1, 0, 0, true)], [1, 0], [0, 7], [1, 0], 1,
                            [Idle, Idle], [Success, Success], Held(0, 1))
  const TWO_UNLOCKED := State([7, 8], TWO_LOCKED.flag + [FlagWrite(0, 2, 0, false)], [2, 0], [0, 7, 0], [2, 0], 0,
                              [Idle, Idle], [Success, Success], Free)

  lemma LockOfTwo()
    ensures Exec(Init([7, 8]), [CallLock(0), Step(0, 0), Step(0, 1), Step(0, 1), Step(0, 0)]) == TWO_LOCKED
  {
    var s := Init([7, 8]);
    FreshLock([7, 8]);
    var s3 := Next(Next(Next(s, CallLock(0)), Step(0, 0)), Step(0, 1));
    assert s3 == s.(flag := TWO_LOCKED.flag, seenFlag := [1, 0], pc := [AtSetOwner, Idle], lock := Held(0, 1));
    var s4 := Next(s3, Step(0, 1));
    assert s4 == s3.(order := [0, 7], seen := [1, 0], pc := [AtSetRecursion, Idle]);
    FiveSteps(s, CallLock(0), Step(0, 0), Step(0, 1), Step(0, 1), Step(0, 0));
  }

  lemma UnlockOfTwo()
    ensures Exec(TWO_LOCKED, [CallUnlock(0), Step(0, 0), Step(0, 2), Step(0, 0), Step(0, 2)]) == TWO_UNLOCKED
  {
    var s := TWO_LOCKED;
    var s2 := Next(Next(s, CallUnlock(0)), Step(0, 0));
    assert s2 == s.(pc := [AtClearOwner, Idle]);
    var s3 := Next(s2, Step(0, 2));
    assert s3 == s.(order := [0, 7, 0], seen := [2, 0], pc := [AtClearRecursion, Idle]);
    var s4 := Next(s3, Step(0, 0));
    assert s4 == s3.(recursion := 0, pc := [AtClearFlag, Idle]);
    FiveSteps(s, CallUnlock(0), Step(0, 0), Step(0, 2), Step(0, 0), Step(0, 2));
  }

  lemma MissedByOther()
    ensures var s := Exec(TWO_UNLOCKED, [CallTryLock(1), Step(1, 0), Step(1, 2)]);
      s.lock == Free && s.pc == [Idle, Idle] && s.outcome == [Success, Busy]
  {
    var s2 := Next(Next(TWO_UNLOCKED, CallTryLock(1)), Step(1, 0));
    assert s2 == TWO_UNLOCKED.(pc := [Idle, AtExchange(false)]);
    assert Exec(s2, [Step(1, 2)]) == Next(s2, Step(1, 2));
  }

  lemma OutcomeOfStep(s: State, t: nat, at: nat)
    requires Inv(s) && t < |s.pc| && Acquiring(s.pc[t]) && Next(s, Step(t, at)).pc[t].Idle?
    ensures Next(s, Step(t, at)).outcome[t] == Success <==> Holds(Next(s, Step(t, at)), t)
  {
    assert ThreadInv(s, t);
  }

  /** What lock and trylock tell their caller is true: on the step that returns, Success means that the caller now
      holds the lock, Busy that it does not. */
  lemma OutcomeIsTrue(ids: seq<nat>, actions: seq<Action>, t: nat, at: nat)
    requires Threads.GoodIds(ids) && t < |ids|
    ensures var s := Exec(Init(ids), actions);
      var s' := Next(s, Step(t, at));
      && WellFormed(s) && s.ids == ids && WellFormed(s') && s'.ids == ids
      && (Acquiring(s.pc[t]) && s'.pc[t].Idle? ==> (s'.outcome[t] == Success <==> Holds(s', t)))
  {
    InitInv(ids);
    ExecInv(Init(ids), actions);
    var s := Exec(Init(ids), actions);
    NextInv(s, Step(t, at));
    MovesOne(s, Step(t, at));
    if Acquiring(s.pc[t]) && Next(s, Step(t, at)).pc[t].Idle? {
      OutcomeOfStep(s, t, at);
    }
  }

  // ---- The calls, read off the run ----

  datatype Call = Lock | TryLock | Unlock
  datatype Answer = Acquired | Refused | Released

  /** t's calls during the run, in order. */
  function Calls(s: State, actions: seq<Action>, t: nat): seq<Call>
    decreases |actions|
  {
    if actions == [] then [] else CallOf(s, actions[0], t) + Calls(Next(s, actions[0]), actions[1..], t)
  }

  function CallOf(s: State, a: Action, t: nat): seq<Call>
  {
    if a.t != t || !MayCall(s, a) then [] else
    match a
    case CallLock(_) => [Lock]
    case CallTryLock(_) => [TryLock]
    case CallUnlock(_) => [Unlock]
    case Step(_, _) => []
  }

  /** What t's calls came back with, in order. */
  function Answers(s: State, actions: seq<Action>, t: nat): seq<Answer>
    decreases |actions|
  {
    if actions == [] then [] else AnswerOf(s, actions[0], t) + Answers(Next(s, actions[0]), actions[1..], t)
  }

  function AnswerOf(s: State, a: Action, t: nat): seq<Answer>
  {
    if !Returns(s, a, t) then []
    else if !Acquiring(s.pc[t]) then [Released]
    else if StepOf(s, t, a.at).outcome[t] == Success then [Acquired]
    else [Refused]
  }

  /** A call that can be at this place. */
  predicate IsIn(p: Pc, c: Call)
  {
    match p
    case Idle => false
    case AtOwner(retry) => c == if retry then Lock else TryLock
    case AtOwnerAgain(retry) => c == if retry then Lock else TryLock
    case AtExchange(retry) => c == if retry then Lock else TryLock
    case _ => c.Unlock? <==> !Acquiring(p)
  }

  predicate AnsweredBy(c: Call, a: Answer)
  {
    match c
    case Lock => a == Acquired
    case TryLock => a == Acquired || a == Refused
    case Unlock => a == Released
  }

  /** Each call but the one still under way has its answer. */
  predicate Answered(calls: seq<Call>, answers: seq<Answer>, p: Pc)
  {
    if calls == [] then answers == [] && p.Idle?
    else if answers == [] then |calls| == 1 && IsIn(p, calls[0])
    else AnsweredBy(calls[0], answers[0]) && Answered(calls[1..], answers[1..], p)
  }

  /** The call under way, if any. */
  predicate UnderWay(p: Pc, calls: seq<Call>)
  {
    if p.Idle? then calls == [] else |calls| == 1 && IsIn(p, calls[0])
  }

  /** t takes a step of its call. */
  lemma AnswerStep(s: State, t: nat, at: nat, call: Call)
    requires WellFormed(s) && t < |s.pc| && !s.pc[t].Idle? && IsIn(s.pc[t], call)
    ensures var p, answers := StepOf(s, t, at).pc[t], AnswerOf(s, Step(t, at), t);
      if p.Idle? then |answers| == 1 && AnsweredBy(call, answers[0]) else answers == [] && IsIn(p, call)
  {
  }

  /** Any other action: t, if idle, may begin a call. */
  lemma CallStep(s: State, a: Action, t: nat)
    requires WellFormed(s) && t < |s.pc| && !(a.Step? && a.t == t)
    ensures AnswerOf(s, a, t) == [] && |Next(s, a).pc| == |s.pc|
    ensures if s.pc[t].Idle? then UnderWay(Next(s, a).pc[t], CallOf(s, a, t))
            else CallOf(s, a, t) == [] && Next(s, a).pc[t] == s.pc[t]
  {
    MovesOne(s, a);
  }

  lemma AnsweredOneMore(call: Call, answer: Answer, calls: seq<Call>, answers: seq<Answer>, p: Pc)
    requires AnsweredBy(call, answer) && Answered(calls, answers, p)
    ensures Answered([call] + calls, [answer] + answers, p)
  {
    assert ([call] + calls)[1..] == calls && ([answer] + answers)[1..] == answers;
  }

  lemma {:induction false} CallsAndAnswers(s: State, actions: seq<Action>, t: nat, calls: seq<Call>)
    requires WellFormed(s) && t < |s.pc| && UnderWay(s.pc[t], calls)
    ensures |Exec(s, actions).pc| == |s.pc|
    ensures Answered(calls + Calls(s, actions, t), Answers(s, actions, t), Exec(s, actions).pc[t])
    decreases |actions|
  {
    Threads.Assoc(calls, [], []);
    if actions != [] {
      var a, s' := actions[0], Next(s, actions[0]);
      var rest, answers := Calls(s', actions[1..], t), Answers(s', actions[1..], t);
      MovesOne(s, a);
      assert WellFormed(s');
      Threads.Assoc(calls, CallOf(s, a, t), rest);
      Threads.Assoc(answers, [], []);
      if a.Step? && a.t == t && !s.pc[t].Idle? {
        AnswerStep(s, t, a.at, calls[0]);
        Threads.Assoc(rest, [], []);
        if s'.pc[t].Idle? {
          CallsAndAnswers(s', actions[1..], t, []);
          AnsweredOneMore(calls[0], AnswerOf(s, a, t)[0], rest, answers, Exec(s, actions).pc[t]);
          assert calls == [calls[0]] && AnswerOf(s, a, t) == [AnswerOf(s, a, t)[0]];
        } else {
          CallsAndAnswers(s', actions[1..], t, calls);
        }
      } else {
        if !(a.Step? && a.t == t) {
          CallStep(s, a, t);
        }
        CallsAndAnswers(s', actions[1..], t, calls + CallOf(s, a, t));
      }
    }
  }

  /** Every call comes back as what it was: in order, each lock acquires, each trylock acquires or is refused, each
      unlock releases, and only the last may still be under way. */
  lemma CallsAnswered(ids: seq<nat>, actions: seq<Action>, t: nat)
    requires Threads.GoodIds(ids) && t < |ids|
    ensures |Exec(Init(ids), actions).pc| == |ids|
    ensures Answered(Calls(Init(ids), actions, t), Answers(Init(ids), actions, t), Exec(Init(ids), actions).pc[t])
  {
    InitInv(ids);
    CallsAndAnswers(Init(ids), actions, t, []);
    assert [] + Calls(Init(ids), actions, t) == Calls(Init(ids), actions, t);
  }

  // ---- A thread left alone ----

  /** t's next access, reading the latest entry and writing at the end. */
  function Alone(s: State, t: nat): State
    requires WellFormed(s) && t < |s.pc|
  {
    match s.pc[t]
    case AtOwner(_) => Next(s, Step(t, if s.order == [] then 0 else |s.order| - 1))
    case AtOwnerAgain(_) => Next(s, Step(t, if s.order == [] then 0 else |s.order| - 1))
    case AtExchange(_) => Next(s, Step(t, |s.flag|))
    case AtClearFlag => Next(s, Step(t, |s.flag|))
    case _ => Next(s, Step(t, |s.order|))
  }

  /** Four of them: no call needs more. */
  function AloneToTheEnd(s: State, t: nat): State
    requires WellFormed(s) && t < |s.pc|
  {
    var s1 := Alone(s, t);
    if !WellFormed(s1) || t >= |s1.pc| then s1 else
    var s2 := Alone(s1, t);
    if !WellFormed(s2) || t >= |s2.pc| then s2 else
    var s3 := Alone(s2, t);
    if !WellFormed(s3) || t >= |s3.pc| then s3 else Alone(s3, t)
  }

  /** The check reads a 0, the exchange a 0. */
  lemma AloneExchanges(s: State, t: nat, retry: bool)
    requires Inv(s) && t < |s.pc| && s.pc[t] == AtOwner(retry) && s.lock.Free?
    ensures var s1 := Alone(s, t);
      WellFormed(s1) && s1.pc == s.pc[t := AtExchange(retry)] &&
      var s2 := Alone(s1, t);
      && WellFormed(s2) && s2.pc == s.pc[t := AtSetOwner] && s2.lock == Held(t, 1) && s2.outcome == s.outcome
      && s2.order == s.order && s2.seen[t] < |s.order|
  {
    assert ThreadInv(s, t) && FlagAhead(s.flag, s.seenFlag[t], t, false);
  }

  /** The two writes that complete an acquisition. */
  lemma AloneCompletes(s: State, t: nat)
    requires WellFormed(s) && t < |s.pc| && s.pc[t] == AtSetOwner && s.seen[t] < |s.order|
    ensures var s1 := Alone(s, t);
      WellFormed(s1) && t < |s1.pc| &&
      var s2 := Alone(s1, t);
      && WellFormed(s2) && s2.pc == s.pc[t := Idle] && s2.lock == s.lock && s2.outcome == s.outcome[t := Success]
  {
    var s1 := Alone(s, t);
    assert s1.pc == s.pc[t := AtSetRecursion] && s1.lock == s.lock && s1.outcome == s.outcome && WellFormed(s1);
  }

  lemma AloneAcquires(s: State, t: nat, retry: bool)
    requires Inv(s) && t < |s.pc| && s.pc[t] == AtOwner(retry) && s.lock.Free?
    ensures var s' := AloneToTheEnd(s, t);
      WellFormed(s') && s'.pc == s.pc[t := Idle] && s'.lock == Held(t, 1) && s'.outcome == s.outcome[t := Success]
  {
    AloneExchanges(s, t, retry);
    AloneCompletes(Alone(Alone(s, t), t), t);
  }

  lemma AloneReenters(s: State, t: nat, retry: bool)
    requires Inv(s) && t < |s.pc| && s.pc[t] == AtOwner(retry) && Holds(s, t)
    ensures var s' := AloneToTheEnd(s, t);
      && WellFormed(s') && s'.pc == s.pc[t := Idle] && s'.lock == Held(t, s.lock.depth + 1)
      && s'.outcome == s.outcome[t := Success]
  {
    assert ThreadInv(s, t);
    var s1 := Alone(s, t);
    assert s1.pc == s.pc[t := AtOwnerAgain(retry)] && s1.order == s.order;
    var s2 := Alone(s1, t);
    assert s2.pc == s.pc[t := AtDeeper];
  }

  lemma AloneReleasesOne(s: State, t: nat)
    requires Inv(s) && t < |s.pc| && s.pc[t] == AtDepthTest && Holds(s, t) && s.lock.depth > 1
    ensures var s' := AloneToTheEnd(s, t);
      && WellFormed(s') && s'.pc == s.pc[t := Idle] && s'.outcome == s.outcome[t := Success]
      && s'.lock == Held(t, s.lock.depth - 1)
  {
    assert ThreadInv(s, t);
    var s1 := Alone(s, t);
    assert s1 == s.(pc := s.pc[t := AtShallower]);
    var s2 := Alone(s1, t);
    assert s2 == s.(pc := s.pc[t := AtShallowerWrite(s.recursion)]);
  }

  lemma AloneReleasesLast(s: State, t: nat)
    requires Inv(s) && t < |s.pc| && s.pc[t] == AtDepthTest && Holds(s, t) && s.lock.depth == 1
    ensures var s' := AloneToTheEnd(s, t);
      WellFormed(s') && s'.pc == s.pc[t := Idle] && s'.outcome == s.outcome[t := Success] && s'.lock == Free
  {
    assert ThreadInv(s, t) && FlagAhead(s.flag, s.seenFlag[t], t, true);
    var s1 := Alone(s, t);
    assert s1 == s.(pc := s.pc[t := AtClearOwner]);
    var s2 := Alone(s1, t);
    assert s2 == s.(pc := s.pc[t := AtClearRecursion], order := s2.order, seen := s2.seen) && WellFormed(s2);
    var s3 := Alone(s2, t);
    assert s3 == s2.(pc := s.pc[t := AtClearFlag], recursion := 0);
  }

  function DepthOf(l: Lock, t: nat): nat
  {
    if l.Held? && l.owner == t then l.depth else 0
  }

  /** A thread that is left alone with the lock free or its own gets through any call in four accesses: lock and trylock
      acquire a free lock and deepen a hold of the caller's, unlock gives back one level. */
  lemma CallAloneSucceeds(ids: seq<nat>, before: seq<Action>, call: Action)
    requires Threads.GoodIds(ids) && !call.Step? && MayCall(Exec(Init(ids), before), call)
    requires var s := Exec(Init(ids), before); s.lock.Free? || Holds(s, call.t)
    ensures var s, t := Exec(Init(ids), before), call.t;
      t < |Next(s, call).pc| && WellFormed(Next(s, call)) &&
      var s' := AloneToTheEnd(Next(s, call), t);
      && WellFormed(s') && s'.pc == s.pc && s'.outcome == s.outcome[t := Success]
      && DepthOf(s'.lock, t) == (if call.CallUnlock? then DepthOf(s.lock, t) - 1 else DepthOf(s.lock, t) + 1)
      && (call.CallUnlock? && DepthOf(s.lock, t) == 1 ==> s'.lock == Free)
  {
    InitInv(ids);
    ExecInv(Init(ids), before);
    var s, t := Exec(Init(ids), before), call.t;
    NextInv(s, call);
    assert ThreadInv(s, t);
    match call {
      case CallLock(_) =>
        if s.lock.Free? { AloneAcquires(Next(s, call), t, true); } else { AloneReenters(Next(s, call), t, true); }
      case CallTryLock(_) =>
        if s.lock.Free? { AloneAcquires(Next(s, call), t, false); } else { AloneReenters(Next(s, call), t, false); }
      case CallUnlock(_) =>
        if s.lock.depth > 1 { AloneReleasesOne(Next(s, call), t); } else { AloneReleasesLast(Next(s, call), t); }
    }
    assert Next(s, call).pc[t := Idle] == s.pc;
  }

  // ---- Refinement ----

  function Events(s: State, actions: seq<Action>): seq<Event>
    decreases |actions|
  {
    if actions == [] then [] else [EventOf(s, actions[0])] + Events(Next(s, actions[0]), actions[1..])
  }

  /** The atomic lock can perform these events from l and ends as l'. */
  predicate AtomicRun(l: Lock, events: seq<Event>, l': Lock)
    decreases |events|
  {
    if events == [] then l == l' else Allowed(l, events[0]) && AtomicRun(Applied(l, events[0]), events[1..], l')
  }

  lemma {:induction false} ExecRefines(s: State, actions: seq<Action>)
    requires Inv(s)
    ensures AtomicRun(s.lock, Events(s, actions), Exec(s, actions).lock)
    decreases |actions|
  {
    if actions != [] {
      var a := actions[0];
      if a.Step? && a.t < |s.pc| {
        assert ThreadInv(s, a.t);
      }
      NextInv(s, a);
      ExecRefines(Next(s, a), actions[1..]);
      assert Events(s, actions)[1..] == Events(Next(s, a), actions[1..]);
    }
  }

  /** A thread got the lock once more, or gave it back once. */
  datatype Turn = Got | Gave

  function EffectOf(e: Event, t: nat): seq<Turn>
  {
    match e
    case Acquire(u) => if u == t then [Got] else []
    case Reenter(u) => if u == t then [Got] else []
    case Release(u) => if u == t then [Gave] else []
    case Silent => []
  }

  /** t's part of the atomic run. */
  function Effects(events: seq<Event>, t: nat): seq<Turn>
    decreases |events|
  {
    if events == [] then [] else EffectOf(events[0], t) + Effects(events[1..], t)
  }

  /** What a returning call of t amounts to: a successful lock or trylock, nothing for a busy one, an unlock. */
  function ReturnOf(s: State, a: Action, t: nat): seq<Turn>
  {
    if !Returns(s, a, t) then []
    else if !Acquiring(s.pc[t]) then [Gave]
    else if StepOf(s, t, a.at).outcome[t] == Success then [Got]
    else []
  }

  /** The calls of t that returned during the run. */
  function Returned(s: State, actions: seq<Action>, t: nat): seq<Turn>
    decreases |actions|
  {
    if actions == [] then [] else ReturnOf(s, actions[0], t) + Returned(Next(s, actions[0]), actions[1..], t)
  }

  /** A call that has taken effect and not yet returned. */
  function Pending(p: Pc): seq<Turn>
  {
    if p.AtSetOwner? || p.AtSetRecursion? then [Got] else []
  }

  lemma FlagReturnStep(s: State, t: nat, at: nat)
    requires WellFormed(s) && t < |s.pc| && (s.pc[t].AtExchange? || s.pc[t].AtClearFlag?)
    ensures var a := Step(t, at);
      Pending(s.pc[t]) + EffectOf(EventOf(s, a), t) == ReturnOf(s, a, t) + Pending(StepOf(s, t, at).pc[t])
  {
  }

  lemma OwnReturnStep(s: State, t: nat, at: nat)
    requires WellFormed(s) && t < |s.pc| && !s.pc[t].AtExchange? && !s.pc[t].AtClearFlag?
    ensures var a := Step(t, at);
      Pending(s.pc[t]) + EffectOf(EventOf(s, a), t) == ReturnOf(s, a, t) + Pending(StepOf(s, t, at).pc[t])
  {
  }

  lemma OthersKeepPending(s: State, a: Action, t: nat)
    requires WellFormed(s) && t < |s.pc| && !(a.Step? && a.t == t)
    ensures |Next(s, a).pc| == |s.pc| && Pending(Next(s, a).pc[t]) == Pending(s.pc[t])
  {
    MovesOne(s, a);
  }

  lemma ReturnStep(s: State, a: Action, t: nat)
    requires WellFormed(s) && t < |s.pc|
    ensures |Next(s, a).pc| == |s.pc|
    ensures Pending(s.pc[t]) + EffectOf(EventOf(s, a), t) == ReturnOf(s, a, t) + Pending(Next(s, a).pc[t])
  {
    if a.Step? && a.t == t {
      if s.pc[t].AtExchange? || s.pc[t].AtClearFlag? {
        FlagReturnStep(s, t, a.at);
      } else {
        OwnReturnStep(s, t, a.at);
      }
    } else {
      OthersKeepPending(s, a, t);
      assert EffectOf(EventOf(s, a), t) == [];
      assert ReturnOf(s, a, t) == [];
    }
  }

  lemma {:induction false} ReturnedAreEffects(s: State, actions: seq<Action>, t: nat)
    requires Inv(s) && t < |s.pc|
    ensures |Exec(s, actions).pc| == |s.pc|
    ensures Pending(s.pc[t]) + Effects(Events(s, actions), t)
         == Returned(s, actions, t) + Pending(Exec(s, actions).pc[t])
    decreases |actions|
  {
    if actions != [] {
      var a, s' := actions[0], Next(s, actions[0]);
      NextInv(s, a);
      ReturnStep(s, a, t);
      ReturnedAreEffects(s', actions[1..], t);
      assert Events(s, actions)[1..] == Events(s', actions[1..]);
      Threads.Regroup(
        Pending(s.pc[t]), EffectOf(EventOf(s, a), t), ReturnOf(s, a, t), Pending(s'.pc[t]),
        Effects(Events(s', actions[1..]), t), Returned(s', actions[1..], t), Pending(Exec(s, actions).pc[t]));
    }
  }

  /** The steps of the code, in any interleaving, perform a legal run of the atomic recursive lock: the exchange
      acquires only a free lock, the recursion writes and the clearing of the flag are the holder's.  Each thread's
      part of that run is exactly its returned calls, in order: one acquisition for a successful lock or trylock, none
      for a busy one, one release for an unlock, and one acquisition more while a call that has got the lock is about
      to return.  The cells mirror the atomic lock: the flag at all times, recursion between the holder's calls. */
  lemma RefinesAtomicLock(ids: seq<nat>, actions: seq<Action>)
    requires Threads.GoodIds(ids)
    ensures var s := Exec(Init(ids), actions);
      var events := Events(Init(ids), actions);
      && AtomicRun(Free, events, s.lock)
      && WellFormed(s) && s.ids == ids
      && (forall t :: 0 <= t < |ids| ==> Effects(events, t) == Returned(Init(ids), actions, t) + Pending(s.pc[t]))
      && s.flag != [] && (FlagValue(s) == 0 <==> s.lock.Free?)
      && (s.lock.Free? ==> s.recursion == 0)
      && (s.lock.Held? ==> s.lock.owner < |ids| && s.lock.depth <= INT_MAX)
      && (s.lock.Held? && s.pc[s.lock.owner].Idle? ==> s.recursion == s.lock.depth)
      && (forall t :: 0 <= t < |ids| && s.pc[t].AtDeeperWrite? ==> s.pc[t].value == s.recursion < INT_MAX)
  {
    InitInv(ids);
    ExecInv(Init(ids), actions);
    ExecRefines(Init(ids), actions);
    var s := Exec(Init(ids), actions);
    if s.lock.Held? {
      assert ThreadInv(s, s.lock.owner);
    }
    forall t | 0 <= t < |ids|
      ensures s.pc[t].AtDeeperWrite? ==> s.pc[t].value == s.recursion < INT_MAX
      ensures Effects(Events(Init(ids), actions), t) == Returned(Init(ids), actions, t) + Pending(s.pc[t])
    {
      assert ThreadInv(s, t);
      ReturnedAreEffects(Init(ids), actions, t);
    }
  }

  /** Acquisitions minus releases. */
  function Surplus(turns: seq<Turn>): int
  {
    if turns == [] then 0 else (if turns[0] == Got then 1 else -1) + Surplus(turns[1..])
  }

  lemma {:induction false} SurplusAdds(a: seq<Turn>, b: seq<Turn>)
    ensures Surplus(a + b) == Surplus(a) + Surplus(b)
  {
    if a == [] {
      assert a + b == b;
    } else {
      assert (a + b)[1..] == a[1..] + b;
      SurplusAdds(a[1..], b);
    }
  }

  lemma {:induction false} SurplusIsDepth(l: Lock, events: seq<Event>, l': Lock, t: nat)
    requires AtomicRun(l, events, l') && (l.Held? ==> l.depth > 0)
    ensures DepthOf(l', t) == DepthOf(l, t) + Surplus(Effects(events, t))
    ensures l'.Held? ==> l'.depth > 0
    decreases |events|
  {
    if events != [] {
      SurplusIsDepth(Applied(l, events[0]), events[1..], l', t);
      SurplusAdds(EffectOf(events[0], t), Effects(events[1..], t));
    }
  }

  /** Depth accounting at the level of calls: t's returned successful acquisitions minus its returned unlocks is its
      depth, less one while a call of t that has got the lock is about to return; so between calls it is exactly the
      depth, and it is never negative. */
  lemma DepthAccounting(ids: seq<nat>, actions: seq<Action>, t: nat)
    requires Threads.GoodIds(ids) && t < |ids|
    ensures var s := Exec(Init(ids), actions);
      var surplus := Surplus(Returned(Init(ids), actions, t));
      && |s.pc| == |ids|
      && surplus == DepthOf(s.lock, t) - |Pending(s.pc[t])| >= 0
      && (s.pc[t].Idle? ==> surplus == DepthOf(s.lock, t))
  {
    RefinesAtomicLock(ids, actions);
    var s := Exec(Init(ids), actions);
    SurplusIsDepth(Free, Events(Init(ids), actions), s.lock, t);
    SurplusAdds(Returned(Init(ids), actions, t), Pending(s.pc[t]));
    InitInv(ids);
    ExecInv(Init(ids), actions);
    assert ThreadInv(s, t);
  }

  /** Mutual exclusion, said of the calls alone and of their effects: two threads never both have more acquisitions
      than releases; while one has, the flag is set; while the flag is set, its owner has. */
  lemma MutualExclusion(ids: seq<nat>, actions: seq<Action>, t: nat, u: nat)
    requires Threads.GoodIds(ids) && t < |ids| && u < |ids|
    ensures var s := Exec(Init(ids), actions);
      var events := Events(Init(ids), actions);
      && (Surplus(Effects(events, t)) > 0 && Surplus(Effects(events, u)) > 0 ==> t == u)
      && s.flag != []
      && (Surplus(Effects(events, t)) > 0 ==> FlagValue(s) == 1)
      && (FlagValue(s) == 1 ==> s.lock.Held? && Surplus(Effects(events, s.lock.owner)) > 0)
      && (Surplus(Returned(Init(ids), actions, t)) > 0 && Surplus(Returned(Init(ids), actions, u)) > 0 ==> t == u)
      && (Surplus(Returned(Init(ids), actions, t)) > 0 ==> FlagValue(s) == 1)
  {
    DepthAccounting(ids, actions, t);
    DepthAccounting(ids, actions, u);
    InitInv(ids);
    ExecInv(Init(ids), actions);
    ExecRefines(Init(ids), actions);
    var s, events := Exec(Init(ids), actions), Events(Init(ids), actions);
    SurplusIsDepth(Free, events, s.lock, t);
    SurplusIsDepth(Free, events, s.lock, u);
    if s.lock.Held? {
      SurplusIsDepth(Free, events, s.lock, s.lock.owner);
    }
  }

  // ---- The code, one method per access to the shared cells ----

  class Spin {
    const ids: seq<nat>
    var flag: seq<FlagWrite>   // every write to flag, in modification order
    var seenFlag: seq<nat>
    var order: seq<nat>        // every value owner_tid has had, in modification order
    var seen: seq<nat>
    var recursion: nat
    var pc: seq<Pc>
    var outcome: seq<Outcome>
    ghost var lock: Lock

    ghost function View(): State
      reads this
    {
      State(ids, flag, seenFlag, order, seen, recursion, pc, outcome, lock)
    }

    ghost predicate Valid()
      reads this
    {
      Inv(View())
    }

    /** ccspinlock_create: calloc, and (void)type */
    constructor (type_: Recursion, ids: seq<nat>)
      requires Threads.GoodIds(ids)
      ensures View() == Create(type_, ids) == Init(ids)
      ensures Valid()
    {
      this.ids := ids;
      flag, order, recursion, lock := [FlagWrite(0, 0, 0, false)], [0], 0, Free;
      seenFlag := seq(|ids|, _ => 0);
      seen, pc, outcome := seq(|ids|, _ => 0), seq(|ids|, _ => Idle), seq(|ids|, _ => Success);
      new;
      InitInv(ids);
    }

    /** ccspinlock_lock (retry) or ccspinlock_trylock is called. */
    method BeginAcquire(t: nat, retry: bool)
      requires Valid() && MayCall(View(), if retry then CallLock(t) else CallTryLock(t))
      modifies this
      ensures View() == Next(old(View()), if retry then CallLock(t) else CallTryLock(t))
      ensures Valid()
    {
      NextInv(View(), if retry then CallLock(t) else CallTryLock(t));
      pc := pc[t := AtOwner(retry)];
    }

    /** ccspinlock_unlock is called. */
    method BeginRelease(t: nat)
      requires Valid() && MayCall(View(), CallUnlock(t))
      modifies this
      ensures View() == Next(old(View()), CallUnlock(t))
      ensures Valid()
    {
      NextInv(View(), CallUnlock(t));
      pc := pc[t := AtDepthTest];
    }

    /** spin->owner_tid, the first operand of the check */
    method TestOwner(t: nat, at: nat)
      requires Valid() && t < |pc| && pc[t].AtOwner? && CanRead(View(), t, at)
      modifies this
      ensures View() == Next(old(View()), Step(t, at))
      ensures Valid()
    {
      NextInv(View(), Step(t, at));
      seen := seen[t := at];
      pc := pc[t := if order[at] != 0 then AtOwnerAgain(pc[t].retry) else AtExchange(pc[t].retry)];
    }

    /** spin->owner_tid == ccthread_gettid(NULL) */
    method CompareOwner(t: nat, at: nat)
      requires Valid() && t < |pc| && pc[t].AtOwnerAgain? && CanRead(View(), t, at)
      modifies this
      ensures View() == Next(old(View()), Step(t, at))
      ensures Valid()
      ensures pc[t].AtDeeper? <==> Holds(old(View()), t)
    {
      assert ThreadInv(View(), t);
      NextInv(View(), Step(t, at));
      seen := seen[t := at];
      if order[at] == ids[t] {
        pc := pc[t := AtDeeper];
      } else {
        pc := pc[t := AtExchange(pc[t].retry)];
      }
    }

    /** spin->recursion++ and spin->recursion--, the read */
    method ReadRecursion(t: nat)
      requires Valid() && t < |pc| && (pc[t].AtDeeper? || pc[t].AtShallower?)
      modifies this
      ensures forall at :: View() == Next(old(View()), Step(t, at))
      ensures Valid()
    {
      NextInv(View(), Step(t, 0));
      if pc[t].AtDeeper? {
        pc := pc[t := AtDeeperWrite(recursion)];
      } else {
        pc := pc[t := AtShallowerWrite(recursion)];
      }
    }

    /** spin->recursion++, the write: the nested acquisition takes effect */
    method IncrementRecursion(t: nat)
      requires Valid() && t < |pc| && pc[t].AtDeeperWrite?
      modifies this
      ensures forall at :: View() == Next(old(View()), Step(t, at))
      ensures Valid()
      ensures recursion == old(recursion) + 1 <= INT_MAX
    {
      assert ThreadInv(View(), t);
      NextInv(View(), Step(t, 0));
      recursion := pc[t].value + 1;
      pc, outcome := pc[t := Idle], outcome[t := Success];
      lock := Applied(lock, Reenter(t));
    }

    /** ccatomic_exchange_acquire(&spin->flag, 1) and its test; the exchange may be placed before a release that t
        has not seen, and then finds the lock busy */
    method ExchangeFlag(t: nat, at: nat)
      requires Valid() && t < |pc| && pc[t].AtExchange? && CanWriteFlag(View(), t, at)
      modifies this
      ensures View() == Next(old(View()), Step(t, at))
      ensures Valid()
      ensures pc[t].AtSetOwner? <==> old(lock).Free? && at == |old(flag)|
    {
      assert ThreadInv(View(), t);
      ExchangeReads(View(), t, at);
      ExchangeStep(View(), t, at);
      NextInv(View(), Step(t, at));
      var previous, retry := flag[at - 1], pc[t].retry;
      flag := Insert(flag, at, FlagWrite(1, previous.handed, if previous.value == 0 then t else previous.tenant, true));
      seenFlag := Shift(seenFlag, at, t);
      seen := seen[t := Max(seen[t], previous.handed)];
      if previous.value == 0 {
        pc := pc[t := AtSetOwner];
        lock := Applied(lock, Acquire(t));
      } else if retry {
        pc := pc[t := AtOwner(true)];
      } else {
        pc, outcome := pc[t := Idle], outcome[t := Busy];
      }
    }

    /** spin->owner_tid = ccthread_gettid(NULL) or 0, placed anywhere after what t has seen */
    method WriteOwnerTid(t: nat, at: nat)
      requires Valid() && t < |pc| && (pc[t].AtSetOwner? || pc[t].AtClearOwner?) && seen[t] < at <= |order|
      modifies this
      ensures View() == Next(old(View()), Step(t, at))
      ensures Valid()
      ensures at == |old(order)|
    {
      assert ThreadInv(View(), t);
      OwnerWriteGoesLast(View(), t, at);
      NextInv(View(), Step(t, at));
      if pc[t].AtSetOwner? {
        order, pc := Insert(order, at, ids[t]), pc[t := AtSetRecursion];
      } else {
        order, pc := Insert(order, at, 0), pc[t := AtClearRecursion];
      }
      seen := Shift(seen, at, t);
    }

    /** spin->recursion = 1 */
    method SetRecursion(t: nat)
      requires Valid() && t < |pc| && pc[t].AtSetRecursion?
      modifies this
      ensures forall at :: View() == Next(old(View()), Step(t, at))
      ensures Valid()
    {
      NextInv(View(), Step(t, 0));
      recursion := 1;
      pc, outcome := pc[t := Idle], outcome[t := Success];
    }

    /** if (spin->recursion > 1) */
    method TestRecursion(t: nat)
      requires Valid() && t < |pc| && pc[t].AtDepthTest?
      modifies this
      ensures forall at :: View() == Next(old(View()), Step(t, at))
      ensures Valid()
    {
      NextInv(View(), Step(t, 0));
      if recursion > 1 {
        pc := pc[t := AtShallower];
      } else {
        pc := pc[t := AtClearOwner];
      }
    }

    /** spin->recursion--, the write: the inner release takes effect */
    method DecrementRecursion(t: nat)
      requires Valid() && t < |pc| && pc[t].AtShallowerWrite?
      modifies this
      ensures forall at :: View() == Next(old(View()), Step(t, at))
      ensures Valid()
      ensures recursion == old(recursion) - 1 >= 1
    {
      assert ThreadInv(View(), t);
      NextInv(View(), Step(t, 0));
      recursion := pc[t].value - 1;
      pc, outcome := pc[t := Idle], outcome[t := Success];
      lock := Applied(lock, Release(t));
    }

    /** spin->recursion = 0 */
    method ClearRecursion(t: nat)
      requires Valid() && t < |pc| && pc[t].AtClearRecursion?
      modifies this
      ensures forall at :: View() == Next(old(View()), Step(t, at))
      ensures Valid()
    {
      NextInv(View(), Step(t, 0));
      recursion := 0;
      pc := pc[t := AtClearFlag];
    }

    /** ccatomic_store_release(&spin->flag, 0): the outermost release takes effect */
    method ReleaseFlag(t: nat, at: nat)
      requires Valid() && t < |pc| && pc[t].AtClearFlag? && CanWriteFlag(View(), t, at)
      modifies this
      ensures View() == Next(old(View()), Step(t, at))
      ensures Valid()
      ensures lock.Free? && at == |old(flag)|
    {
      assert ThreadInv(View(), t);
      ReleaseGoesLast(View(), t, at);
      NextInv(View(), Step(t, at));
      flag := Insert(flag, at, FlagWrite(0, seen[t], t, false));
      seenFlag := Shift(seenFlag, at, t);
      pc, outcome := pc[t := Idle], outcome[t := Success];
      lock := Applied(lock, Release(t));
    }

    /** Whatever thread t does next; an access to owner_tid or flag uses position `at` when that is possible. */
    method StepThread(t: nat, at: nat)
      requires Valid() && t < |pc|
      modifies this
      ensures View() == Next(old(View()), Step(t, at))
      ensures Valid()
    {
      match pc[t] {
        case Idle =>
        case AtOwner(_) => if seen[t] <= at < |order| { TestOwner(t, at); }
        case AtOwnerAgain(_) => if seen[t] <= at < |order| { CompareOwner(t, at); }
        case AtDeeper => ReadRecursion(t);
        case AtDeeperWrite(_) => IncrementRecursion(t);
        case AtExchange(_) =>
          if seenFlag[t] < at <= |flag| && (at < |flag| ==> !flag[at].exchanged) { ExchangeFlag(t, at); }
        case AtSetOwner => if seen[t] < at <= |order| { WriteOwnerTid(t, at); }
        case AtSetRecursion => SetRecursion(t);
        case AtDepthTest => TestRecursion(t);
        case AtShallower => ReadRecursion(t);
        case AtShallowerWrite(_) => DecrementRecursion(t);
        case AtClearOwner => if seen[t] < at <= |order| { WriteOwnerTid(t, at); }
        case AtClearRecursion => ClearRecursion(t);
        case AtClearFlag =>
          if seenFlag[t] < at <= |flag| && (at < |flag| ==> !flag[at].exchanged) { ReleaseFlag(t, at); }
      }
    }

    method StepSystem(a: Action)
      requires Valid()
      modifies this
      ensures View() == Next(old(View()), a)
      ensures Valid()
    {
      if a.t < |pc| {
        assert ThreadInv(View(), a.t);
        var idle, held, level := pc[a.t].Idle?, order[|order| - 1] == ids[a.t], recursion;
        match a {
          case CallLock(t) => if idle && (held ==> level < INT_MAX) { BeginAcquire(t, true); }
          case CallTryLock(t) => if idle && (held ==> level < INT_MAX) { BeginAcquire(t, false); }
          case CallUnlock(t) => if idle && held { BeginRelease(t); }
          case Step(t, at) => StepThread(t, at);
        }
      }
    }

    /** Any interleaving of calls and steps; calls that break the callers' obligations are skipped. */
    method Run(actions: seq<Action>)
      requires Valid()
      modifies this
      ensures View() == Exec(old(View()), actions)
      ensures Valid()
    {
      var i := 0;
      while i < |actions|
        invariant 0 <= i <= |actions|
        invariant Valid() && Exec(View(), actions[i..]) == Exec(old(View()), actions)
      {
        assert actions[i..][1..] == actions[i + 1..];
        StepSystem(actions[i]);
        i := i + 1;
      }
    }
  }
}
