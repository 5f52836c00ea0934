/** The spinlock's functions as structured programs (ccspinlock.c), and the proof that a thread of the step machine runs
    them: its accesses, with the values that it reads and writes, whatever other threads do and however stale the values
    are. */
module SpinLockProgram {
  import opened SpinLock
  import Threads

  /** What one step does, seen from outside. */
  datatype Access =
    | Begin(call: Call)
    | ReadOwner(value: nat)
    | WriteOwner(stored: int)
    | ReadDepth(value: nat)
    | WriteDepth(stored: int)
    | Exchange(previous: nat, stored: int)
    | StoreFlag(stored: int)
    | Done(answer: Answer)

  // ---- The programs ----
  //
  // Each predicate says that `rest` are the accesses of the thread with this id from this point of the program on, as
  // far as it has got.

  /** One call after another. */
  predicate Program(rest: seq<Access>, id: nat)
    decreases |rest|
  {
    rest == [] ||
    (rest[0].Begin? &&
     if rest[0].call.Unlock? then Unlocks(rest[1..], id) else Tries(rest[1..], id, rest[0].call.Lock?))
  }

  /** ccspinlock_trylock, and `again` for the loop of ccspinlock_lock around it: the owner check, owner_tid && owner_tid
      == gettid */
  predicate Tries(rest: seq<Access>, id: nat, again: bool)
    decreases |rest|
  {
    rest == [] ||
    (rest[0].ReadOwner? && if rest[0].value != 0 then Compares(rest[1..], id, again) else Swaps(rest[1..], id, again))
  }

  predicate Compares(rest: seq<Access>, id: nat, again: bool)
    decreases |rest|
  {
    rest == [] ||
    (rest[0].ReadOwner? && if rest[0].value == id then Deepens(rest[1..], id) else Swaps(rest[1..], id, again))
  }

  /** recursion++ */
  predicate Deepens(rest: seq<Access>, id: nat)
    decreases |rest|
  {
    rest == [] || (rest[0].ReadDepth? && SetsDepth(rest[1..], id, rest[0].value + 1, Acquired))
  }

  /** The last write to recursion before returning */
  predicate SetsDepth(rest: seq<Access>, id: nat, depth: int, answer: Answer)
    decreases |rest|
  {
    rest == [] || (rest[0] == WriteDepth(depth) && Returns(rest[1..], id, answer))
  }

  predicate Returns(rest: seq<Access>, id: nat, answer: Answer)
    decreases |rest|
  {
    rest != [] && rest[0] == Done(answer) && Program(rest[1..], id)
  }

  /** exchange(&flag, 1) == 0 */
  predicate Swaps(rest: seq<Access>, id: nat, again: bool)
    decreases |rest|
  {
    rest == [] ||
    (rest[0].Exchange? && rest[0].stored == 1 &&
     if rest[0].previous == 0 then TakesOver(rest[1..], id)
     else if again then Tries(rest[1..], id, again)
     else Returns(rest[1..], id, Refused))
  }

  /** owner_tid = gettid; recursion = 1 */
  predicate TakesOver(rest: seq<Access>, id: nat)
    decreases |rest|
  {
    rest == [] || (rest[0] == WriteOwner(id) && SetsDepth(rest[1..], id, 1, Acquired))
  }

  /** ccspinlock_unlock: recursion > 1 */
  predicate Unlocks(rest: seq<Access>, id: nat)
    decreases |rest|
  {
    rest == [] ||
    (rest[0].ReadDepth? && if rest[0].value > 1 then Shallows(rest[1..], id) else ClearsOwner(rest[1..], id))
  }

  /** recursion-- */
  predicate Shallows(rest: seq<Access>, id: nat)
    decreases |rest|
  {
    rest == [] || (rest[0].ReadDepth? && SetsDepth(rest[1..], id, rest[0].value - 1, Released))
  }

  /** owner_tid = 0; recursion = 0; store(&flag, 0) */
  predicate ClearsOwner(rest: seq<Access>, id: nat)
    decreases |rest|
  {
    rest == [] || (rest[0] == WriteOwner(0) && ClearsDepth(rest[1..], id))
  }

  predicate ClearsDepth(rest: seq<Access>, id: nat)
    decreases |rest|
  {
    rest == [] || (rest[0] == WriteDepth(0) && ClearsFlag(rest[1..], id))
  }

  predicate ClearsFlag(rest: seq<Access>, id: nat)
    decreases |rest|
  {
    rest == [] || (rest[0] == StoreFlag(0) && Returns(rest[1..], id, Released))
  }

  // ---- The accesses of a thread, read off the run ----

  /** The access that a's thread makes; a read or write of owner_tid or flag is at place `at` of its order. */
  function AccessOf(s: State, a: Action): seq<Access>
    requires Inv(s) && a.t < |s.pc| && a.Step?
  {
    var s', t, at := Next(s, a), a.t, a.at;
    match s.pc[t]
    case Idle => []
    case AtOwner(_) => if CanRead(s, t, at) then [ReadOwner(s.order[at])] else []
    case AtOwnerAgain(_) => if CanRead(s, t, at) then [ReadOwner(s.order[at])] else []
    case AtDeeper => [ReadDepth(s.recursion)]
    case AtDeeperWrite(_) => [WriteDepth(s'.recursion)]
    case AtExchange(_) =>
      if CanWriteFlag(s, t, at) && at < |s'.flag| then [Exchange(s.flag[at - 1].value, s'.flag[at].value)] else []
    case AtSetOwner => if s.seen[t] < at < |s'.order| then [WriteOwner(s'.order[at])] else []
    case AtSetRecursion => [WriteDepth(s'.recursion)]
    case AtDepthTest => [ReadDepth(s.recursion)]
    case AtShallower => [ReadDepth(s.recursion)]
    case AtShallowerWrite(_) => [WriteDepth(s'.recursion)]
    case AtClearOwner => if s.seen[t] < at < |s'.order| then [WriteOwner(s'.order[at])] else []
    case AtClearRecursion => [WriteDepth(s'.recursion)]
    case AtClearFlag => if CanWriteFlag(s, t, at) && at < |s'.flag| then [StoreFlag(s'.flag[at].value)] else []
  }

  /** What t does in this action: begin a call, or make an access and perhaps return. */
  function DoneBy(s: State, a: Action, t: nat): seq<Access>
    requires Inv(s) && t < |s.pc|
  {
    if a.t != t then []
    else if a.Step? then
      AccessOf(s, a) + (var answers := AnswerOf(s, a, t); if answers == [] then [] else [Done(answers[0])])
    else
      var calls := CallOf(s, a, t);
      if calls == [] then [] else [Begin(calls[0])]
  }

  function Accesses(s: State, actions: seq<Action>, t: nat): seq<Access>
    requires Inv(s) && t < |s.pc|
    decreases |actions|
  {
    if actions == [] then [] else
    NextInv(s, actions[0]);
    MovesOne(s, actions[0]);
    DoneBy(s, actions[0], t) + Accesses(Next(s, actions[0]), actions[1..], t)
  }

  // ---- Every thread runs the programs ----

  /** The program from where a thread is. */
  predicate From(p: Pc, rest: seq<Access>, id: nat)
  {
    match p
    case Idle => Program(rest, id)
    case AtOwner(retry) => Tries(rest, id, retry)
    case AtOwnerAgain(retry) => Compares(rest, id, retry)
    case AtDeeper => Deepens(rest, id)
    case AtDeeperWrite(value) => SetsDepth(rest, id, value + 1, Acquired)
    case AtExchange(retry) => Swaps(rest, id, retry)
    case AtSetOwner => TakesOver(rest, id)
    case AtSetRecursion => SetsDepth(rest, id, 1, Acquired)
    case AtDepthTest => Unlocks(rest, id)
    case AtShallower => Shallows(rest, id)
    case AtShallowerWrite(value) => SetsDepth(rest, id, value - 1, Released)
    case AtClearOwner => ClearsOwner(rest, id)
    case AtClearRecursion => ClearsDepth(rest, id)
    case AtClearFlag => ClearsFlag(rest, id)
  }

  lemma CheckStep(s: State, a: Action, rest: seq<Access>)
    requires Inv(s) && a.t < |s.pc| && a.Step? && (s.pc[a.t].AtOwner? || s.pc[a.t].AtOwnerAgain?)
    requires From(Next(s, a).pc[a.t], rest, s.ids[a.t])
    ensures From(s.pc[a.t], DoneBy(s, a, a.t) + rest, s.ids[a.t])
  {
    var all := DoneBy(s, a, a.t) + rest;
    if CanRead(s, a.t, a.at) {
      assert all[1..] == rest;
    } else {
      assert all == rest;
    }
  }

  lemma ExchangeDone(s: State, a: Action)
    requires Inv(s) && a.t < |s.pc| && a.Step? && s.pc[a.t].AtExchange? && CanWriteFlag(s, a.t, a.at)
    ensures var previous, p' := s.flag[a.at - 1].value, Next(s, a).pc[a.t];
      && p' == (if previous == 0 then AtSetOwner else if s.pc[a.t].retry then AtOwner(true) else Idle)
      && DoneBy(s, a, a.t) == [Exchange(previous, 1)] + (if p'.Idle? then [Done(Refused)] else [])
  {
    SpinLock.ExchangeStep(s, a.t, a.at);
  }

  lemma ExchangeStep(s: State, a: Action, rest: seq<Access>)
    requires Inv(s) && a.t < |s.pc| && a.Step? && s.pc[a.t].AtExchange?
    requires From(Next(s, a).pc[a.t], rest, s.ids[a.t])
    ensures From(s.pc[a.t], DoneBy(s, a, a.t) + rest, s.ids[a.t])
  {
    var all := DoneBy(s, a, a.t) + rest;
    if CanWriteFlag(s, a.t, a.at) {
      ExchangeDone(s, a);
      if Next(s, a).pc[a.t].Idle? {
        assert all[1..] == [Done(Refused)] + rest && all[1..][1..] == rest;
      } else {
        assert all[1..] == rest;
      }
    } else {
      assert all == rest;
    }
  }

  lemma WriteStep(s: State, a: Action, rest: seq<Access>)
    requires Inv(s) && a.t < |s.pc| && a.Step? && (s.pc[a.t].AtSetOwner? || s.pc[a.t].AtClearOwner?)
    requires From(Next(s, a).pc[a.t], rest, s.ids[a.t])
    ensures From(s.pc[a.t], DoneBy(s, a, a.t) + rest, s.ids[a.t])
  {
    var all := DoneBy(s, a, a.t) + rest;
    if s.seen[a.t] < a.at <= |s.order| {
      assert all[1..] == rest;
    } else {
      assert all == rest;
    }
  }

  /** Steps on recursion that do not return. */
  lemma DepthStep(s: State, a: Action, rest: seq<Access>)
    requires Inv(s) && a.t < |s.pc| && a.Step?
    requires s.pc[a.t].AtDeeper? || s.pc[a.t].AtDepthTest? || s.pc[a.t].AtShallower? || s.pc[a.t].AtClearRecursion?
    requires From(Next(s, a).pc[a.t], rest, s.ids[a.t])
    ensures From(s.pc[a.t], DoneBy(s, a, a.t) + rest, s.ids[a.t])
  {
    assert (DoneBy(s, a, a.t) + rest)[1..] == rest;
  }

  /** Steps that return, other than from an exchange. */
  lemma ReturnStep(s: State, a: Action, rest: seq<Access>)
    requires Inv(s) && a.t < |s.pc| && a.Step?
    requires s.pc[a.t].AtDeeperWrite? || s.pc[a.t].AtSetRecursion? || s.pc[a.t].AtShallowerWrite?
          || s.pc[a.t].AtClearFlag?
    requires From(Next(s, a).pc[a.t], rest, s.ids[a.t])
    ensures From(s.pc[a.t], DoneBy(s, a, a.t) + rest, s.ids[a.t])
  {
    assert ThreadInv(s, a.t);
    var all := DoneBy(s, a, a.t) + rest;
    if s.pc[a.t].AtClearFlag? && !CanWriteFlag(s, a.t, a.at) {
      assert all == rest;
    } else {
      assert all[2..] == rest && all[1..][1..] == all[2..];
    }
  }

  lemma CallStep(s: State, a: Action, rest: seq<Access>)
    requires Inv(s) && a.t < |s.pc| && !a.Step?
    requires a.t < |Next(s, a).pc| && From(Next(s, a).pc[a.t], rest, s.ids[a.t])
    ensures From(s.pc[a.t], DoneBy(s, a, a.t) + rest, s.ids[a.t])
  {
    if MayCall(s, a) {
      assert (DoneBy(s, a, a.t) + rest)[1..] == rest;
    } else {
      assert DoneBy(s, a, a.t) + rest == rest;
    }
  }

  lemma OwnStep(s: State, a: Action, rest: seq<Access>)
    requires Inv(s) && a.t < |s.pc| && a.t < |Next(s, a).pc|
    requires From(Next(s, a).pc[a.t], rest, s.ids[a.t])
    ensures From(s.pc[a.t], DoneBy(s, a, a.t) + rest, s.ids[a.t])
  {
    if !a.Step? {
      CallStep(s, a, rest);
    } else {
      match s.pc[a.t]
      case AtOwner(_) => CheckStep(s, a, rest);
      case AtOwnerAgain(_) => CheckStep(s, a, rest);
      case AtExchange(_) => ExchangeStep(s, a, rest);
      case AtSetOwner => WriteStep(s, a, rest);
      case AtClearOwner => WriteStep(s, a, rest);
      case AtDeeper => DepthStep(s, a, rest);
      case AtDepthTest => DepthStep(s, a, rest);
      case AtShallower => DepthStep(s, a, rest);
      case AtClearRecursion => DepthStep(s, a, rest);
      case Idle => assert DoneBy(s, a, a.t) + rest == rest;
      case _ => ReturnStep(s, a, rest);
    }
  }

  lemma {:induction false} RunsFrom(s: State, actions: seq<Action>, t: nat)
    requires Inv(s) && t < |s.pc|
    ensures From(s.pc[t], Accesses(s, actions, t), s.ids[t])
    decreases |actions|
  {
    if actions != [] {
      var a, s' := actions[0], Next(s, actions[0]);
      NextInv(s, a);
      MovesOne(s, a);
      RunsFrom(s', actions[1..], t);
      if a.t == t {
        OwnStep(s, a, Accesses(s', actions[1..], t));
      } else {
        assert [] + Accesses(s', actions[1..], t) == Accesses(s', actions[1..], t);
      }
    }
  }

  lemma InitHolds(ids: seq<nat>)
    requires Threads.GoodIds(ids)
    ensures Inv(Init(ids)) && |Init(ids).pc| == |ids|
  {
    InitInv(ids);
  }

  /** On every run each thread's accesses, with the values that it reads and writes, are those of the programs of its
      calls, one after another. */
  lemma EachThreadRunsThePrograms(ids: seq<nat>, actions: seq<Action>, t: nat)
    requires Threads.GoodIds(ids) && t < |ids|
    ensures Inv(Init(ids)) && |Init(ids).pc| == |ids|
    ensures Program(Accesses(Init(ids), actions, t), ids[t])
  {
    InitHolds(ids);
    RunsFrom(Init(ids), actions, t);
  }
}
