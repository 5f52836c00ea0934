/** ccthread_once (ccthread.c) under release/acquire.

    The control word is a modification order of messages.  A load may return any message that is not before what
    its thread has already seen.  A store may enter the order anywhere after what its thread has seen, but never
    between an exchange and the message that exchange read.  A message stored with release carries the writer's
    view; an acquire adds the view of the message read; an exchange passes on the view of the message it read
    (the release sequence, section 5.1.2.4 of ISO/IEC 9899:2011).  A view is the set of func's writes that a
    thread is guaranteed to observe. */
module OnceWeakMemory {
  import opened Tally
  import opened Memory
  import Once

  type Pc = Once.Pc

  /** `exchanged` marks a message written by an exchange, tied to the message just before it. */
  datatype Message = Message(value: nat, view: set<nat>, exchanged: bool)

  datatype State = State(
    order: seq<Message>, pc: seq<Pc>, seen: seq<nat>, view: seq<set<nat>>,
    work: nat, starts: nat, completions: nat)

  /** Caller t steps; a load reads position `at`, a write enters the order at position `at`. */
  datatype Action = Action(t: nat, at: nat)

  function Init(n: nat, work: nat): State
  {
    State([Message(0, {}, false)], seq(n, _ => Once.AtLoad), seq(n, _ => 0), seq(n, _ => {}), work, 0, 0)
  }

  /** The view holds everything func writes: one write per step of its body. */
  ghost predicate SeesAll(view: set<nat>, work: nat)
  {
    forall k: nat :: k < work ==> k in view
  }

  predicate WellFormed(s: State)
  {
    |s.seen| == |s.pc| && |s.view| == |s.pc|
  }

  /** A write of t may be placed at this position. */
  predicate CanWriteAt(s: State, t: nat, at: nat)
    requires WellFormed(s) && t < |s.pc|
  {
    s.seen[t] < at <= |s.order| && (at < |s.order| ==> !s.order[at].exchanged)
  }

  function Load(s: State, t: nat, at: nat): State
    requires WellFormed(s) && t < |s.pc|
  {
    if s.seen[t] <= at < |s.order| then
      var m := s.order[at];
      s.(seen := s.seen[t := at], view := s.view[t := s.view[t] + m.view],
         pc := s.pc[t := if m.value < 2 then Once.AtExchange else Once.Returned])
    else s
  }

  function Exchange(s: State, t: nat, at: nat): State
    requires WellFormed(s) && t < |s.pc|
  {
    if CanWriteAt(s, t, at) then
      var m := s.order[at - 1];
      s.(order := Insert(s.order, at, Message(1, m.view, true)), seen := Shift(s.seen, at, t),
         view := s.view[t := s.view[t] + m.view],
         pc := s.pc[t := if m.value == 2 then Once.AtRestore else if m.value != 0 then Once.AtLoad else Once.AtCall])
    else s
  }

  function StoreTwo(s: State, t: nat, at: nat, then_: Pc): State
    requires WellFormed(s) && t < |s.pc|
  {
    if CanWriteAt(s, t, at) then
      s.(order := Insert(s.order, at, Message(2, s.view[t], false)), seen := Shift(s.seen, at, t),
         pc := s.pc[t := then_])
    else s
  }

  function Next(s: State, a: Action): State
  {
    if !WellFormed(s) || a.t >= |s.pc| then s else
    var t := a.t;
    match s.pc[t]
    case AtLoad => Load(s, t, a.at)
    case AtExchange => Exchange(s, t, a.at)
    case AtRestore => StoreTwo(s, t, a.at, Once.Returned)
    case AtCall => s.(pc := s.pc[t := Once.InCall(s.work)], starts := s.starts + 1)
    case InCall(left) =>
      if left > 0 then s.(pc := s.pc[t := Once.InCall(left - 1)], view := s.view[t := s.view[t] + {left - 1}])
      else s.(pc := s.pc[t := Once.AtStore], completions := s.completions + 1)
    case AtStore => StoreTwo(s, t, a.at, Once.AtLoad)
    case Returned => s
  }

  lemma MovesOne(s: State, a: Action)
    ensures var s' := Next(s, a);
      && |s'.pc| == |s.pc| && (WellFormed(s) ==> WellFormed(s')) && s'.work == s.work && s.completions <= s'.completions
      && (forall u :: 0 <= u < |s.pc| && u != a.t ==> s'.pc[u] == s.pc[u])
  {
  }

  function Exec(s: State, actions: seq<Action>): State
    decreases |actions|
  {
    if actions == [] then s else Exec(Next(s, actions[0]), actions[1..])
  }

  function Last(s: State): nat
    requires s.order != []
  {
    s.order[|s.order| - 1].value
  }

  /** The modification order: one 0, then 1s written by exchanges and 2s written by stores, and whatever follows
      a 0 or a 2 is the exchange that read it. */
  ghost predicate OrderInv(s: State)
  {
    && s.order != [] && s.order[0] == Message(0, {}, false)
    && (forall k :: 0 < k < |s.order| ==>
          && (s.order[k].value == 1 || s.order[k].value == 2)
          && (s.order[k].exchanged <==> s.order[k].value == 1)
          && (s.order[k].value == 2 ==> SeesAll(s.order[k].view, s.work) && s.completions == 1))
    && (forall k :: 0 < k < |s.order| && !s.order[k].exchanged ==> s.order[k - 1].value == 1)
  }

  ghost predicate CallerInv(s: State, t: nat)
    requires WellFormed(s) && t < |s.pc|
  {
    var p := s.pc[t];
    && s.seen[t] < |s.order|
    && (Once.Owes(p) ==> forall k :: s.seen[t] < k < |s.order| ==> s.order[k].exchanged)
    && (p.AtCall? ==> s.starts == 0)
    && (p.InCall? ==> s.starts == 1 && s.completions == 0 && p.left <= s.work)
    && (p.InCall? ==> forall k: nat :: p.left <= k < s.work ==> k in s.view[t])
    && (Once.AfterCall(p) ==> s.completions == 1 && SeesAll(s.view[t], s.work))
  }

  ghost predicate Inv(s: State)
  {
    && WellFormed(s)
    && OrderInv(s)
    && Sum(s.pc, Once.Token) == (if Last(s) == 1 then 1 else 0)
    && s.completions <= s.starts <= 1
    && (|s.order| == 1 ==> s.starts == 0)
    && forall t :: 0 <= t < |s.pc| ==> CallerInv(s, t)
  }

  lemma InitInv(n: nat, work: nat)
    ensures Inv(Init(n, work))
  {
    SumConstant(Init(n, work).pc, Once.Token, 0);
  }

  lemma TokenUnique(s: State, t: nat)
    requires Inv(s) && t < |s.pc| && Once.Owes(s.pc[t])
    ensures Last(s) == 1
    ensures forall u :: 0 <= u < |s.pc| && Once.Owes(s.pc[u]) ==> u == t
  {
    SumAtLeast(s.pc, Once.Token, t);
    forall u | 0 <= u < |s.pc| && Once.Owes(s.pc[u]) && u != t
      ensures false
    {
      SumAtLeastTwo(s.pc, Once.Token, t, u);
    }
  }

  /** The obliged caller's store of 2 has only one place to go: the end of the modification order. */
  lemma StoreGoesLast(s: State, t: nat, at: nat)
    requires Inv(s) && t < |s.pc| && Once.Owes(s.pc[t]) && CanWriteAt(s, t, at)
    ensures at == |s.order|
  {
    assert CallerInv(s, t);
  }

  /** An exchange that does not go last has read a 1, so it only sends its caller round again. */
  lemma StaleExchangeReadsOne(s: State, t: nat, at: nat)
    requires Inv(s) && t < |s.pc| && CanWriteAt(s, t, at) && at < |s.order|
    ensures s.order[at - 1].value == 1
  {
  }

  lemma LoadInv(s: State, t: nat, at: nat)
    requires Inv(s) && t < |s.pc| && s.pc[t].AtLoad?
    ensures Inv(Load(s, t, at))
  {
    SumUpdate(s.pc, Once.Token, t, Load(s, t, at).pc[t]);
    forall u | 0 <= u < |s.pc|
      ensures CallerInv(Load(s, t, at), u)
    {
      assert CallerInv(s, u);
    }
  }

  lemma ExchangeKeepsOrder(s: State, t: nat, at: nat)
    requires Inv(s) && t < |s.pc| && s.pc[t].AtExchange? && CanWriteAt(s, t, at)
    ensures OrderInv(Exchange(s, t, at))
  {
    InsertKeeps(s.order, at, Message(1, s.order[at - 1].view, true));
  }

  lemma ExchangeKeepsCaller(s: State, t: nat, at: nat, u: nat)
    requires Inv(s) && t < |s.pc| && s.pc[t].AtExchange? && CanWriteAt(s, t, at) && u < |s.pc|
    ensures WellFormed(Exchange(s, t, at)) && |Exchange(s, t, at).pc| == |s.pc|
    ensures CallerInv(Exchange(s, t, at), u)
  {
    InsertKeeps(s.order, at, Message(1, s.order[at - 1].view, true));
    assert CallerInv(s, u) && CallerInv(s, t);
    if u != t && Once.Owes(s.pc[u]) {
      TokenUnique(s, u);
    }
    if u == t && at < |s.order| {
      StaleExchangeReadsOne(s, t, at);
    }
  }

  lemma ExchangeInv(s: State, t: nat, at: nat)
    requires Inv(s) && t < |s.pc| && s.pc[t].AtExchange?
    ensures Inv(Exchange(s, t, at))
  {
    if CanWriteAt(s, t, at) {
      ExchangeKeepsOrder(s, t, at);
      InsertKeeps(s.order, at, Message(1, s.order[at - 1].view, true));
      SumUpdate(s.pc, Once.Token, t, Exchange(s, t, at).pc[t]);
      if at < |s.order| {
        StaleExchangeReadsOne(s, t, at);
      }
      forall u | 0 <= u < |s.pc|
        ensures CallerInv(Exchange(s, t, at), u)
      {
        ExchangeKeepsCaller(s, t, at, u);
      }
    }
  }

  lemma StoreInv(s: State, t: nat, at: nat, then_: Pc)
    requires Inv(s) && t < |s.pc| && Once.AfterCall(s.pc[t]) && Once.Owes(s.pc[t])
    requires then_.AtLoad? || then_.Returned?
    ensures Inv(StoreTwo(s, t, at, then_))
  {
    if CanWriteAt(s, t, at) {
      assert CallerInv(s, t);
      StoreGoesLast(s, t, at);
      TokenUnique(s, t);
      var s' := StoreTwo(s, t, at, then_);
      InsertKeeps(s.order, at, Message(2, s.view[t], false));
      SumUpdate(s.pc, Once.Token, t, then_);
      forall u | 0 <= u < |s.pc|
        ensures CallerInv(s', u)
      {
        assert CallerInv(s, u);
      }
    }
  }

  lemma CallInv(s: State, a: Action)
    requires Inv(s) && a.t < |s.pc| && (s.pc[a.t].AtCall? || s.pc[a.t].InCall?)
    ensures Inv(Next(s, a))
  {
    var s' := Next(s, a);
    assert CallerInv(s, a.t);
    SumUpdate(s.pc, Once.Token, a.t, s'.pc[a.t]);
    TokenUnique(s, a.t);
    forall u | 0 <= u < |s.pc|
      ensures CallerInv(s', u)
    {
      assert CallerInv(s, u);
    }
  }

  lemma NextInv(s: State, a: Action)
    requires Inv(s)
    ensures Inv(Next(s, a))
  {
    if a.t < |s.pc| {
      match s.pc[a.t]
      case AtLoad => LoadInv(s, a.t, a.at);
      case AtExchange => ExchangeInv(s, a.t, a.at);
      case AtRestore => StoreInv(s, a.t, a.at, Once.Returned);
      case AtStore => StoreInv(s, a.t, a.at, Once.AtLoad);
      case AtCall => CallInv(s, a);
      case InCall(_) => CallInv(s, a);
      case Returned =>
    }
  }

  lemma {:induction false} ExecInv(s: State, actions: seq<Action>)
    requires Inv(s)
    ensures Inv(Exec(s, actions)) && |Exec(s, actions).pc| == |s.pc| && Exec(s, actions).work == s.work
    decreases |actions|
  {
    if actions != [] {
      NextInv(s, actions[0]);
      ExecInv(Next(s, actions[0]), actions[1..]);
    }
  }

  // ---- The calls of func, read off the run ----

  /** The moves of the stepping callers, in order. */
  function Moves(s: State, actions: seq<Action>): seq<Once.Move>
    decreases |actions|
  {
    if actions == [] then [] else
    var t, s' := actions[0].t, Next(s, actions[0]);
    (if t < |s.pc| && t < |s'.pc| then [Once.Move(s.pc[t], s'.pc[t])] else []) + Moves(s', actions[1..])
  }

  function ProgressOf(s: State): Once.Progress
  {
    Once.Progress(s.starts, s.completions, Once.MadeInAll(s.pc, s.work, s.completions))
  }

  lemma MoveEffect(s: State, a: Action)
    requires Inv(s) && a.t < |s.pc|
    ensures var s' := Next(s, a);
      && s'.pc == s.pc[a.t := s'.pc[a.t]] && s'.work == s.work &&
      var p, p' := s.pc[a.t], s'.pc[a.t];
      && s'.starts == s.starts + (if !p.InCall? && p'.InCall? then 1 else 0)
      && s'.completions == s.completions + (if p.InCall? && !p'.InCall? then 1 else 0)
      && Once.Made(p', s.work) + (if p.InCall? && !p'.InCall? then s.work else 0)
         == Once.Made(p, s.work) + (if p.InCall? && p'.InCall? then 1 else 0)
      && (p.InCall? && !p'.InCall? ==> s.completions == 0)
  {
    assert CallerInv(s, a.t);
  }

  lemma MoveCounted(s: State, a: Action)
    requires Inv(s) && a.t < |s.pc|
    ensures |Next(s, a).pc| == |s.pc|
    ensures Once.Accounts(ProgressOf(s), [Once.Move(s.pc[a.t], Next(s, a).pc[a.t])], ProgressOf(Next(s, a)))
  {
    MoveEffect(s, a);
    SumUpdate(s.pc, (p: Pc) => Once.Made(p, s.work), a.t, Next(s, a).pc[a.t]);
    assert [Once.Move(s.pc[a.t], Next(s, a).pc[a.t])][1..] == [];
  }

  lemma {:induction false} MovesCounted(s: State, actions: seq<Action>)
    requires Inv(s)
    ensures Once.Accounts(ProgressOf(s), Moves(s, actions), ProgressOf(Exec(s, actions)))
    decreases |actions|
  {
    if actions != [] {
      var a, s' := actions[0], Next(s, actions[0]);
      NextInv(s, a);
      MovesCounted(s', actions[1..]);
      if a.t < |s.pc| {
        MoveCounted(s, a);
        Once.AccountsAdd(ProgressOf(s), Once.Move(s.pc[a.t], s'.pc[a.t]), ProgressOf(s'), Moves(s', actions[1..]),
                         ProgressOf(Exec(s, actions)));
      } else {
        assert Moves(s, actions) == Moves(s', actions[1..]);
      }
    }
  }

  /** Visibility: with stale loads and displaced writes, func is still entered at most once, and by the time a caller
      has returned it has been entered and left once with all its work done, and the caller is guaranteed to observe
      all of func's writes, even when the 2 it read came through a chain of callers that overwrote and restored it. */
  lemma ReturnedSeesInitialisation(n: nat, work: nat, actions: seq<Action>)
    ensures var s, moves := Exec(Init(n, work), actions), Moves(Init(n, work), actions);
      && s.starts == Once.Entries(moves) <= 1
      && |s.pc| == n && |s.view| == n
      && (forall t :: 0 <= t < n && s.pc[t].Returned? ==>
            && Once.Entries(moves) == 1 && Once.Exits(moves) == 1 && Once.BodySteps(moves) == work
            && SeesAll(s.view[t], work))
  {
    InitInv(n, work);
    ExecInv(Init(n, work), actions);
    MovesCounted(Init(n, work), actions);
    Once.MadeWhenQuiet(Init(n, work).pc, work, 0);
    var s := Exec(Init(n, work), actions);
    forall t | 0 <= t < n && s.pc[t].Returned?
      ensures s.completions == 1 && SeesAll(s.view[t], work)
    {
      assert CallerInv(s, t);
    }
    if s.completions == 1 {
      forall t | 0 <= t < n
        ensures !s.pc[t].InCall?
      {
        assert CallerInv(s, t);
      }
      Once.MadeWhenQuiet(s.pc, work, 1);
    }
  }

  // ---- Each caller runs the program ----

  /** The access that t makes; a load reads entry `at`, an exchange the entry before its own. */
  function AccessOf(s: State, a: Action): seq<Once.Access>
    requires WellFormed(s) && a.t < |s.pc|
  {
    var s' := Next(s, a);
    match s.pc[a.t]
    case AtLoad => if s.seen[a.t] <= a.at < |s.order| then [Once.Load(s.order[a.at].value)] else []
    case AtExchange =>
      if CanWriteAt(s, a.t, a.at) then [Once.Exchange(s.order[a.at - 1].value, s'.order[a.at].value)] else []
    case AtRestore => if CanWriteAt(s, a.t, a.at) then [Once.Store(s'.order[a.at].value)] else []
    case AtCall => [Once.Enter]
    case InCall(_) => if s'.pc[a.t].InCall? then [Once.Work] else [Once.Leave]
    case AtStore => if CanWriteAt(s, a.t, a.at) then [Once.Store(s'.order[a.at].value)] else []
    case Returned => []
  }

  /** t's accesses during the run, in order. */
  function Accesses(s: State, actions: seq<Action>, t: nat): seq<Once.Access>
    decreases |actions|
  {
    if actions == [] then [] else
    (if actions[0].t == t && WellFormed(s) && t < |s.pc| then AccessOf(s, actions[0]) else [])
    + Accesses(Next(s, actions[0]), actions[1..], t)
  }

  lemma StepOfProgram(s: State, a: Action, rest: seq<Once.Access>, ended: bool)
    requires WellFormed(s) && a.t < |s.pc| && a.t < |Next(s, a).pc|
    requires Once.From(Next(s, a).pc[a.t], rest, s.work, ended)
    ensures Once.From(s.pc[a.t], AccessOf(s, a) + rest, s.work, ended)
  {
    var all := AccessOf(s, a) + rest;
    assert AccessOf(s, a) == [] ==> all == rest;
    assert AccessOf(s, a) != [] ==> all[1..] == rest && (rest == [] ==> all == [all[0]]);
  }

  lemma {:induction false} RunsFrom(s: State, actions: seq<Action>, t: nat)
    requires WellFormed(s) && t < |s.pc|
    ensures |Exec(s, actions).pc| == |s.pc|
    ensures Once.From(s.pc[t], Accesses(s, actions, t), s.work, Exec(s, actions).pc[t].Returned?)
    decreases |actions|
  {
    if actions != [] {
      var a, s' := actions[0], Next(s, actions[0]);
      MovesOne(s, a);
      RunsFrom(s', actions[1..], t);
      if a.t == t {
        StepOfProgram(s, a, Accesses(s', actions[1..], t), Exec(s, actions).pc[t].Returned?);
      } else {
        assert Accesses(s, actions, t) == Accesses(s', actions[1..], t);
      }
    }
  }

  /** Here too each caller's accesses, with the possibly stale values that it reads, are those of the source's loop. */
  lemma EachCallerRunsTheProgram(n: nat, work: nat, actions: seq<Action>, t: nat)
    requires t < n
    ensures var s := Exec(Init(n, work), actions);
      |s.pc| == n && Once.Loop(Accesses(Init(n, work), actions, t), work, s.pc[t].Returned?)
  {
    RunsFrom(Init(n, work), actions, t);
  }

  /** How weak this memory is.  Caller 0 has run func and stored its 2; caller 1 then loads the 0 that was there before,
      and its exchange goes between the winner's exchange and the 2: it reads a 1 and goes round again. */
  lemma CallersCanLagBehind()
    ensures var winner := [Action(0, 0), Action(0, 1), Action(0, 0), Action(0, 0), Action(0, 2)];
      var late := [Action(1, 0), Action(1, 2)];
      var s := Exec(Init(2, 0), winner);
      && s.order != [] && Last(s) == 2
      && Accesses(s, late, 1) == [Once.Load(0), Once.Exchange(1, 1)]
      && Exec(s, late).pc == [Once.AtLoad, Once.AtLoad]
      && Exec(s, late).order != [] && Last(Exec(s, late)) == 2
  {
    WinnerStores();
    LateCallerMisses();
  }

  const DONE := State([Message(0, {}, false), Message(1, {}, true), Message(2, {}, false)],
                      [Once.AtLoad, Once.AtLoad], [2, 0], [{}, {}], 0, 1, 1)

  lemma WinnerStores()
    ensures Exec(Init(2, 0), [Action(0, 0), Action(0, 1), Action(0, 0), Action(0, 0), Action(0, 2)]) == DONE
  {
    var s := Init(2, 0);
    var s1 := Next(s, Action(0, 0));
    assert s1.view[0] == {} + {} == {} && s1.view[1] == {} && s1.view == s.view && s1.seen == s.seen;
    assert s1 == s.(pc := [Once.AtExchange, Once.AtLoad]);
    var s2 := Next(s1, Action(0, 1));
    assert CanWriteAt(s1, 0, 1) && s1.view == [{}, {}] && s1.order == [Message(0, {}, false)];
    assert s2.view[0] == {} + {} == {} && s2.view[1] == {} && s2.view == [{}, {}];
    assert s2.order == DONE.order[..2] && s2.seen == [1, 0];
    assert s2 == s1.(order := DONE.order[..2], seen := [1, 0], pc := [Once.AtCall, Once.AtLoad]);
    var s4 := Next(Next(s2, Action(0, 0)), Action(0, 0));
    assert s4 == s2.(pc := [Once.AtStore, Once.AtLoad], starts := 1, completions := 1);
    assert Next(s4, Action(0, 2)) == DONE;
    assert Exec(s4, [Action(0, 2)]) == DONE;
    assert Exec(s2, [Action(0, 0), Action(0, 0), Action(0, 2)]) == DONE;
  }

  lemma LateCallerMisses()
    ensures var late := [Action(1, 0), Action(1, 2)];
      && Accesses(DONE, late, 1) == [Once.Load(0), Once.Exchange(1, 1)]
      && Exec(DONE, late).pc == [Once.AtLoad, Once.AtLoad]
      && Exec(DONE, late).order != [] && Last(Exec(DONE, late)) == 2
  {
    var late := [Action(1, 0), Action(1, 2)];
    var s1 := Next(DONE, late[0]);
    assert s1.view[1] == {} + {} == {} && s1.view[0] == {} && s1.view == DONE.view && s1.seen == DONE.seen;
    assert s1 == DONE.(pc := [Once.AtLoad, Once.AtExchange]);
    var s2 := Next(s1, late[1]);
    assert s2.order == DONE.order[..2] + [Message(1, {}, true)] + DONE.order[2..] && s2.pc == DONE.pc;
    assert AccessOf(DONE, late[0]) == [Once.Load(0)] && AccessOf(s1, late[1]) == [Once.Exchange(1, 1)];
    assert late[1..] == [late[1]] && [late[1]][1..] == [];
    assert Accesses(s1, [late[1]], 1) == [Once.Exchange(1, 1)] + Accesses(s2, [], 1) == [Once.Exchange(1, 1)];
    assert Exec(s1, [late[1]]) == s2;
  }

  // ---- Nothing is seen that has not been written ----

  /** Write k of func has been made. */
  predicate Written(s: State, k: nat)
  {
    k < s.work && (s.completions == 1 || exists t :: 0 <= t < |s.pc| && s.pc[t].InCall? && s.pc[t].left <= k)
  }

  /** All that is in the view has been written. */
  ghost predicate Sound(s: State, view: set<nat>)
  {
    forall k :: k in view ==> Written(s, k)
  }

  ghost predicate AllSound(s: State, view: seq<set<nat>>, order: seq<Message>)
  {
    && (forall t :: 0 <= t < |view| ==> Sound(s, view[t]))
    && (forall i :: 0 <= i < |order| ==> Sound(s, order[i].view))
  }

  lemma WrittenStays(s: State, a: Action, k: nat)
    requires Inv(s) && Written(s, k)
    ensures Written(Next(s, a), k)
  {
    var s' := Next(s, a);
    MovesOne(s, a);
    NextInv(s, a);
    if s.completions != 1 {
      var t :| 0 <= t < |s.pc| && s.pc[t].InCall? && s.pc[t].left <= k;
      assert CallerInv(s, t);
      if t == a.t && s.pc[t].left == 0 {
        assert s'.completions == 1;
      } else {
        assert s'.pc[t].InCall? && s'.pc[t].left <= k;
      }
    }
  }

  /** Loads, exchanges and stores only move around what has been seen before. */
  lemma AccessesSpread(s: State, a: Action)
    requires AllSound(s, s.view, s.order) && a.t < |s.pc| && !s.pc[a.t].InCall?
    ensures AllSound(s, Next(s, a).view, Next(s, a).order)
  {
  }

  lemma WritesAdd(s: State, a: Action)
    requires Inv(s) && AllSound(s, s.view, s.order) && a.t < |s.pc| && s.pc[a.t].InCall? && s.pc[a.t].left > 0
    ensures var s' := Next(s, a);
      s'.order == s.order && forall t :: 0 <= t < |s'.view| && t != a.t ==> Sound(s, s'.view[t])
    ensures var s' := Next(s, a);
      a.t < |s'.view| && forall k :: k in s'.view[a.t] ==> Written(s, k) || (k == s.pc[a.t].left - 1 && Written(s', k))
  {
    var s' := Next(s, a);
    assert CallerInv(s, a.t) && Sound(s, s.view[a.t]);
    assert s'.pc[a.t] == Once.InCall(s.pc[a.t].left - 1) && s'.work == s.work;
    assert Written(s', s.pc[a.t].left - 1);
  }

  lemma NextSound(s: State, a: Action)
    requires Inv(s) && AllSound(s, s.view, s.order)
    ensures AllSound(Next(s, a), Next(s, a).view, Next(s, a).order)
  {
    if a.t < |s.pc| {
      forall k: nat | Written(s, k)
        ensures Written(Next(s, a), k)
      {
        WrittenStays(s, a, k);
      }
      if s.pc[a.t].InCall? {
        if s.pc[a.t].left > 0 {
          WritesAdd(s, a);
        }
      } else {
        AccessesSpread(s, a);
      }
    }
  }

  lemma {:induction false} ExecSound(s: State, actions: seq<Action>)
    requires Inv(s) && AllSound(s, s.view, s.order)
    ensures AllSound(Exec(s, actions), Exec(s, actions).view, Exec(s, actions).order)
    decreases |actions|
  {
    if actions != [] {
      NextInv(s, actions[0]);
      NextSound(s, actions[0]);
      ExecSound(Next(s, actions[0]), actions[1..]);
    }
  }

  /** The views are not wishful: a caller is only ever said to observe a write that func has made. */
  lemma SeesOnlyWritten(n: nat, work: nat, actions: seq<Action>)
    ensures var s := Exec(Init(n, work), actions);
      |s.view| == n && forall t :: 0 <= t < n ==> Sound(s, s.view[t])
  {
    InitInv(n, work);
    ExecInv(Init(n, work), actions);
    ExecSound(Init(n, work), actions);
  }

  // ---- An exchange has nothing of its own to publish ----

  /** What may be seen grows along the modification order. */
  ghost predicate Grows(order: seq<Message>)
  {
    forall i, j :: 0 <= i <= j < |order| ==> order[i].view <= order[j].view
  }

  /** A caller that owes no store has seen no more than the message it has come to, one that does all there is. */
  ghost predicate Follows(order: seq<Message>, view: set<nat>, seen: nat, owes: bool)
  {
    seen < |order| &&
    if owes then forall i :: 0 <= i < |order| ==> order[i].view <= view else view <= order[seen].view
  }

  ghost predicate ViewsFollow(s: State)
  {
    && WellFormed(s) && Grows(s.order)
    && forall t :: 0 <= t < |s.pc| ==> Follows(s.order, s.view[t], s.seen[t], Once.Owes(s.pc[t]))
  }

  /** A message that passes on the view before it. */
  lemma InsertGrows(order: seq<Message>, at: nat, m: Message)
    requires Grows(order) && 0 < at <= |order| && m.view == order[at - 1].view
    ensures Grows(Insert(order, at, m))
  {
    InsertKeeps(order, at, m);
    forall i, j | 0 <= i <= j <= |order|
      ensures Insert(order, at, m)[i].view <= Insert(order, at, m)[j].view
    {
      assert order[if i < at then i else i - 1].view <= order[if j < at then j else j - 1].view;
    }
  }

  lemma InsertFollows(order: seq<Message>, at: nat, m: Message, view: set<nat>, seen: nat, owes: bool)
    requires Follows(order, view, seen, owes) && 0 < at <= |order| && m.view == order[at - 1].view
    ensures Follows(Insert(order, at, m), view, if seen >= at then seen + 1 else seen, owes)
  {
    InsertKeeps(order, at, m);
  }

  lemma LoadFollows(s: State, t: nat, at: nat)
    requires Inv(s) && ViewsFollow(s) && t < |s.pc| && s.pc[t].AtLoad?
    ensures ViewsFollow(Load(s, t, at))
  {
    assert Follows(s.order, s.view[t], s.seen[t], false);
  }

  lemma ExchangeFollowsOwn(s: State, t: nat, at: nat)
    requires Inv(s) && ViewsFollow(s) && t < |s.pc| && s.pc[t].AtExchange? && CanWriteAt(s, t, at)
    ensures var s' := Exchange(s, t, at);
      && |s'.pc| == |s.pc| && WellFormed(s') && s'.order == Insert(s.order, at, Message(1, s.order[at - 1].view, true))
      && Follows(s'.order, s'.view[t], s'.seen[t], Once.Owes(s'.pc[t]))
  {
    var m := Message(1, s.order[at - 1].view, true);
    assert Follows(s.order, s.view[t], s.seen[t], false);
    assert s.view[t] <= s.order[at - 1].view;
    assert s.view[t] + m.view == m.view;
    InsertKeeps(s.order, at, m);
    if at < |s.order| {
      StaleExchangeReadsOne(s, t, at);
    }
  }

  lemma ExchangeFollows(s: State, t: nat, at: nat)
    requires Inv(s) && ViewsFollow(s) && t < |s.pc| && s.pc[t].AtExchange?
    ensures ViewsFollow(Exchange(s, t, at))
  {
    if CanWriteAt(s, t, at) {
      var s' := Exchange(s, t, at);
      var m := Message(1, s.order[at - 1].view, true);
      ExchangeFollowsOwn(s, t, at);
      InsertGrows(s.order, at, m);
      forall u | 0 <= u < |s.pc|
        ensures Follows(s'.order, s'.view[u], s'.seen[u], Once.Owes(s'.pc[u]))
      {
        if u != t {
          InsertFollows(s.order, at, m, s.view[u], s.seen[u], Once.Owes(s.pc[u]));
        }
      }
    }
  }

  lemma StoreFollows(s: State, t: nat, at: nat, then_: Pc)
    requires Inv(s) && ViewsFollow(s) && t < |s.pc| && Once.Owes(s.pc[t]) && !Once.Owes(then_)
    ensures ViewsFollow(StoreTwo(s, t, at, then_))
  {
    if CanWriteAt(s, t, at) {
      assert CallerInv(s, t) && Follows(s.order, s.view[t], s.seen[t], true);
      StoreGoesLast(s, t, at);
      TokenUnique(s, t);
      var s' := StoreTwo(s, t, at, then_);
      InsertKeeps(s.order, at, Message(2, s.view[t], false));
      forall u | 0 <= u < |s.pc|
        ensures Follows(s'.order, s'.view[u], s'.seen[u], Once.Owes(s'.pc[u]))
      {
        assert Follows(s.order, s.view[u], s.seen[u], Once.Owes(s.pc[u]));
      }
    }
  }

  lemma CallFollows(s: State, a: Action)
    requires Inv(s) && ViewsFollow(s) && a.t < |s.pc| && (s.pc[a.t].AtCall? || s.pc[a.t].InCall?)
    ensures ViewsFollow(Next(s, a))
  {
    assert Follows(s.order, s.view[a.t], s.seen[a.t], true);
  }

  lemma NextFollows(s: State, a: Action)
    requires Inv(s) && ViewsFollow(s)
    ensures ViewsFollow(Next(s, a))
  {
    if a.t < |s.pc| {
      match s.pc[a.t]
      case AtLoad => LoadFollows(s, a.t, a.at);
      case AtExchange => ExchangeFollows(s, a.t, a.at);
      case AtRestore => StoreFollows(s, a.t, a.at, Once.Returned);
      case AtStore => StoreFollows(s, a.t, a.at, Once.AtLoad);
      case AtCall => CallFollows(s, a);
      case InCall(_) => CallFollows(s, a);
      case Returned =>
    }
  }

  lemma {:induction false} ExecFollows(s: State, actions: seq<Action>)
    requires Inv(s) && ViewsFollow(s)
    ensures ViewsFollow(Exec(s, actions))
    decreases |actions|
  {
    if actions != [] {
      NextInv(s, actions[0]);
      NextFollows(s, actions[0]);
      ExecFollows(Next(s, actions[0]), actions[1..]);
    }
  }

  /** Why acquire is enough for the exchange: wherever it goes, the message that it reads already carries all that its
      caller has seen, so a release would add nothing to the message it writes. */
  lemma ExchangeNeedsNoRelease(n: nat, work: nat, actions: seq<Action>, t: nat, at: nat)
    requires t < n
    ensures var s := Exec(Init(n, work), actions);
      && WellFormed(s) && |s.pc| == n
      && (s.pc[t].AtExchange? && CanWriteAt(s, t, at) ==> s.view[t] <= s.order[at - 1].view)
  {
    InitInv(n, work);
    ExecInv(Init(n, work), actions);
    ExecFollows(Init(n, work), actions);
    var s := Exec(Init(n, work), actions);
    assert Follows(s.order, s.view[t], s.seen[t], Once.Owes(s.pc[t]));
  }

  // ---- Sequential consistency is one of these behaviours ----

  /** Every load reads the last message and every write goes last. */
  function Latest(s: State, t: nat): Action
  {
    Action(t, if t < |s.pc| && s.pc[t].AtLoad? && s.order != [] then |s.order| - 1 else |s.order|)
  }

  ghost predicate Related(weak: State, strong: Once.State)
  {
    && weak.order != [] && Last(weak) == strong.cell && weak.pc == strong.pc && weak.work == strong.work
    && weak.starts == strong.starts && weak.completions == strong.completions
  }

  /** Each run of the sequentially consistent machine is a run of this one. */
  lemma {:induction false} SequentialRunsAreWeakRuns(weak: State, strong: Once.State, schedule: seq<nat>)
      returns (actions: seq<Action>)
    requires Inv(weak) && Related(weak, strong)
    ensures |actions| == |schedule| && forall i :: 0 <= i < |schedule| ==> actions[i].t == schedule[i]
    ensures Related(Exec(weak, actions), Once.Exec(strong, schedule))
    decreases |schedule|
  {
    if schedule == [] {
      actions := [];
    } else {
      var t := schedule[0];
      var a := Latest(weak, t);
      NextInv(weak, a);
      if t < |weak.pc| {
        assert CallerInv(weak, t);
      }
      var rest := SequentialRunsAreWeakRuns(Next(weak, a), Once.Next(strong, t), schedule[1..]);
      actions := [a] + rest;
      assert actions[1..] == rest;
    }
  }
}
