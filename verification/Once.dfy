/** ccthread_once (ccthread.c) under sequential consistency.

    The control cell holds 0 (fresh), 1 (in progress) or 2 (done).  The code uses a plain exchange where a
    compare-and-swap would be expected, so a late caller can overwrite 2 with 1 and has to put the 2 back: "done"
    is not stable.  One entry of `pc` per caller; one transition per access to the cell. */
module Once {
  import opened Tally

  datatype Pc =
    | AtLoad              // about to evaluate the loop guard
    | AtExchange          // about to exchange 1 into the cell
    | AtRestore           // overwrote a 2; about to store it back and leave
    | AtCall              // won the cell; about to call func
    | InCall(left: nat)   // inside func, `left` of its own steps still to go
    | AtStore             // func has returned; about to store 2
    | Returned

  /** `work` is the number of steps func takes; `starts` and `completions` count its calls. */
  datatype State = State(cell: nat, pc: seq<Pc>, work: nat, starts: nat, completions: nat)

  function Init(n: nat, work: nat): State
  {
    State(0, seq(n, _ => AtLoad), work, 0, 0)
  }

  /** Caller t takes one step; a caller that has returned, or does not exist, does nothing. */
  function Next(s: State, t: nat): State
  {
    if t >= |s.pc| then s else
    match s.pc[t]
    case AtLoad => s.(pc := s.pc[t := if s.cell < 2 then AtExchange else Returned])
    case AtExchange =>
      s.(cell := 1, pc := s.pc[t := if s.cell == 2 then AtRestore else if s.cell != 0 then AtLoad else AtCall])
    case AtRestore => s.(cell := 2, pc := s.pc[t := Returned])
    case AtCall => s.(pc := s.pc[t := InCall(s.work)], starts := s.starts + 1)
    case InCall(left) =>
      if left > 0 then s.(pc := s.pc[t := InCall(left - 1)])
      else s.(pc := s.pc[t := AtStore], completions := s.completions + 1)
    case AtStore => s.(cell := 2, pc := s.pc[t := AtLoad])
    case Returned => s
  }

  function Exec(s: State, schedule: seq<nat>): State
    decreases |schedule|
  {
    if schedule == [] then s else Exec(Next(s, schedule[0]), schedule[1..])
  }

  // ---- The token argument ----

  /** A caller at one of these points is obliged to store 2. */
  predicate Owes(p: Pc)
  {
    p.AtRestore? || p.AtCall? || p.InCall? || p.AtStore?
  }

  function Token(p: Pc): nat
  {
    if Owes(p) then 1 else 0
  }

  /** Points only reachable once func has completed. */
  predicate AfterCall(p: Pc)
  {
    p.AtRestore? || p.AtStore? || p.Returned?
  }

  ghost predicate Inv(s: State)
  {
    && s.cell <= 2
    && Sum(s.pc, Token) == (if s.cell == 1 then 1 else 0)
    && s.completions <= s.starts <= 1
    && (s.cell == 0 ==> s.starts == 0)
    && (s.cell == 2 ==> s.completions == 1)
    && (forall i :: 0 <= i < |s.pc| ==>
          && (s.pc[i].AtCall? ==> s.starts == 0)
          && (s.pc[i].InCall? ==> s.starts == 1 && s.completions == 0 && s.pc[i].left <= s.work)
          && (AfterCall(s.pc[i]) ==> s.completions == 1))
  }

  lemma InitInv(n: nat, work: nat)
    ensures Inv(Init(n, work))
  {
    SumConstant(Init(n, work).pc, Token, 0);
  }

  /** Whoever owes the store is alone, and the cell says so. */
  lemma TokenUnique(s: State, t: nat)
    requires Inv(s) && t < |s.pc| && Owes(s.pc[t])
    ensures s.cell == 1
    ensures forall u :: 0 <= u < |s.pc| && Owes(s.pc[u]) ==> u == t
  {
    SumAtLeast(s.pc, Token, t);
    forall u | 0 <= u < |s.pc| && Owes(s.pc[u]) && u != t
      ensures false
    {
      SumAtLeastTwo(s.pc, Token, t, u);
    }
  }

  lemma NextInv(s: State, t: nat)
    requires Inv(s)
    ensures Inv(Next(s, t))
    ensures s.cell != 0 ==> Next(s, t).cell != 0
    ensures s.starts <= Next(s, t).starts && s.completions <= Next(s, t).completions
  {
    if t < |s.pc| {
      SumUpdate(s.pc, Token, t, Next(s, t).pc[t]);
      if Owes(s.pc[t]) {
        TokenUnique(s, t);
      }
    }
  }

  lemma {:induction false} ExecInv(s: State, schedule: seq<nat>)
    requires Inv(s)
    ensures Inv(Exec(s, schedule))
    ensures s.cell != 0 ==> Exec(s, schedule).cell != 0
    ensures |Exec(s, schedule).pc| == |s.pc| && Exec(s, schedule).work == s.work
    decreases |schedule|
  {
    if schedule != [] {
      NextInv(s, schedule[0]);
      ExecInv(Next(s, schedule[0]), schedule[1..]);
    }
  }

  // ---- The calls of func, read off the run ----

  /** A caller goes from one place to another. */
  datatype Move = Move(before: Pc, after: Pc)

  /** The moves of the scheduled callers, in order. */
  function Moves(s: State, schedule: seq<nat>): seq<Move>
    decreases |schedule|
  {
    if schedule == [] then [] else
    var t, s' := schedule[0], Next(s, schedule[0]);
    (if t < |s.pc| && t < |s'.pc| then [Move(s.pc[t], s'.pc[t])] else []) + Moves(s', schedule[1..])
  }

  function Entries(moves: seq<Move>): nat
  {
    if moves == [] then 0
    else (if !moves[0].before.InCall? && moves[0].after.InCall? then 1 else 0) + Entries(moves[1..])
  }

  function Exits(moves: seq<Move>): nat
  {
    if moves == [] then 0
    else (if moves[0].before.InCall? && !moves[0].after.InCall? then 1 else 0) + Exits(moves[1..])
  }

  /** Steps made inside func. */
  function BodySteps(moves: seq<Move>): nat
  {
    if moves == [] then 0
    else (if moves[0].before.InCall? && moves[0].after.InCall? then 1 else 0) + BodySteps(moves[1..])
  }

  /** Steps of func's body that a caller inside it has made. */
  function Made(p: Pc, work: nat): nat
  {
    if p.InCall? && p.left <= work then work - p.left else 0
  }

  /** ... that have been made in all. */
  function MadeInAll(pc: seq<Pc>, work: nat, completions: nat): nat
  {
    Sum(pc, (p: Pc) => Made(p, work)) + Scale(completions, work)
  }

  /** live * k */
  function Scale(live: nat, k: nat): nat
  {
    if live == 0 then 0 else Scale(live - 1, k) + k
  }

  /** How far the calls of func have got. */
  datatype Progress = Progress(starts: nat, completions: nat, made: nat)

  function ProgressOf(s: State): Progress
  {
    Progress(s.starts, s.completions, MadeInAll(s.pc, s.work, s.completions))
  }

  predicate Accounts(p: Progress, moves: seq<Move>, p': Progress)
  {
    p' == Progress(p.starts + Entries(moves), p.completions + Exits(moves), p.made + BodySteps(moves))
  }

  lemma AccountsAdd(p: Progress, move: Move, p': Progress, rest: seq<Move>, p'': Progress)
    requires Accounts(p, [move], p') && Accounts(p', rest, p'')
    ensures Accounts(p, [move] + rest, p'')
  {
    var all := [move] + rest;
    assert all[0] == move && all[1..] == rest && [move][1..] == [];
    assert Entries(all) == Entries([move]) + Entries(rest);
    assert Exits(all) == Exits([move]) + Exits(rest);
    assert BodySteps(all) == BodySteps([move]) + BodySteps(rest);
  }

  lemma MoveCounted(s: State, t: nat)
    requires Inv(s) && t < |s.pc|
    ensures |Next(s, t).pc| == |s.pc|
    ensures Accounts(ProgressOf(s), [Move(s.pc[t], Next(s, t).pc[t])], ProgressOf(Next(s, t)))
  {
    SumUpdate(s.pc, (p: Pc) => Made(p, s.work), t, Next(s, t).pc[t]);
    assert [Move(s.pc[t], Next(s, t).pc[t])][1..] == [];
  }

  lemma {:induction false} MovesCounted(s: State, schedule: seq<nat>)
    requires Inv(s)
    ensures Accounts(ProgressOf(s), Moves(s, schedule), ProgressOf(Exec(s, schedule)))
    decreases |schedule|
  {
    if schedule != [] {
      var t, s' := schedule[0], Next(s, schedule[0]);
      NextInv(s, t);
      MovesCounted(s', schedule[1..]);
      if t < |s.pc| {
        MoveCounted(s, t);
        AccountsAdd(ProgressOf(s), Move(s.pc[t], s'.pc[t]), ProgressOf(s'), Moves(s', schedule[1..]),
                    ProgressOf(Exec(s, schedule)));
      } else {
        assert Moves(s, schedule) == Moves(s', schedule[1..]);
      }
    }
  }

  /** Once func has completed, or before it has started, nobody is inside it. */
  lemma MadeWhenQuiet(pc: seq<Pc>, work: nat, completions: nat)
    requires forall i :: 0 <= i < |pc| ==> !pc[i].InCall?
    ensures MadeInAll(pc, work, completions) == Scale(completions, work)
  {
    SumConstant(pc, (p: Pc) => Made(p, work), 0);
  }

  /** Exactly once and not early, for any number of callers and any interleaving.  Counting the moves of the run: func
      is entered at most once, and by the time a caller has returned it has been entered once and left once, with all
      its work done in between.  The cell is 1 exactly when some caller holds the obligation to store 2, and that
      caller is the only one. */
  lemma ExactlyOnceNotEarly(n: nat, work: nat, schedule: seq<nat>)
    ensures var s, moves := Exec(Init(n, work), schedule), Moves(Init(n, work), schedule);
      && |s.pc| == n
      && s.starts == Entries(moves) <= 1 && s.completions == Exits(moves) <= Entries(moves)
      && (forall i :: 0 <= i < n && s.pc[i].Returned? ==>
            Entries(moves) == 1 && Exits(moves) == 1 && BodySteps(moves) == work)
      && (s.cell == 1 <==> exists i :: 0 <= i < n && Owes(s.pc[i]))
      && (forall i, j :: 0 <= i < n && 0 <= j < n && Owes(s.pc[i]) && Owes(s.pc[j]) ==> i == j)
  {
    InitInv(n, work);
    ExecInv(Init(n, work), schedule);
    MovesCounted(Init(n, work), schedule);
    MadeWhenQuiet(Init(n, work).pc, work, 0);
    var s := Exec(Init(n, work), schedule);
    if s.completions == 1 {
      MadeWhenQuiet(s.pc, work, 1);
    }
    forall i | 0 <= i < n && Owes(s.pc[i])
      ensures s.cell == 1 && forall u :: 0 <= u < n && Owes(s.pc[u]) ==> u == i
    {
      TokenUnique(s, i);
    }
    if s.cell == 1 {
      var i := SumWitness(s.pc, Token);
      assert Owes(s.pc[i]);
    }
  }

  /** The cell never goes back to 0, and the call counters never go down. */
  lemma {:induction false} NeverFreshAgain(n: nat, work: nat, before: seq<nat>, after: seq<nat>)
    ensures Exec(Init(n, work), before).cell != 0 ==> Exec(Init(n, work), before + after).cell != 0
  {
    InitInv(n, work);
    ExecInv(Init(n, work), before);
    ExecInv(Exec(Init(n, work), before), after);
    ExecAppend(Init(n, work), before, after);
  }

  lemma {:induction false} ExecAppend(s: State, a: seq<nat>, b: seq<nat>)
    ensures Exec(s, a + b) == Exec(Exec(s, a), b)
    decreases |a|
  {
    if a == [] {
      assert a + b == b;
    } else {
      assert (a + b)[1..] == a[1..] + b;
      ExecAppend(Next(s, a[0]), a[1..], b);
    }
  }

  // ---- Each caller runs the program ----

  /** What one step of a caller does, seen from outside: the values it reads from and leaves in the cell. */
  datatype Access =
    | Load(value: nat)
    | Exchange(previous: nat, stored: nat)
    | Store(stored: nat)
    | Enter           // func begins
    | Work            // a step of func
    | Leave           // func returns

  function AccessOf(p: Pc, p': Pc, read: nat, stored: nat): Access
  {
    match p
    case AtLoad => Load(read)
    case AtExchange => Exchange(read, stored)
    case AtRestore => Store(stored)
    case AtCall => Enter
    case InCall(_) => if p'.InCall? then Work else Leave
    case _ => Store(stored)
  }

  /** t's accesses during the run, in order. */
  function Accesses(s: State, schedule: seq<nat>, t: nat): seq<Access>
    decreases |schedule|
  {
    if schedule == [] then [] else
    var s' := Next(s, schedule[0]);
    (if schedule[0] == t && t < |s.pc| && t < |s'.pc| && !s.pc[t].Returned?
     then [AccessOf(s.pc[t], s'.pc[t], s.cell, s'.cell)] else [])
    + Accesses(s', schedule[1..], t)
  }

  // The source as a structured program over the values read: while (load < 2) { prev = exchange(1); ... }.  Each
  // predicate says that `rest` are the accesses from this point of the program on, to its end if `ended` and else to
  // wherever it has got.

  predicate Loop(rest: seq<Access>, work: nat, ended: bool)
    decreases |rest|
  {
    if rest == [] then !ended
    else rest[0].Load? && if rest[0].value < 2 then Body(rest[1..], work, ended) else rest[1..] == [] && ended
  }

  predicate Body(rest: seq<Access>, work: nat, ended: bool)
    decreases |rest|
  {
    if rest == [] then !ended
    else
      rest[0].Exchange? && rest[0].stored == 1 &&
      if rest[0].previous == 2 then PutsBack(rest[1..], ended)
      else if rest[0].previous != 0 then Loop(rest[1..], work, ended)
      else Calls(rest[1..], work, ended)
  }

  predicate PutsBack(rest: seq<Access>, ended: bool)
  {
    if rest == [] then !ended else rest == [Store(2)] && ended
  }

  /** func(), and then store 2 and round again */
  predicate Calls(rest: seq<Access>, work: nat, ended: bool)
    decreases |rest|
  {
    if rest == [] then !ended else rest[0] == Enter && InFunc(rest[1..], work, work, ended)
  }

  predicate InFunc(rest: seq<Access>, left: nat, work: nat, ended: bool)
    decreases |rest|
  {
    if rest == [] then !ended
    else if left > 0 then rest[0] == Work && InFunc(rest[1..], left - 1, work, ended)
    else rest[0] == Leave && Stores(rest[1..], work, ended)
  }

  predicate Stores(rest: seq<Access>, work: nat, ended: bool)
    decreases |rest|
  {
    if rest == [] then !ended else rest[0] == Store(2) && Loop(rest[1..], work, ended)
  }

  /** The program from where a caller is. */
  predicate From(p: Pc, rest: seq<Access>, work: nat, ended: bool)
  {
    match p
    case AtLoad => Loop(rest, work, ended)
    case AtExchange => Body(rest, work, ended)
    case AtRestore => PutsBack(rest, ended)
    case AtCall => Calls(rest, work, ended)
    case InCall(left) => InFunc(rest, left, work, ended)
    case AtStore => Stores(rest, work, ended)
    case Returned => rest == [] && ended
  }

  lemma StepOfProgram(s: State, t: nat, rest: seq<Access>, ended: bool)
    requires t < |s.pc| && !s.pc[t].Returned?
    requires t < |Next(s, t).pc| && From(Next(s, t).pc[t], rest, s.work, ended)
    ensures From(s.pc[t], [AccessOf(s.pc[t], Next(s, t).pc[t], s.cell, Next(s, t).cell)] + rest, s.work, ended)
  {
    var all := [AccessOf(s.pc[t], Next(s, t).pc[t], s.cell, Next(s, t).cell)] + rest;
    assert all[1..] == rest && (rest == [] ==> all == [all[0]]);
  }

  lemma {:induction false} RunsFrom(s: State, schedule: seq<nat>, t: nat)
    requires t < |s.pc|
    ensures |Exec(s, schedule).pc| == |s.pc|
    ensures From(s.pc[t], Accesses(s, schedule, t), s.work, Exec(s, schedule).pc[t].Returned?)
    decreases |schedule|
  {
    if schedule != [] {
      var u, s' := schedule[0], Next(s, schedule[0]);
      RunsFrom(s', schedule[1..], t);
      if u == t && !s.pc[t].Returned? {
        StepOfProgram(s, t, Accesses(s', schedule[1..], t), Exec(s, schedule).pc[t].Returned?);
      } else {
        assert Accesses(s, schedule, t) == Accesses(s', schedule[1..], t);
      }
    }
  }

  /** Each caller runs the program: on every run its accesses, with the values that it reads and writes, are those of
      the source's loop from its beginning, to the end if the caller has returned and only then. */
  lemma EachCallerRunsTheProgram(n: nat, work: nat, schedule: seq<nat>, t: nat)
    requires t < n
    ensures var s := Exec(Init(n, work), schedule);
      |s.pc| == n && Loop(Accesses(Init(n, work), schedule, t), work, s.pc[t].Returned?)
  {
    RunsFrom(Init(n, work), schedule, t);
  }

  // ---- Termination under fair scheduling ----

  function Live(p: Pc): nat
  {
    if p.Returned? then 0 else 1
  }

  function Loading(p: Pc): nat
  {
    if p.AtLoad? then 1 else 0
  }

  /** Steps the obliged caller still has before it stores 2.  A restorer weighs least: its store also ends it. */
  function Remaining(p: Pc, work: nat): nat
  {
    match p
    case AtCall => work + 4
    case InCall(left) => left + 3
    case AtStore => 2
    case _ => 0
  }

  function Phase(s: State): nat
  {
    if s.cell == 0 then s.work + 5 + Sum(s.pc, Loading)
    else if s.cell == 2 then 1
    else Sum(s.pc, (p: Pc) => Remaining(p, s.work))
  }

  /** Live callers first, then how far the cell is from a state in which a load lets somebody out. */
  function Measure(s: State): nat
  {
    Scale(Sum(s.pc, Live), s.work + 6 + |s.pc|) + Phase(s)
  }

  /** A caller whose next step makes progress: anybody while the cell is 0 or 2, only the token holder while it
      is 1. */
  predicate Helpful(s: State, t: nat)
  {
    t < |s.pc| && !s.pc[t].Returned? && (s.cell == 1 ==> Owes(s.pc[t]))
  }

  predicate AllReturned(s: State)
  {
    forall i :: 0 <= i < |s.pc| ==> s.pc[i].Returned?
  }

  /** A step either lets its caller out, and leaves little to do, or keeps everybody and does not add work. */
  lemma PhaseStep(s: State, t: nat)
    requires Inv(s) && t < |s.pc| && !s.pc[t].Returned?
    ensures var live, live' := Sum(s.pc, Live), Sum(Next(s, t).pc, Live);
      || (live' == live - 1 && Phase(Next(s, t)) <= 1)
      || (live' == live && Phase(Next(s, t)) <= Phase(s) && (Helpful(s, t) ==> Phase(Next(s, t)) < Phase(s)))
  {
    var s' := Next(s, t);
    var x := s'.pc[t];
    SumUpdate(s.pc, Live, t, x);
    SumUpdate(s.pc, Loading, t, x);
    SumUpdate(s.pc, (p: Pc) => Remaining(p, s.work), t, x);
    SumAtLeast(s.pc, Loading, t);
    if Owes(s.pc[t]) {
      TokenUnique(s, t);
    }
    OnlyTokenWeighs(s);
  }

  lemma {:induction false} ScaleIsProduct(live: nat, k: nat)
    ensures Scale(live, k) == live * k
  {
    if live > 0 {
      ScaleIsProduct(live - 1, k);
      assert live * k == (live - 1) * k + k;
    }
  }

  lemma MeasureStep(s: State, t: nat)
    requires Inv(s)
    ensures Measure(Next(s, t)) <= Measure(s)
    ensures Helpful(s, t) ==> Measure(Next(s, t)) < Measure(s)
  {
    if t < |s.pc| && !s.pc[t].Returned? {
      PhaseStep(s, t);
    }
  }

  lemma OnlyTokenWeighs(s: State)
    requires Inv(s)
    ensures s.cell != 1 ==> Sum(s.pc, (p: Pc) => Remaining(p, s.work)) == 0
  {
    if s.cell != 1 {
      forall i | 0 <= i < |s.pc|
        ensures Remaining(s.pc[i], s.work) == 0
      {
        SumAtLeast(s.pc, Token, i);
      }
      SumConstant(s.pc, (p: Pc) => Remaining(p, s.work), 0);
    }
  }

  lemma HelpfulExists(s: State) returns (t: nat)
    requires Inv(s) && !AllReturned(s)
    ensures Helpful(s, t)
  {
    if s.cell == 1 {
      t := SumWitness(s.pc, Token);
    } else {
      t :| t < |s.pc| && !s.pc[t].Returned?;
    }
  }

  /** A helpful caller stays helpful until the measure drops. */
  lemma HelpfulStays(s: State, t: nat, u: nat)
    requires Inv(s) && Helpful(s, u)
    ensures Measure(Next(s, t)) < Measure(s) || Helpful(Next(s, t), u)
  {
    MeasureStep(s, t);
    if s.cell == 1 {
      TokenUnique(s, u);
    }
  }

  lemma {:induction false} ScheduledHelps(s: State, schedule: seq<nat>, u: nat)
    requires Inv(s) && Helpful(s, u) && u in schedule
    ensures Measure(Exec(s, schedule)) < Measure(s)
    decreases |schedule|
  {
    var s' := Next(s, schedule[0]);
    NextInv(s, schedule[0]);
    MeasureStep(s, schedule[0]);
    HelpfulStays(s, schedule[0], u);
    if schedule[0] == u || Measure(s') < Measure(s) {
      MeasureFalls(s', schedule[1..]);
    } else {
      ScheduledHelps(s', schedule[1..], u);
    }
  }

  lemma {:induction false} MeasureFalls(s: State, schedule: seq<nat>)
    requires Inv(s)
    ensures Measure(Exec(s, schedule)) <= Measure(s)
    decreases |schedule|
  {
    if schedule != [] {
      NextInv(s, schedule[0]);
      MeasureStep(s, schedule[0]);
      MeasureFalls(Next(s, schedule[0]), schedule[1..]);
    }
  }

  /** A round lets every caller take at least one step, in any order and with any repetition. */
  ghost predicate Round(schedule: seq<nat>, n: nat)
  {
    forall t :: 0 <= t < n ==> t in schedule
  }

  function Concat(rounds: seq<seq<nat>>): seq<nat>
  {
    if rounds == [] then [] else rounds[0] + Concat(rounds[1..])
  }

  lemma {:induction false} StaysReturned(s: State, schedule: seq<nat>)
    requires AllReturned(s)
    ensures Exec(s, schedule) == s
    decreases |schedule|
  {
    if schedule != [] {
      StaysReturned(s, schedule[1..]);
    }
  }

  lemma {:induction false} RoundsSuffice(s: State, rounds: seq<seq<nat>>)
    requires Inv(s) && Measure(s) <= |rounds|
    requires forall r :: 0 <= r < |rounds| ==> Round(rounds[r], |s.pc|)
    ensures AllReturned(Exec(s, Concat(rounds)))
    decreases |rounds|
  {
    if AllReturned(s) {
      StaysReturned(s, Concat(rounds));
    } else {
      var u := HelpfulExists(s);
      NextInv(s, u);
      MeasureStep(s, u);
      assert Round(rounds[0], |s.pc|);
      ScheduledHelps(s, rounds[0], u);
      ExecInv(s, rounds[0]);
      ExecAppend(s, rounds[0], Concat(rounds[1..]));
      RoundsSuffice(Exec(s, rounds[0]), rounds[1..]);
    }
  }

  lemma InitMeasure(n: nat, work: nat)
    ensures Measure(Init(n, work)) <= (n + 1) * (n + work + 6)
  {
    var s := Init(n, work);
    var k := n + work + 6;
    SumConstant(s.pc, Live, 1);
    SumConstant(s.pc, Loading, 1);
    ScaleIsProduct(n, k);
    assert Measure(s) == n * k + (work + 5 + n);
    assert (n + 1) * k == n * k + k;
  }

  /** Although late callers keep knocking the cell back from 2 to 1, every one of n callers returns within
      (n + 1) * (n + work + 6) rounds of any schedule. */
  lemma EveryCallerReturns(n: nat, work: nat, rounds: seq<seq<nat>>)
    requires (n + 1) * (n + work + 6) <= |rounds|
    requires forall r :: 0 <= r < |rounds| ==> Round(rounds[r], n)
    ensures AllReturned(Exec(Init(n, work), Concat(rounds)))
  {
    InitInv(n, work);
    InitMeasure(n, work);
    RoundsSuffice(Init(n, work), rounds);
  }

  /** Under an infinite schedule: the state after the first k steps. */
  function StateAt(s: State, schedule: nat -> nat, k: nat): State
  {
    if k == 0 then s else Next(StateAt(s, schedule, k - 1), schedule(k - 1))
  }

  /** Every caller is scheduled again and again. */
  ghost predicate Fair(schedule: nat -> nat, n: nat)
  {
    forall t: nat, k: nat :: t < n ==> Scheduled(schedule, t, k)
  }

  ghost predicate Scheduled(schedule: nat -> nat, t: nat, from: nat)
  {
    exists k: nat :: from <= k && schedule(k) == t
  }

  lemma {:induction false} StateAtInv(s: State, schedule: nat -> nat, k: nat)
    requires Inv(s)
    ensures Inv(StateAt(s, schedule, k)) && |StateAt(s, schedule, k).pc| == |s.pc|
  {
    if k > 0 {
      StateAtInv(s, schedule, k - 1);
      NextInv(StateAt(s, schedule, k - 1), schedule(k - 1));
    }
  }

  /** The measure has dropped below the bound, or has not risen above it and u is still helpful. */
  ghost predicate OnTrack(s: State, u: nat, bound: nat)
  {
    Measure(s) <= bound && (Measure(s) < bound || Helpful(s, u))
  }

  lemma OneMoreStep(s: State, t: nat, u: nat, bound: nat)
    requires Inv(s) && OnTrack(s, u, bound)
    ensures OnTrack(Next(s, t), u, bound)
  {
    MeasureStep(s, t);
    if Measure(s) == bound {
      HelpfulStays(s, t, u);
    }
  }

  /** From `from` on, with u helpful, the measure stays on track until u is scheduled. */
  lemma {:induction false} HelpfulUntil(s: State, schedule: nat -> nat, u: nat, from: nat, k: nat, bound: nat)
    requires Inv(s) && from <= k && OnTrack(StateAt(s, schedule, from), u, bound)
    ensures OnTrack(StateAt(s, schedule, k), u, bound)
  {
    if from < k {
      HelpfulUntil(s, schedule, u, from, k - 1, bound);
      StateAtInv(s, schedule, k - 1);
      OneMoreStep(StateAt(s, schedule, k - 1), schedule(k - 1), u, bound);
    }
  }

  /** By the end of a helpful caller's next turn the measure has dropped. */
  lemma TurnTaken(s: State, schedule: nat -> nat, u: nat, from: nat, turn: nat)
    requires Inv(s) && from <= turn && schedule(turn) == u && Helpful(StateAt(s, schedule, from), u)
    ensures Measure(StateAt(s, schedule, turn + 1)) < Measure(StateAt(s, schedule, from))
  {
    HelpfulUntil(s, schedule, u, from, turn, Measure(StateAt(s, schedule, from)));
    StateAtInv(s, schedule, turn);
    var before := StateAt(s, schedule, turn);
    assert StateAt(s, schedule, turn + 1) == Next(before, u);
    MeasureStep(before, u);
  }

  lemma LaterIsSmaller(s: State, schedule: nat -> nat, k: nat) returns (later: nat)
    requires Inv(s) && Fair(schedule, |s.pc|) && !AllReturned(StateAt(s, schedule, k))
    ensures Measure(StateAt(s, schedule, later)) < Measure(StateAt(s, schedule, k))
  {
    StateAtInv(s, schedule, k);
    var u := HelpfulExists(StateAt(s, schedule, k));
    assert Scheduled(schedule, u, k);
    var turn: nat :| k <= turn && schedule(turn) == u;
    TurnTaken(s, schedule, u, k, turn);
    later := turn + 1;
  }

  lemma {:induction false} EventuallyReturned(s: State, schedule: nat -> nat, k: nat) returns (end: nat)
    requires Inv(s) && Fair(schedule, |s.pc|)
    ensures AllReturned(StateAt(s, schedule, end))
    decreases Measure(StateAt(s, schedule, k))
  {
    if AllReturned(StateAt(s, schedule, k)) {
      end := k;
    } else {
      var later := LaterIsSmaller(s, schedule, k);
      end := EventuallyReturned(s, schedule, later);
    }
  }

  /** Under every fair infinite schedule there is a moment by which every caller has returned. */
  lemma FairTermination(n: nat, work: nat, schedule: nat -> nat)
    requires Fair(schedule, n)
    ensures exists k: nat :: AllReturned(StateAt(Init(n, work), schedule, k))
  {
    InitInv(n, work);
    var k := EventuallyReturned(Init(n, work), schedule, 0);
  }

  // ---- The code, one method per access to the cell ----

  class OnceBlock {
    var once: nat
    var pc: seq<Pc>
    const work: nat
    ghost var starts: nat
    ghost var completions: nat

    ghost function View(): State
      reads this
    {
      State(once, pc, work, starts, completions)
    }

    ghost predicate Valid()
      reads this
    {
      Inv(View())
    }

    constructor (n: nat, work: nat)
      ensures View() == Init(n, work)
      ensures Valid()
    {
      once := 0;
      pc := seq(n, _ => AtLoad);
      this.work := work;
      starts, completions := 0, 0;
      new;
      InitInv(n, work);
    }

    /** while (ccatomic_load_acquire(once) < 2) */
    method LoadGuard(t: nat)
      requires Valid() && t < |pc| && pc[t].AtLoad?
      modifies this
      ensures View() == Next(old(View()), t)
      ensures Valid()
    {
      NextInv(View(), t);
      if once < 2 {
        pc := pc[t := AtExchange];
      } else {
        pc := pc[t := Returned];
      }
    }

    /** prev = ccatomic_exchange_acquire(once, 1) and the branches on prev */
    method ExchangeOne(t: nat)
      requires Valid() && t < |pc| && pc[t].AtExchange?
      modifies this
      ensures View() == Next(old(View()), t)
      ensures Valid()
    {
      NextInv(View(), t);
      var prev := once;
      once := 1;
      if prev == 2 {
        pc := pc[t := AtRestore];
      } else if prev != 0 {
        pc := pc[t := AtLoad];
      } else {
        pc := pc[t := AtCall];
      }
    }

    /** Put back the 2 that the exchange overwrote, and leave the loop. */
    method RestoreDone(t: nat)
      requires Valid() && t < |pc| && pc[t].AtRestore?
      modifies this
      ensures View() == Next(old(View()), t)
      ensures Valid()
    {
      NextInv(View(), t);
      once := 2;
      pc := pc[t := Returned];
    }

    /** func(arg), entry */
    method EnterFunc(t: nat)
      requires Valid() && t < |pc| && pc[t].AtCall?
      modifies this
      ensures View() == Next(old(View()), t)
      ensures Valid()
    {
      NextInv(View(), t);
      pc := pc[t := InCall(work)];
      starts := starts + 1;
    }

    /** func(arg), one step of its body or its return */
    method StepFunc(t: nat)
      requires Valid() && t < |pc| && pc[t].InCall?
      modifies this
      ensures View() == Next(old(View()), t)
      ensures Valid()
    {
      NextInv(View(), t);
      var left := pc[t].left;
      if left > 0 {
        pc := pc[t := InCall(left - 1)];
      } else {
        pc := pc[t := AtStore];
        completions := completions + 1;
      }
    }

    /** ccatomic_store_release(once, 2) by the winner, which then goes back to the loop guard */
    method StoreDone(t: nat)
      requires Valid() && t < |pc| && pc[t].AtStore?
      modifies this
      ensures View() == Next(old(View()), t)
      ensures Valid()
    {
      NextInv(View(), t);
      once := 2;
      pc := pc[t := AtLoad];
    }

    /** Any interleaving of the callers. */
    method Run(schedule: seq<nat>)
      requires Valid()
      modifies this
      ensures View() == Exec(old(View()), schedule)
      ensures Valid()
    {
      var i := 0;
      while i < |schedule|
        invariant 0 <= i <= |schedule|
        invariant Valid() && Exec(View(), schedule[i..]) == Exec(old(View()), schedule)
      {
        var t := schedule[i];
        assert schedule[i..][1..] == schedule[i + 1..];
        if t < |pc| {
          match pc[t] {
            case AtLoad => LoadGuard(t);
            case AtExchange => ExchangeOne(t);
            case AtRestore => RestoreDone(t);
            case AtCall => EnterFunc(t);
            case InCall(_) => StepFunc(t);
            case AtStore => StoreDone(t);
            case Returned =>
          }
        }
        i := i + 1;
      }
    }
  }
}
