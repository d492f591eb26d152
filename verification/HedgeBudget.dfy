/** HedgeBudget of broker/HybridSearch.Broker/Shards/LatencyTracker.cs and the counters of SliceState in
    ShardTopology.cs: a token bucket that any number of threads share through compare-and-swap. */
module HedgeBudget {
  import opened Numbers

  const SCALE: nat := 1_000_000

  /** Millionths of a token that a primary deposits, and the most the bucket holds. */
  datatype Config = Config(perPrimary: nat, cap: nat)

  /** Where a thread stands in OnPrimary (depositing) or TryAcquire (acquiring): about to read the
      bucket, or holding the value it read and about to swap. */
  datatype Local = Idle | Depositing | DepositRead(cur: int) | Acquiring | AcquireRead(cur: int)

  /** The bucket and the counters.  `deposits` counts finished calls of OnPrimary. */
  datatype State = State(tokens: int, primaries: nat, deposits: nat, hedges: nat, locals: map<nat, Local>)

  datatype Action = StartPrimary | ReadDeposit | SwapDeposit | StartAcquire | ReadAcquire | SwapAcquire

  datatype Step = Step(thread: nat, action: Action)

  function LocalOf(s: State, t: nat): Local {
    if t in s.locals then s.locals[t] else Idle
  }

  predicate Enabled(s: State, step: Step) {
    var l := LocalOf(s, step.thread);
    match step.action
    case StartPrimary => l.Idle?
    case ReadDeposit => l.Depositing?
    case SwapDeposit => l.DepositRead?
    case StartAcquire => l.Idle?
    case ReadAcquire => l.Acquiring?
    case SwapAcquire => l.AcquireRead?
  }

  function With(s: State, t: nat, l: Local): State {
    s.(locals := s.locals[t := l])
  }

  function Deposited(c: Config, cur: int): int {
    if c.cap < cur + c.perPrimary then c.cap else cur + c.perPrimary
  }

  /** One step of one thread: CountPrimary and OnPrimary, or TryAcquire and CountHedge. */
  function Next(c: Config, s: State, step: Step): State
    requires Enabled(s, step)
  {
    var t := step.thread;
    var l := LocalOf(s, t);
    match step.action
    case StartPrimary => With(s.(primaries := s.primaries + 1), t, Depositing)
    case ReadDeposit =>
      if Deposited(c, s.tokens) == s.tokens then With(s.(deposits := s.deposits + 1), t, Idle)
      else With(s, t, DepositRead(s.tokens))
    case SwapDeposit =>
      if s.tokens == l.cur then With(s.(tokens := Deposited(c, l.cur), deposits := s.deposits + 1), t, Idle)
      else With(s, t, Depositing)
    case StartAcquire => With(s, t, Acquiring)
    case ReadAcquire =>
      if s.tokens < SCALE then With(s, t, Idle) else With(s, t, AcquireRead(s.tokens))
    case SwapAcquire =>
      if s.tokens == l.cur then With(s.(tokens := l.cur - SCALE, hedges := s.hedges + 1), t, Idle)
      else With(s, t, Acquiring)
  }

  const START: State := State(0, 0, 0, 0, map[])

  predicate Possible(c: Config, s: State, run: seq<Step>)
    decreases |run|, 0
  {
    run == [] || (Possible(c, s, run[..|run| - 1]) && Enabled(After(c, s, run[..|run| - 1]), run[|run| - 1]))
  }

  /** The state after a run. */
  function After(c: Config, s: State, run: seq<Step>): State
    requires Possible(c, s, run)
    decreases |run|, 1
  {
    if run == [] then s else Next(c, After(c, s, run[..|run| - 1]), run[|run| - 1])
  }

  /** Threads inside OnPrimary. */
  function Pending(s: State): set<nat> {
    set t | t in s.locals && (s.locals[t].Depositing? || s.locals[t].DepositRead?)
  }

  /** Hedges and tokens are covered by deposits. */
  ghost predicate Balanced(c: Config, s: State) {
    0 <= s.tokens <= c.cap && s.hedges * SCALE + s.tokens <= c.perPrimary * s.deposits
  }

  /** A thread about to take a token has seen one. */
  ghost predicate LocalsOk(s: State) {
    && (forall t :: t in s.locals && s.locals[t].AcquireRead? ==> s.locals[t].cur >= SCALE)
    && (forall t :: t in s.locals && s.locals[t].DepositRead? ==> s.locals[t].cur >= 0)
  }

  /** Every primary has deposited or is about to. */
  ghost predicate Counted(s: State) {
    s.deposits + |Pending(s)| == s.primaries
  }

  /** What every step keeps. */
  ghost predicate Safe(c: Config, s: State) {
    Balanced(c, s) && LocalsOk(s) && Counted(s)
  }

  lemma DepositBounds(c: Config, cur: int)
    requires 0 <= cur <= c.cap
    ensures 0 <= Deposited(c, cur) <= c.cap && cur <= Deposited(c, cur) <= cur + c.perPrimary
  {
  }

  lemma PendingOne(s: State, t: nat, l: Local)
    ensures Pending(With(s, t, l)) == if l.Depositing? || l.DepositRead? then Pending(s) + {t} else Pending(s) - {t}
  {
  }

  lemma OneMore(c: Config, d: nat)
    ensures c.perPrimary * (d + 1) == c.perPrimary * d + c.perPrimary
  {
  }

  lemma StepBalanced(c: Config, s: State, step: Step)
    requires Balanced(c, s) && LocalsOk(s) && Enabled(s, step)
    ensures Balanced(c, Next(c, s, step))
  {
    var l := LocalOf(s, step.thread);
    OneMore(c, s.deposits);
    if step.action.SwapDeposit? && s.tokens == l.cur {
      DepositBounds(c, l.cur);
    }
  }

  lemma StepLocals(c: Config, s: State, step: Step)
    requires Balanced(c, s) && LocalsOk(s) && Enabled(s, step)
    ensures LocalsOk(Next(c, s, step))
  {
    hide Deposited;
  }

  lemma StepCounted(c: Config, s: State, step: Step)
    requires Counted(s) && Enabled(s, step)
    ensures Counted(Next(c, s, step))
  {
    hide Next, Pending, Enabled;
    var t, s' := step.thread, Next(c, s, step);
    StepPending(c, s, step);
    assert t !in Pending(s) ==> |Pending(s) + {t}| == |Pending(s)| + 1;
    assert t in Pending(s) ==> Pending(s) + {t} == Pending(s) && |Pending(s) - {t}| == |Pending(s)| - 1;
    assert t !in Pending(s) ==> Pending(s) - {t} == Pending(s);
  }

  /** A thread is pending from its primary to its deposit. */
  lemma StepPending(c: Config, s: State, step: Step)
    requires Enabled(s, step)
    ensures var s', t := Next(c, s, step), step.thread;
      && Pending(s') == (if t in Pending(s') then Pending(s) + {t} else Pending(s) - {t})
      && s'.primaries - s.primaries == (if t !in Pending(s) && t in Pending(s') then 1 else 0)
      && s'.deposits - s.deposits == (if t in Pending(s) && t !in Pending(s') then 1 else 0)
  {
    hide Deposited;
    var t, s' := step.thread, Next(c, s, step);
    PendingOne(s, t, LocalOf(s', t));
    assert t in Pending(s) <==> LocalOf(s, t).Depositing? || LocalOf(s, t).DepositRead?;
  }

  /** A step keeps the balance between tokens, hedges and deposits. */
  lemma StepSafe(c: Config, s: State, step: Step)
    requires Safe(c, s) && Enabled(s, step)
    ensures Safe(c, Next(c, s, step))
  {
    hide Balanced, LocalsOk, Counted, Next;
    StepBalanced(c, s, step);
    StepLocals(c, s, step);
    StepCounted(c, s, step);
  }

  /** In every run, of any threads in any order, every state is safe. */
  lemma {:induction false} AlwaysSafe(c: Config, run: seq<Step>)
    requires Possible(c, START, run)
    ensures Safe(c, After(c, START, run))
    decreases |run|
  {
    if run == [] {
      assert Pending(START) == {};
    } else {
      AlwaysSafe(c, run[..|run| - 1]);
      StepSafe(c, After(c, START, run[..|run| - 1]), run[|run| - 1]);
    }
  }

  /** At every instant the hedges granted are at most the configured fraction of the primaries started. */
  lemma HedgesBounded(c: Config, run: seq<Step>)
    requires Possible(c, START, run)
    ensures After(c, START, run).hedges * SCALE <= c.perPrimary * After(c, START, run).primaries
  {
    AlwaysSafe(c, run);
    var s := After(c, START, run);
    MulMonotone(s.deposits, s.primaries, c.perPrimary);
  }

  /** Over any stretch of a run the hedges granted are paid for by the tokens there at its start and the
      deposits made in it, which are the primaries started in it and those pending at its start. */
  lemma {:induction false} WindowBounded(c: Config, s: State, run: seq<Step>)
    requires Safe(c, s) && Possible(c, s, run)
    ensures var s' := After(c, s, run);
      && Safe(c, s') && s.hedges <= s'.hedges && s.deposits <= s'.deposits && s.primaries <= s'.primaries
      && (s'.hedges - s.hedges) * SCALE + s'.tokens <= s.tokens + c.perPrimary * (s'.deposits - s.deposits)
      && (s'.hedges - s.hedges) * SCALE <= c.cap + c.perPrimary * (s'.deposits - s.deposits)
      && s'.deposits - s.deposits <= (s'.primaries - s.primaries) + |Pending(s)|
    decreases |run|
  {
    hide Next, LocalsOk, Enabled;
    if run != [] {
      var n := |run| - 1;
      WindowBounded(c, s, run[..n]);
      var mid := After(c, s, run[..n]);
      StepSafe(c, mid, run[n]);
      WindowStep(c, s, mid, run[n]);
    }
  }

  lemma WindowStep(c: Config, s: State, mid: State, step: Step)
    requires Safe(c, mid) && Enabled(mid, step) && s.hedges <= mid.hedges && s.deposits <= mid.deposits
    requires (mid.hedges - s.hedges) * SCALE + mid.tokens <= s.tokens + c.perPrimary * (mid.deposits - s.deposits)
    ensures var s' := Next(c, mid, step);
      && mid.hedges <= s'.hedges && mid.deposits <= s'.deposits && mid.primaries <= s'.primaries
      && (s'.hedges - s.hedges) * SCALE + s'.tokens <= s.tokens + c.perPrimary * (s'.deposits - s.deposits)
  {
    hide Safe;
    var l := LocalOf(mid, step.thread);
    OneMore(c, mid.deposits - s.deposits);
    if step.action.SwapDeposit? && mid.tokens == l.cur {
      assert Deposited(c, l.cur) <= l.cur + c.perPrimary;
    }
  }

  // ---------------------------------------------------------------------------------------------
  // What is granted
  // ---------------------------------------------------------------------------------------------

  /** A call of TryAcquire or of OnPrimary by thread `t` that no other thread interrupts: from idle to idle. */
  ghost predicate AloneCall(c: Config, s: State, t: nat, first: Action, run: seq<Step>) {
    && LocalOf(s, t).Idle? && run != [] && run[0] == Step(t, first) && Possible(c, s, run)
    && (forall i :: 0 <= i < |run| ==> run[i].thread == t)
    && (forall i :: 0 < i < |run| ==> !LocalOf(AfterSome(c, s, run, i), t).Idle?)
    && LocalOf(After(c, s, run), t).Idle?
  }

  /** The state after the first `i` steps. */
  ghost function AfterSome(c: Config, s: State, run: seq<Step>, i: nat): State
    requires Possible(c, s, run) && i <= |run|
    ensures i == |run| ==> AfterSome(c, s, run, i) == After(c, s, run)
  {
    PossibleSome(c, s, run, i);
    assert i == |run| ==> run[..i] == run;
    After(c, s, run[..i])
  }

  lemma {:induction false} PossibleSome(c: Config, s: State, run: seq<Step>, i: nat)
    requires Possible(c, s, run) && i <= |run|
    ensures Possible(c, s, run[..i])
    decreases |run|
  {
    if i < |run| {
      PossibleSome(c, s, run[..|run| - 1], i);
      assert run[..|run| - 1][..i] == run[..i];
    } else {
      assert run[..i] == run;
    }
  }

  /** Step `i` leads from one state to the next. */
  lemma StepAt(c: Config, s: State, run: seq<Step>, i: nat)
    requires Possible(c, s, run) && i < |run|
    ensures Enabled(AfterSome(c, s, run, i), run[i])
    ensures AfterSome(c, s, run, i + 1) == Next(c, AfterSome(c, s, run, i), run[i])
  {
    hide Next, Enabled;
    PossibleSome(c, s, run, i + 1);
    assert run[..i + 1][..i] == run[..i];
  }

  lemma NoSteps(c: Config, s: State, run: seq<Step>)
    requires Possible(c, s, run)
    ensures AfterSome(c, s, run, 0) == s
  {
    assert run[..0] == [];
  }

  /** TryAcquire, undisturbed: it takes exactly one token and counts one hedge if the bucket holds a token, and
      otherwise changes nothing. */
  lemma AcquireAlone(c: Config, s: State, t: nat, run: seq<Step>)
    requires AloneCall(c, s, t, StartAcquire, run)
    ensures var s' := After(c, s, run);
            && s'.primaries == s.primaries && s'.deposits == s.deposits
            && (s.tokens >= 1_000_000 ==> s'.tokens == s.tokens - 1_000_000 && s'.hedges == s.hedges + 1)
            && (s.tokens < 1_000_000 ==> s'.tokens == s.tokens && s'.hedges == s.hedges)
  {
    NoSteps(c, s, run);
    StepAt(c, s, run, 0);
    StepAt(c, s, run, 1);
    if s.tokens >= 1_000_000 {
      StepAt(c, s, run, 2);
    }
  }

  /** Such a call there is from every state: an undisturbed TryAcquire ends. */
  lemma AcquireEnds(c: Config, s: State, t: nat) returns (run: seq<Step>)
    requires LocalOf(s, t).Idle?
    ensures AloneCall(c, s, t, StartAcquire, run)
  {
    var a := Next(c, s, Step(t, StartAcquire));
    var b := Next(c, a, Step(t, ReadAcquire));
    var two := [Step(t, StartAcquire), Step(t, ReadAcquire)];
    TwoSteps(c, s, two[0], two[1]);
    if s.tokens < SCALE {
      run := two;
    } else {
      run := two + [Step(t, SwapAcquire)];
      OneMoreStep(c, s, two, run[2]);
    }
    forall i | 0 < i < |run| ensures !LocalOf(AfterSome(c, s, run, i), t).Idle? {
      assert i == 1 ==> run[..i] == [two[0]];
      assert i == 2 ==> run[..i] == two;
    }
  }

  lemma TwoSteps(c: Config, s: State, x: Step, y: Step)
    requires Enabled(s, x) && Enabled(Next(c, s, x), y)
    ensures Possible(c, s, [x]) && After(c, s, [x]) == Next(c, s, x)
    ensures Possible(c, s, [x, y]) && After(c, s, [x, y]) == Next(c, Next(c, s, x), y)
  {
    hide Next, Enabled;
    assert [x] == [] + [x] && [x, y] == [x] + [y];
    OneMoreStep(c, s, [], x);
    OneMoreStep(c, s, [x], y);
  }

  lemma OneMoreStep(c: Config, s: State, run: seq<Step>, x: Step)
    requires Possible(c, s, run) && Enabled(After(c, s, run), x)
    ensures Possible(c, s, run + [x]) && After(c, s, run + [x]) == Next(c, After(c, s, run), x)
  {
    hide Next, Enabled;
    assert (run + [x])[..|run|] == run;
  }

  /** OnPrimary, undisturbed: the bucket gets its deposit, as far as the cap allows. */
  lemma DepositAlone(c: Config, s: State, t: nat, run: seq<Step>)
    requires AloneCall(c, s, t, StartPrimary, run)
    ensures var s' := After(c, s, run);
            && s'.tokens == (if s.tokens + c.perPrimary <= c.cap then s.tokens + c.perPrimary else c.cap)
            && s'.primaries == s.primaries + 1 && s'.deposits == s.deposits + 1 && s'.hedges == s.hedges
  {
    NoSteps(c, s, run);
    StepAt(c, s, run, 0);
    StepAt(c, s, run, 1);
    if |run| > 2 {
      StepAt(c, s, run, 2);
    }
  }

  lemma DepositEnds(c: Config, s: State, t: nat) returns (run: seq<Step>)
    requires LocalOf(s, t).Idle?
    ensures AloneCall(c, s, t, StartPrimary, run)
  {
    var two := [Step(t, StartPrimary), Step(t, ReadDeposit)];
    TwoSteps(c, s, two[0], two[1]);
    if Deposited(c, s.tokens) == s.tokens {
      run := two;
    } else {
      run := two + [Step(t, SwapDeposit)];
      OneMoreStep(c, s, two, run[2]);
    }
    forall i | 0 < i < |run| ensures !LocalOf(AfterSome(c, s, run, i), t).Idle? {
      assert i == 1 ==> run[..i] == [two[0]];
      assert i == 2 ==> run[..i] == two;
    }
  }

  ghost predicate Acquires(l: Local) {
    l.Acquiring? || l.AcquireRead?
  }

  /** In any run, whatever the other threads do: a thread that leaves TryAcquire has taken exactly one token and is
      counted, or has just read fewer than one, and the bucket is as it was. */
  lemma AcquireOutcome(c: Config, s: State, run: seq<Step>, i: nat)
    requires Possible(c, s, run) && i < |run|
    requires Acquires(LocalOf(AfterSome(c, s, run, i), run[i].thread))
    requires LocalOf(AfterSome(c, s, run, i + 1), run[i].thread).Idle?
    ensures var a, b := AfterSome(c, s, run, i), AfterSome(c, s, run, i + 1);
            || (b.tokens == a.tokens - 1_000_000 && b.hedges == a.hedges + 1)
            || (a.tokens < 1_000_000 && b.tokens == a.tokens && b.hedges == a.hedges)
  {
    StepAt(c, s, run, i);
  }

  /** A thread tries again only because the bucket changed after it read it. */
  lemma {:induction false} RetryMeansChange(c: Config, s: State, run: seq<Step>, i: nat)
    requires Possible(c, s, run) && i < |run|
    requires run[i].action.SwapAcquire? || run[i].action.SwapDeposit?
    requires !LocalOf(AfterSome(c, s, run, i + 1), run[i].thread).Idle?
    requires forall t :: !LocalOf(s, t).AcquireRead? && !LocalOf(s, t).DepositRead?
    ensures exists k :: 0 <= k < i && AfterSome(c, s, run, k + 1).tokens != AfterSome(c, s, run, k).tokens
                        && run[k].thread != run[i].thread
  {
    hide Possible, After;
    StepAt(c, s, run, i);
    var t := run[i].thread;
    ReadHere(c, s, run, i, t);
  }

  /** What a thread holds is what the bucket held, unless another thread has changed it since. */
  lemma {:induction false} ReadHere(c: Config, s: State, run: seq<Step>, i: nat, t: nat)
    requires Possible(c, s, run) && i <= |run|
    requires LocalOf(AfterSome(c, s, run, i), t).AcquireRead? || LocalOf(AfterSome(c, s, run, i), t).DepositRead?
    requires !LocalOf(s, t).AcquireRead? && !LocalOf(s, t).DepositRead?
    ensures LocalOf(AfterSome(c, s, run, i), t).cur == AfterSome(c, s, run, i).tokens
            || exists k :: 0 <= k < i && AfterSome(c, s, run, k + 1).tokens != AfterSome(c, s, run, k).tokens
                           && run[k].thread != t
  {
    hide Possible, After;
    NoSteps(c, s, run);
    if i > 0 {
      StepAt(c, s, run, i - 1);
      if run[i - 1].thread != t {
        ReadHere(c, s, run, i - 1, t);
      }
    }
  }

  // ---------------------------------------------------------------------------------------------
  // Conservation
  // ---------------------------------------------------------------------------------------------

  /** What the cap cuts off a deposit that a step completes. */
  ghost function Cut(c: Config, a: State, b: State): nat {
    if b.deposits > a.deposits && a.tokens + c.perPrimary > c.cap then a.tokens + c.perPrimary - c.cap else 0
  }

  /** What the cap has cut off in the first `i` steps. */
  ghost function CutOff(c: Config, s: State, run: seq<Step>, i: nat): nat
    requires Possible(c, s, run) && i <= |run|
  {
    if i == 0 then 0
    else CutOff(c, s, run, i - 1) + Cut(c, AfterSome(c, s, run, i - 1), AfterSome(c, s, run, i))
  }

  /** Every millionth of a token that was deposited is in the bucket, was paid for a hedge, or was cut off. */
  lemma {:induction false} Conserved(c: Config, run: seq<Step>, i: nat)
    requires Possible(c, START, run) && i <= |run|
    ensures var s := AfterSome(c, START, run, i);
            s.hedges * 1_000_000 + s.tokens + CutOff(c, START, run, i) == c.perPrimary * s.deposits
  {
    hide Possible, After, Next, Enabled;
    NoSteps(c, START, run);
    if i > 0 {
      Conserved(c, run, i - 1);
      StepAt(c, START, run, i - 1);
      PossibleSome(c, START, run, i - 1);
      AlwaysSafe(c, run[..i - 1]);
      StepConserves(c, AfterSome(c, START, run, i - 1), run[i - 1]);
    }
  }

  lemma StepConserves(c: Config, s: State, step: Step)
    requires Safe(c, s) && Enabled(s, step)
    ensures var b := Next(c, s, step);
            (b.hedges - s.hedges) * 1_000_000 + (b.tokens - s.tokens) + Cut(c, s, b)
            == c.perPrimary * b.deposits - c.perPrimary * s.deposits
  {
    hide Pending;
    OneMore(c, s.deposits);
  }

  /** While the cap cuts nothing off, deposits are exactly tokens and hedges. */
  lemma {:induction false} NothingLost(c: Config, run: seq<Step>, i: nat)
    requires Possible(c, START, run) && i <= |run|
    requires forall k ::
               0 <= k < i && AfterSome(c, START, run, k + 1).deposits > AfterSome(c, START, run, k).deposits ==>
               AfterSome(c, START, run, k).tokens + c.perPrimary <= c.cap
    ensures var s := AfterSome(c, START, run, i); s.hedges * 1_000_000 + s.tokens == c.perPrimary * s.deposits
  {
    hide Possible, After, Next;
    Conserved(c, run, i);
    NothingCut(c, START, run, i);
  }

  lemma {:induction false} NothingCut(c: Config, s: State, run: seq<Step>, i: nat)
    requires Possible(c, s, run) && i <= |run|
    requires forall k :: 0 <= k < i && AfterSome(c, s, run, k + 1).deposits > AfterSome(c, s, run, k).deposits ==>
               AfterSome(c, s, run, k).tokens + c.perPrimary <= c.cap
    ensures CutOff(c, s, run, i) == 0
  {
    hide Possible, After;
    if i > 0 {
      NothingCut(c, s, run, i - 1);
    }
  }
}
