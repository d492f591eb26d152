/** SearchSliceAsync of broker/HybridSearch.Broker/Shards/ShardFanOut.cs, with PickPrimary and PickAlternate of
    ShardTopology.cs.  What the request waits for, and how it ends, is up to the environment. */
module FanOut {
  import opened Wrappers
  import opened Rings
  import opened Sequences

  datatype Kind = Primary | Hedge | Failover
  datatype Status = Success | Timeout | Unavailable | Error | Cancelled
  datatype SliceStatus = Whole | Partial | Failed

  /** One request to one replica.  `cancelled` is set when the request is told to stop. */
  datatype Attempt = Attempt(replica: nat, kind: Kind, done: bool, cancelled: bool)

  /** What an attempt that ended reported, at the `step`-th time the request waited. */
  datatype Report = Report(attempt: nat, status: Status, partial: bool, step: nat)

  datatype Outcome = Outcome(status: SliceStatus, hedgeWon: bool, reason: Option<Status>, attempts: nat)

  /** The options that matter here. */
  datatype Options = Options(failFast: bool, failover: bool)

  /** What the environment answers when the request waits or asks: which pending task ends first, and how
      an attempt ended; whether a timer that ended was cancelled; the clock, the budget and the replicas'
      health at that moment. */
  datatype Answer = Answer(first: nat, status: Status, partial: bool, timerCancelled: bool, expired: bool,
                           token: bool, unhealthy: nat -> bool)

  // ---------------------------------------------------------------------------------------------
  // Replicas
  // ---------------------------------------------------------------------------------------------

  const TWO31: int := 0x8000_0000

  /** The sum of two 32-bit numbers, which wraps around to negative ones. */
  function AddInt(x: int, y: int): int {
    if x + y < TWO31 then x + y else x + y - 2 * TWO31
  }

  /** The remainder, which has the dividend's sign. */
  function Remainder(x: int, n: int): int
    requires n > 0
  {
    if x >= 0 then x % n else -(-x % n)
  }

  /** The index that the loop tries after `i` others. */
  function Index(n: nat, start: nat, i: nat): int
    requires n > 0
  {
    Remainder(AddInt(start, i), n)
  }

  /** What PickPrimary does from the `i`-th try on; None when an index is out of range. */
  ghost function PickFrom(n: nat, start: nat, unhealthy: nat -> bool, i: nat): Option<nat>
    requires n > 0 && i <= n
    decreases n - i
  {
    if i == n then Some(start % n)
    else
      var x := Index(n, start, i);
      if x < 0 then None else if !unhealthy(x) then Some(x) else PickFrom(n, start, unhealthy, i + 1)
  }

  /** PickPrimary: round robin over the replicas not known to be unhealthy, or over all of them.  The loop adds
      in 32 bits; None stands for the exception that a negative index raises. */
  method PickPrimary(n: nat, start: nat, unhealthy: nat -> bool) returns (r: Option<nat>)
    requires n > 0
    ensures r == PickFrom(n, start, unhealthy, 0)
  {
    for i := 0 to n
      invariant PickFrom(n, start, unhealthy, 0) == PickFrom(n, start, unhealthy, i)
    {
      var x := Index(n, start, i);
      if x < 0 {
        return None;
      }
      if !unhealthy(x) {
        return Some(x);
      }
    }
    r := Some(start % n);
  }

  /** `r` is the first replica not known to be unhealthy, going round from `start`, or the one at `start` if
      there is none. */
  ghost predicate RightPick(n: nat, start: nat, unhealthy: nat -> bool, r: Option<nat>)
    requires n > 0
  {
    && r.Some? && r.value < n
    && if forall i :: 0 <= i < n ==> unhealthy(i) then r.value == Slot(n, start, 0)
       else FirstHealthy(n, start, unhealthy, r.value)
  }

  ghost predicate FirstHealthy(n: nat, start: nat, unhealthy: nat -> bool, r: nat)
    requires n > 0
  {
    exists i: nat :: i < n && r == Slot(n, start, i) && !unhealthy(r)
      && forall j :: 0 <= j < i ==> unhealthy(Slot(n, start, j))
  }

  /** No index of the loop overflows, or only the last one does, to a multiple of `n`. */
  ghost predicate NoOverflow(n: nat, start: nat)
    requires n > 0
  {
    start + n <= TWO31 || (start + n == TWO31 + 1 && TWO31 % n == 0)
  }

  lemma IndexIsSlot(n: nat, start: nat, i: nat)
    requires n > 0 && i < n && NoOverflow(n, start)
    ensures Index(n, start, i) == Slot(n, start, i)
  {
    assert start + i < TWO31 || start + i == TWO31;
  }

  lemma {:induction false} PickFromRight(n: nat, start: nat, unhealthy: nat -> bool, i: nat)
    requires n > 0 && i <= n && NoOverflow(n, start) && forall j :: 0 <= j < i ==> unhealthy(Slot(n, start, j))
    ensures RightPick(n, start, unhealthy, PickFrom(n, start, unhealthy, i))
    decreases n - i
  {
    if i == n {
      assert start % n == Slot(n, start, 0);
      forall r | 0 <= r < n ensures unhealthy(r) {
        var j := SlotReached(n, start, r);
      }
    } else {
      IndexIsSlot(n, start, i);
      if unhealthy(Slot(n, start, i)) {
        PickFromRight(n, start, unhealthy, i + 1);
      }
    }
  }

  /** From a try whose index is negative, the pick fails if every replica before is unhealthy. */
  lemma {:induction false} PickFails(n: nat, start: nat, unhealthy: nat -> bool, i: nat, bad: nat)
    requires n > 0 && i <= bad < n && Index(n, start, bad) < 0 && forall r :: 0 <= r < n ==> unhealthy(r)
    requires forall j :: i <= j < n ==> Index(n, start, j) < n
    ensures PickFrom(n, start, unhealthy, i) == None
    decreases bad - i
  {
    if i < bad && Index(n, start, i) >= 0 {
      PickFails(n, start, unhealthy, i + 1, bad);
    }
  }

  lemma IndexBelow(n: nat, start: nat, j: nat)
    requires n > 0
    ensures Index(n, start, j) < n
  {
  }

  /** Where the loop overflows: at a negative index, unless the condition holds. */
  lemma Overflows(n: nat, start: nat) returns (bad: nat)
    requires n > 0 && start < TWO31 && !NoOverflow(n, start) && n < TWO31
    ensures bad < n && Index(n, start, bad) < 0
  {
    bad := TWO31 - start;
    if TWO31 % n == 0 {
      bad := bad + 1;
      NotBoth(n);
    }
  }

  /** Of two neighbours only one divides 2^31, unless `n` is 1. */
  lemma NotBoth(n: nat)
    requires 1 < n < TWO31 && TWO31 % n == 0
    ensures (TWO31 - 1) % n != 0
  {
    var p := TWO31 / n;
    assert TWO31 == p * n;
    if (TWO31 - 1) % n == 0 {
      var q := (TWO31 - 1) / n;
      assert TWO31 - 1 == q * n;
      Apart(p, q, n);
    }
  }

  lemma Apart(p: nat, q: nat, n: nat)
    requires n > 1
    ensures p * n != q * n + 1
  {
    if p <= q {
      assert p * n <= q * n;
    } else {
      assert p * n >= (q + 1) * n;
    }
  }

  /** The pick is right whatever the replicas' health if and only if the condition holds: a counter below
      2^31 - n, say.  Otherwise there are health states in which it raises an exception. */
  lemma PickIsRightIff(n: nat, start: nat)
    requires 0 < n < TWO31 && start < TWO31
    ensures NoOverflow(n, start) <==>
              forall unhealthy: nat -> bool :: RightPick(n, start, unhealthy, PickFrom(n, start, unhealthy, 0))
  {
    hide PickFrom, RightPick, NoOverflow, Index;
    if NoOverflow(n, start) {
      forall unhealthy: nat -> bool ensures RightPick(n, start, unhealthy, PickFrom(n, start, unhealthy, 0)) {
        PickFromRight(n, start, unhealthy, 0);
      }
    } else {
      var all: nat -> bool := _ => true;
      var bad := Overflows(n, start);
      forall j | 0 <= j < n ensures Index(n, start, j) < n {
        IndexBelow(n, start, j);
      }
      PickFails(n, start, all, 0, bad);
      NoneIsWrong(n, start, all);
    }
  }

  lemma NoneIsWrong(n: nat, start: nat, unhealthy: nat -> bool)
    requires n > 0
    ensures !RightPick(n, start, unhealthy, None)
  {
  }

  /** With three replicas and the counter at its largest, an unhealthy first choice is enough. */
  lemma PickOverflows()
    ensures PickFrom(3, 2147483647, r => r == 1, 0) == None
  {
    assert Index(3, 2147483647, 0) == 1;
    assert Index(3, 2147483647, 1) == -2;
  }

  ghost predicate Tried(attempts: seq<Attempt>, r: nat) {
    exists i :: 0 <= i < |attempts| && attempts[i].replica == r
  }

  ghost predicate IsAlternate(n: nat, attempts: seq<Attempt>, unhealthy: nat -> bool, alt: nat)
    ensures IsAlternate(n, attempts, unhealthy, alt) ==> alt < n && !Tried(attempts, alt)
  {
    && alt < n && !Tried(attempts, alt)
    && (unhealthy(alt) ==> forall r :: 0 <= r < n && !Tried(attempts, r) ==> unhealthy(r))
    && (forall r :: 0 <= r < alt ==> Tried(attempts, r) || (!unhealthy(alt) && unhealthy(r)))
  }

  /** PickAlternate: the first untried replica that is not unhealthy, or else the first untried one. */
  method PickAlternate(n: nat, attempts: seq<Attempt>, unhealthy: nat -> bool) returns (alt: Option<nat>)
    ensures alt.None? <==> forall r :: 0 <= r < n ==> Tried(attempts, r)
    ensures alt.Some? ==> IsAlternate(n, attempts, unhealthy, alt.value)
  {
    var fallback: Option<nat> := None;
    for r := 0 to n
      invariant fallback.None? ==> forall x :: 0 <= x < r ==> Tried(attempts, x)
      invariant fallback.Some? ==> fallback.value < r && !Tried(attempts, fallback.value) && unhealthy(fallback.value)
      invariant fallback.Some? ==> forall x :: 0 <= x < fallback.value ==> Tried(attempts, x)
      invariant forall x :: 0 <= x < r && !Tried(attempts, x) ==> unhealthy(x)
    {
      var tried := Excluded(attempts, r);
      if !tried {
        if !unhealthy(r) {
          return Some(r);
        }
        if fallback.None? {
          fallback := Some(r);
        }
      }
    }
    alt := fallback;
  }

  method Excluded(attempts: seq<Attempt>, r: nat) returns (b: bool)
    ensures b <==> Tried(attempts, r)
  {
    b := false;
    for i := 0 to |attempts|
      invariant b <==> exists j :: 0 <= j < i && attempts[j].replica == r
    {
      if attempts[i].replica == r {
        b := true;
      }
    }
  }

  // ---------------------------------------------------------------------------------------------
  // One slice request
  // ---------------------------------------------------------------------------------------------

  function Pending(attempts: seq<Attempt>): (p: seq<nat>)
    ensures forall i :: 0 <= i < |p| ==> p[i] < |attempts| && !attempts[p[i]].done
    ensures forall a :: 0 <= a < |attempts| && !attempts[a].done ==> a in p
    ensures |p| <= |attempts|
  {
    if attempts == [] then []
    else
      var n := |attempts| - 1;
      Pending(attempts[..n]) + if attempts[n].done then [] else [n]
  }

  function OfKind(attempts: seq<Attempt>, k: Kind): nat {
    if attempts == [] then 0
    else OfKind(attempts[..|attempts| - 1], k) + if attempts[|attempts| - 1].kind == k then 1 else 0
  }

  ghost predicate DistinctReplicas(attempts: seq<Attempt>, n: nat) {
    && (forall i :: 0 <= i < |attempts| ==> attempts[i].replica < n)
    && (forall i, j :: 0 <= i < j < |attempts| ==> attempts[i].replica != attempts[j].replica)
  }

  lemma {:induction false} CountKinds(attempts: seq<Attempt>)
    ensures OfKind(attempts, Primary) + OfKind(attempts, Hedge) + OfKind(attempts, Failover) == |attempts|
  {
    if attempts != [] {
      CountKinds(attempts[..|attempts| - 1]);
    }
  }

  lemma OfKindNext(attempts: seq<Attempt>, a: Attempt, k: Kind)
    ensures OfKind(attempts + [a], k) == OfKind(attempts, k) + if a.kind == k then 1 else 0
  {
    assert (attempts + [a])[..|attempts|] == attempts;
  }

  /** Ending or cancelling attempts changes neither their kinds nor their replicas. */
  ghost predicate SameRequests(a: seq<Attempt>, b: seq<Attempt>) {
    |a| == |b| && forall i :: 0 <= i < |a| ==> a[i].kind == b[i].kind && a[i].replica == b[i].replica
  }

  lemma {:induction false} SameKinds(a: seq<Attempt>, b: seq<Attempt>, k: Kind)
    requires SameRequests(a, b)
    ensures OfKind(a, k) == OfKind(b, k)
    decreases |a|
  {
    if a != [] {
      SameKinds(a[..|a| - 1], b[..|b| - 1], k);
    }
  }

  lemma NoMoreThanReplicas(attempts: seq<Attempt>, n: nat)
    requires DistinctReplicas(attempts, n)
    ensures |attempts| <= n
  {
    var rs := seq(|attempts|, i requires 0 <= i < |attempts| => attempts[i].replica);
    Pigeons(rs, n);
  }

  /** What every step keeps of the attempts: one primary, at most one hedge, paid for with a token, and at
      most one failover, all on different replicas. */
  ghost predicate Shape(attempts: seq<Attempt>, n: nat, hedgeTimer: bool, failoverUsed: bool, tokens: nat)
    ensures Shape(attempts, n, hedgeTimer, failoverUsed, tokens) ==> DistinctReplicas(attempts, n) && |attempts| > 0
  {
    OfKindBounds(attempts, Primary);
    && DistinctReplicas(attempts, n)
    && OfKind(attempts, Primary) == 1 && OfKind(attempts, Hedge) == tokens
    && tokens + (if hedgeTimer then 1 else 0) <= 1
    && OfKind(attempts, Failover) == (if failoverUsed then 1 else 0)
  }

  lemma OfKindBounds(attempts: seq<Attempt>, k: Kind)
    ensures OfKind(attempts, k) > 0 ==> |attempts| > 0
  {
  }

  lemma {:induction false} OfKindHas(attempts: seq<Attempt>, i: nat)
    requires i < |attempts|
    ensures OfKind(attempts, attempts[i].kind) >= 1
  {
    if i < |attempts| - 1 {
      OfKindHas(attempts[..|attempts| - 1], i);
    }
  }

  lemma ShapeStart(a: Attempt)
    requires a.kind == Primary
    ensures forall n, hedgeTimer :: a.replica < n ==> Shape([a], n, hedgeTimer, false, 0)
  {
    assert [a][..0] == [];
    assert forall k :: OfKind([a], k) == if a.kind == k then 1 else 0;
  }

  lemma ShapeNext(attempts: seq<Attempt>, n: nat, hedgeTimer: bool, failoverUsed: bool, tokens: nat, a: Attempt)
    requires Shape(attempts, n, hedgeTimer, failoverUsed, tokens) && a.replica < n && !Tried(attempts, a.replica)
    ensures a.kind == Hedge && hedgeTimer ==> Shape(attempts + [a], n, false, failoverUsed, tokens + 1)
    ensures a.kind == Failover && !failoverUsed ==> Shape(attempts + [a], n, hedgeTimer, true, tokens)
  {
    hide OfKind, Tried;
    OfKindNext(attempts, a, Primary);
    OfKindNext(attempts, a, Hedge);
    OfKindNext(attempts, a, Failover);
    forall i | 0 <= i < |attempts| ensures attempts[i].replica != a.replica {
      IsTried(attempts, i);
    }
  }

  lemma IsTried(attempts: seq<Attempt>, i: nat)
    requires i < |attempts|
    ensures Tried(attempts, attempts[i].replica)
  {
  }

  lemma ShapeTimer(attempts: seq<Attempt>, n: nat, hedgeTimer: bool, failoverUsed: bool, tokens: nat)
    requires Shape(attempts, n, hedgeTimer, failoverUsed, tokens)
    ensures Shape(attempts, n, false, failoverUsed, tokens)
  {
  }

  lemma ShapeSame(a: seq<Attempt>, b: seq<Attempt>, n: nat, hedgeTimer: bool, failoverUsed: bool, tokens: nat)
    requires Shape(a, n, hedgeTimer, failoverUsed, tokens) && SameRequests(a, b)
    ensures Shape(b, n, hedgeTimer, failoverUsed, tokens)
  {
    hide OfKind;
    SameKinds(a, b, Primary);
    SameKinds(a, b, Hedge);
    SameKinds(a, b, Failover);
  }

  lemma ShapeEnds(attempts: seq<Attempt>, n: nat, hedgeTimer: bool, failoverUsed: bool, tokens: nat)
    requires Shape(attempts, n, hedgeTimer, failoverUsed, tokens)
    ensures |attempts| == 1 + tokens + (if failoverUsed then 1 else 0) <= (if n < 3 then n else 3)
    ensures forall i :: 0 <= i < |attempts| && attempts[i].kind == Hedge ==> tokens == 1
  {
    hide OfKind;
    CountKinds(attempts);
    NoMoreThanReplicas(attempts, n);
    forall i | 0 <= i < |attempts| && attempts[i].kind == Hedge ensures tokens == 1 {
      OfKindHas(attempts, i);
    }
  }

  lemma PendingNext(attempts: seq<Attempt>, a: Attempt)
    requires !a.done
    ensures |Pending(attempts + [a])| == |Pending(attempts)| + 1
  {
    assert (attempts + [a])[..|attempts|] == attempts;
  }

  lemma PendingOne(a: Attempt)
    ensures Pending([a]) == if a.done then [] else [0]
  {
    assert [a][..0] == [];
  }

  /** No attempt has been told to stop. */
  ghost predicate NoneCancelled(attempts: seq<Attempt>) {
    forall i :: 0 <= i < |attempts| ==> !attempts[i].cancelled
  }

  /** Exactly the attempts still running have been told to stop. */
  ghost predicate LosersCancelled(attempts: seq<Attempt>) {
    forall i :: 0 <= i < |attempts| ==> (attempts[i].cancelled <==> !attempts[i].done)
  }

  ghost predicate AllDone(attempts: seq<Attempt>) {
    forall i :: 0 <= i < |attempts| ==> attempts[i].done
  }

  /** The log has exactly the attempts that ended, each once. */
  ghost predicate Logged(attempts: seq<Attempt>, log: seq<Report>) {
    && (forall j :: 0 <= j < |log| ==> log[j].attempt < |attempts| && attempts[log[j].attempt].done)
    && (forall i, j :: 0 <= i < j < |log| ==> log[i].attempt != log[j].attempt)
    && (forall i :: 0 <= i < |attempts| && attempts[i].done ==> HasReport(log, i))
  }

  ghost predicate HasReport(log: seq<Report>, i: nat) {
    exists j :: 0 <= j < |log| && log[j].attempt == i
  }

  /** The log holds what the environment answered, in order, up to its `step`-th answer. */
  ghost predicate FromEnv(log: seq<Report>, env: nat -> Answer, step: nat) {
    && (forall j :: 0 <= j < |log| ==>
          log[j].step < step && log[j].status == env(log[j].step).status && log[j].partial == env(log[j].step).partial)
    && (forall i, j :: 0 <= i < j < |log| ==> log[i].step < log[j].step)
  }

  /** No attempt that ended reported a success. */
  ghost predicate NoSuccess(log: seq<Report>) {
    forall j :: 0 <= j < |log| ==> log[j].status != Success
  }

  /** The last failure in the log, other than the answer to a cancellation. */
  ghost function LastFailure(log: seq<Report>): Option<Status> {
    if log == [] then None
    else
      var last := log[|log| - 1].status;
      if last != Cancelled then Some(last) else LastFailure(log[..|log| - 1])
  }

  /** How a request may end: with its only success, the last report, whose attempt is `winner`; or with all
      attempts failed, and the last failure as the reason. */
  ghost predicate EndsWith(log: seq<Report>, o: Outcome, winner: Option<nat>) {
    if o.status == Failed then NoSuccess(log) && winner.None? && o.reason == LastFailure(log)
    else
      && log != [] && NoSuccess(log[..|log| - 1]) && winner.Some? && o.reason.None?
      && (var last := log[|log| - 1];
          last.attempt == winner.value && last.status == Success && o.status == if last.partial then Partial else Whole)
  }

  lemma LogNext(attempts: seq<Attempt>, log: seq<Report>, env: nat -> Answer, step0: nat, i: nat, x: Answer, step: nat)
    requires Logged(attempts, log) && FromEnv(log, env, step0) && step0 <= step && x == env(step)
    requires i < |attempts| && !attempts[i].done
    ensures var log' := log + [Report(i, x.status, x.partial, step)];
            Logged(attempts[i := attempts[i].(done := true)], log') && FromEnv(log', env, step + 1)
  {
    var log' := log + [Report(i, x.status, x.partial, step)];
    var more := attempts[i := attempts[i].(done := true)];
    forall a | 0 <= a < |more| && more[a].done ensures HasReport(log', a) {
      if a == i {
        assert log'[|log|].attempt == i;
      } else {
        assert HasReport(log, a);
        var j :| 0 <= j < |log| && log[j].attempt == a;
        assert log'[j].attempt == a;
      }
    }
  }

  lemma LogStays(a: seq<Attempt>, b: seq<Attempt>, log: seq<Report>)
    requires Logged(a, log) && |a| <= |b| && (forall i :: 0 <= i < |a| ==> b[i].done == a[i].done)
    requires forall i :: |a| <= i < |b| ==> !b[i].done
    ensures Logged(b, log)
  {
  }

  lemma LogEnds(log: seq<Report>, i: nat, x: Answer, step: nat, o: Outcome)
    requires NoSuccess(log)
    ensures var log' := log + [Report(i, x.status, x.partial, step)];
            && (x.status == Success && o.reason.None? && o.status == (if x.partial then Partial else Whole) ==>
                  EndsWith(log', o, Some(i)))
            && (x.status != Success ==> NoSuccess(log'))
            && LastFailure(log') == if x.status != Cancelled then Some(x.status) else LastFailure(log)
  {
    var log' := log + [Report(i, x.status, x.partial, step)];
    assert log'[..|log|] == log;
  }

  // ---------------------------------------------------------------------------------------------
  // The rules of a request, turn by turn
  // ---------------------------------------------------------------------------------------------

  /** What a request knows when it waits. */
  datatype Situation =
    Situation(attempts: seq<Attempt>, hedgeTimer: bool, failoverUsed: bool, lastFailure: Option<Status>)

  /** One more request, to the replica that PickAlternate picks. */
  ghost predicate Sent(n: nat, before: seq<Attempt>, after: seq<Attempt>, k: Kind, unhealthy: nat -> bool) {
    exists r: nat :: after == before + [Attempt(r, k, false, false)] && IsAlternate(n, before, unhealthy, r)
  }

  ghost predicate Untried(n: nat, attempts: seq<Attempt>) {
    exists r :: 0 <= r < n && !Tried(attempts, r)
  }

  /** A failover is due: none was sent, they are on, the last failure was quick, there is time and a replica. */
  ghost predicate FailsOver(n: nat, options: Options, a: Situation, x: Answer) {
    && !a.failoverUsed && options.failover && !x.expired && Untried(n, a.attempts)
    && (a.lastFailure == Some(Unavailable) || a.lastFailure == Some(Error))
  }

  /** A hedge is due when the timer ends: it was not cancelled, there is time, a replica and a token. */
  ghost predicate Hedges(n: nat, a: Situation, x: Answer) {
    !x.timerCancelled && !x.expired && Untried(n, a.attempts) && x.token
  }

  /** Which of the things waited for ends first: an attempt in flight or, after them, the timer. */
  ghost function First(a: Situation, x: Answer): nat
    requires Pending(a.attempts) != []
  {
    x.first % (|Pending(a.attempts)| + if a.hedgeTimer then 1 else 0)
  }

  ghost predicate TimerEnds(a: Situation, x: Answer) {
    Pending(a.attempts) != [] && First(a, x) == |Pending(a.attempts)|
  }

  /** The attempt that ends. */
  ghost predicate AttemptEnds(a: Situation, x: Answer, i: nat) {
    Pending(a.attempts) != [] && First(a, x) < |Pending(a.attempts)| && i == Pending(a.attempts)[First(a, x)]
  }

  /** A turn after which the request goes on. */
  ghost predicate Turn(n: nat, options: Options, a: Situation, x: Answer, b: Situation) {
    if AllDone(a.attempts) then
      && FailsOver(n, options, a, x) && Sent(n, a.attempts, b.attempts, Failover, x.unhealthy)
      && b == Situation(b.attempts, a.hedgeTimer, true, a.lastFailure)
    else if TimerEnds(a, x) then
      && (if Hedges(n, a, x) then Sent(n, a.attempts, b.attempts, Hedge, x.unhealthy) else b.attempts == a.attempts)
      && b == Situation(b.attempts, false, a.failoverUsed, a.lastFailure)
    else
      x.status != Success
      && exists i: nat ::
        AttemptEnds(a, x, i) && i < |a.attempts|
        && b == Situation(a.attempts[i := a.attempts[i].(done := true)], a.hedgeTimer, a.failoverUsed,
                          if x.status == Cancelled then a.lastFailure else Some(x.status))
  }

  /** A turn that ends the request with `o` and leaves `attempts`. */
  ghost predicate LastTurn(n: nat, options: Options, a: Situation, x: Answer, o: Outcome, attempts: seq<Attempt>) {
    if AllDone(a.attempts) then
      !FailsOver(n, options, a, x) && o == Outcome(Failed, false, a.lastFailure, |a.attempts|) && attempts == a.attempts
    else
      x.status == Success
      && exists i: nat ::
        AttemptEnds(a, x, i) && i < |a.attempts| && attempts == Stopped(a.attempts, i)
        && o == Outcome(if x.partial then Partial else Whole, a.attempts[i].kind == Hedge, None, |a.attempts|)
  }

  /** Attempt `i` is done, and those that are not are told to stop. */
  ghost function Stopped(attempts: seq<Attempt>, i: nat): seq<Attempt> {
    seq(|attempts|, j requires 0 <= j < |attempts| =>
      if j == i then attempts[j].(done := true)
      else if attempts[j].done then attempts[j] else attempts[j].(cancelled := true))
  }

  /** The turns so far, from the primary on, with what the environment answered. */
  ghost predicate History(n: nat, options: Options, primary: nat, timed: bool, env: nat -> Answer, past: seq<Situation>)
    ensures History(n, options, primary, timed, env, past) ==> past != []
  {
    && past != [] && past[0] == Situation([Attempt(primary, Primary, false, false)], timed, false, None)
    && (forall i :: 0 <= i < |past| - 1 ==> Turn(n, options, past[i], env(i), past[i + 1]))
  }

  lemma HistoryNext(n: nat, options: Options, primary: nat, timed: bool, env: nat -> Answer, past: seq<Situation>,
                    b: Situation)
    requires History(n, options, primary, timed, env, past)
    requires Turn(n, options, past[|past| - 1], env(|past| - 1), b)
    ensures History(n, options, primary, timed, env, past + [b])
  {
    hide Turn;
    var more := past + [b];
    forall i | 0 <= i < |more| - 1 ensures Turn(n, options, more[i], env(i), more[i + 1]) {
      assert i < |past| - 1 ==> Turn(n, options, past[i], env(i), past[i + 1]);
    }
  }

  /** A failure that an attempt reported, as opposed to a success or the answer to a cancellation. */
  ghost predicate IsFailure(f: Option<Status>) {
    f.Some? ==> f.value != Success && f.value != Cancelled
  }

  /** The first request went to the primary. */
  ghost predicate Begun(attempts: seq<Attempt>, primary: nat) {
    attempts != [] && attempts[0].kind == Primary && attempts[0].replica == primary
  }

  class SliceRequest {
    const n: nat
    const primary: nat
    const options: Options
    const timed: bool
    var attempts: seq<Attempt>
    var hedgeTimer: bool
    var failoverUsed: bool
    var lastFailure: Option<Status>
    var tokens: nat
    var succeeded: Option<nat>
    ghost var log: seq<Report>

    /** What every turn of the loop starts from: no attempt has succeeded, and so none is cancelled. */
    ghost predicate Waiting()
      reads this
      ensures Waiting() ==> Shape(attempts, n, hedgeTimer, failoverUsed, tokens) && NoneCancelled(attempts)
      ensures Waiting() ==> IsFailure(lastFailure) && succeeded.None? && (hedgeTimer || tokens > 0 ==> timed)
      ensures Waiting() ==> Logged(attempts, log) && NoSuccess(log) && lastFailure == LastFailure(log)
      ensures Waiting() ==> Begun(attempts, primary)
    {
      && Begun(attempts, primary) && Shape(attempts, n, hedgeTimer, failoverUsed, tokens)
      && NoneCancelled(attempts) && IsFailure(lastFailure)
      && succeeded.None? && (hedgeTimer || tokens > 0 ==> timed)
      && Logged(attempts, log) && NoSuccess(log) && lastFailure == LastFailure(log)
    }

    /** How the request may end: on a success, with the losers cancelled, or with nothing in flight. */
    ghost predicate Ended(o: Outcome)
      reads this
      ensures Ended(o) ==> Shape(attempts, n, hedgeTimer, failoverUsed, tokens) && o.attempts == |attempts|
      ensures Ended(o) ==> (o.status == Failed <==> succeeded.None?) && (tokens > 0 ==> timed)
      ensures Ended(o) && o.status == Failed ==> AllDone(attempts) && !o.hedgeWon && o.reason == lastFailure
      ensures Ended(o) && o.status != Failed ==> succeeded.value < |attempts| && attempts[succeeded.value].done
      ensures Ended(o) && o.status != Failed ==> LosersCancelled(attempts) && o.reason.None?
      ensures Ended(o) && o.status != Failed ==> o.hedgeWon == (attempts[succeeded.value].kind == Hedge)
      ensures Ended(o) ==> Logged(attempts, log) && EndsWith(log, o, succeeded) && Begun(attempts, primary)
    {
      && Begun(attempts, primary) && Logged(attempts, log) && EndsWith(log, o, succeeded)
      && Shape(attempts, n, hedgeTimer, failoverUsed, tokens) && o.attempts == |attempts| && (tokens > 0 ==> timed)
      && if o.status == Failed then succeeded.None? && AllDone(attempts) && !o.hedgeWon && o.reason == lastFailure
         else
           && succeeded.Some? && succeeded.value < |attempts| && attempts[succeeded.value].done
           && LosersCancelled(attempts) && o.reason.None?
           && o.hedgeWon == (attempts[succeeded.value].kind == Hedge)
    }

    /** How many more times the loop can wait. */
    ghost function Left(): (l: nat)
      reads this
      ensures l == |Pending(attempts)| + (if hedgeTimer then 2 else 0) + (if failoverUsed then 0 else 2)
    {
      |Pending(attempts)| + (if hedgeTimer then 2 else 0) + (if failoverUsed then 0 else 2)
    }

    constructor (n: nat, options: Options, primary: nat, hedgeTimer: bool)
      requires primary < n
      ensures Waiting() && this.n == n && this.primary == primary && this.options == options && timed == hedgeTimer
      ensures log == [] && Now() == Situation([Attempt(primary, Primary, false, false)], timed, false, None)
    {
      this.n, this.primary, this.options, timed := n, primary, options, hedgeTimer;
      attempts := [Attempt(primary, Primary, false, false)];
      this.hedgeTimer, failoverUsed, lastFailure, tokens, succeeded, log := hedgeTimer, false, None, 0, None, [];
      new;
      hide OfKind, Shape;
      ShapeStart(attempts[0]);
    }

    ghost function Now(): (a: Situation)
      reads this
      ensures a == Situation(attempts, hedgeTimer, failoverUsed, lastFailure)
    {
      Situation(attempts, hedgeTimer, failoverUsed, lastFailure)
    }

    /** Nothing is in flight: one failover, if the last failure was quick enough, or the end. */
    method AllFailed(x: Answer) returns (ended: Option<Outcome>)
      requires Waiting() && Pending(attempts) == []
      modifies this
      ensures log == old(log)
      ensures ended.None? ==> Waiting() && Left() < old(Left()) && Turn(n, options, old(Now()), x, Now())
      ensures ended.Some? ==> Ended(ended.value) && LastTurn(n, options, old(Now()), x, ended.value, attempts)
      ensures ended.Some? ==> ended.value.status == Failed && Now() == old(Now()) && IsFailure(lastFailure)
    {
      hide OfKind, Pending, Shape, DistinctReplicas, Tried, Left, Logged, NoSuccess, LastFailure, IsAlternate,
        HasReport;
      var alt: Option<nat> := None;
      NothingInFlight(attempts);
      if !failoverUsed && options.failover && lastFailure.Some?
         && (lastFailure.value == Unavailable || lastFailure.value == Error)
         && !x.expired {
        alt := PickAlternate(n, attempts, x.unhealthy);
      }
      if alt.Some? {
        var a := Attempt(alt.value, Failover, false, false);
        ShapeNext(attempts, n, hedgeTimer, failoverUsed, tokens, a);
        PendingNext(attempts, a);
        IsSent(n, attempts, alt.value, Failover, x.unhealthy);
        failoverUsed := true;
        LogStays(attempts, attempts + [a], log);
        attempts := attempts + [a];
        return None;
      }
      ended := Some(Outcome(Failed, false, lastFailure, |attempts|));
    }

    /** The hedge timer ended: at most one hedge, on an untried replica, if the budget grants a token. */
    method TimerEnded(x: Answer)
      requires Waiting() && hedgeTimer && !AllDone(attempts) && TimerEnds(Now(), x)
      modifies this
      ensures Waiting() && Left() < old(Left()) && log == old(log)
      ensures Turn(n, options, old(Now()), x, Now())
    {
      hide OfKind, Pending, Shape, DistinctReplicas, Tried, Left, Logged, NoSuccess, LastFailure, IsAlternate,
        HasReport;
      ShapeTimer(attempts, n, hedgeTimer, failoverUsed, tokens);
      if x.timerCancelled || |Pending(attempts)| == 0 || x.expired {
        hedgeTimer := false;
        return;
      }
      var alt := PickAlternate(n, attempts, x.unhealthy);
      if alt.Some? && x.token {
        var a := Attempt(alt.value, Hedge, false, false);
        ShapeNext(attempts, n, hedgeTimer, failoverUsed, tokens, a);
        PendingNext(attempts, a);
        IsSent(n, attempts, alt.value, Hedge, x.unhealthy);
        tokens := tokens + 1;
        LogStays(attempts, attempts + [a], log);
        attempts := attempts + [a];
      }
      hedgeTimer := false;
    }

    /** An attempt ended.  The first success ends the request and cancels whatever is still running. */
    method AttemptEnded(i: nat, x: Answer, ghost env: nat -> Answer, ghost step: nat) returns (ended: Option<Outcome>)
      requires Waiting() && i < |attempts| && !attempts[i].done && FromEnv(log, env, step) && x == env(step)
      requires !AllDone(attempts) && AttemptEnds(Now(), x, i)
      modifies this
      ensures SameRequests(old(attempts), attempts)
      ensures ended.None? ==> Turn(n, options, old(Now()), x, Now())
      ensures ended.Some? ==> LastTurn(n, options, old(Now()), x, ended.value, attempts)
      ensures log == old(log) + [Report(i, x.status, x.partial, step)] && FromEnv(log, env, step + 1)
      ensures ended.Some? <==> x.status == Success
      ensures ended.None? ==> Waiting() && Left() < old(Left())
      ensures ended.Some? ==> Ended(ended.value) && succeeded == Some(i)
                              && ended.value.status == (if x.partial then Partial else Whole)
    {
      hide OfKind, Pending, Shape, DistinctReplicas, Left, Logged, FromEnv, NoSuccess, LastFailure, EndsWith;
      ghost var before := attempts;
      OneDone(attempts, i);
      LogNext(attempts, log, env, step, i, x, step);
      var o := Outcome(if x.partial then Partial else Whole, attempts[i].kind == Hedge, None, |attempts|);
      LogEnds(log, i, x, step, o);
      log := log + [Report(i, x.status, x.partial, step)];
      attempts := attempts[i := attempts[i].(done := true)];
      ghost var ended0 := attempts;
      if x.status == Success {
        succeeded := Some(i);
        ended := Some(o);
        CancelOthers();
        assert attempts == Stopped(before, i);
        LogStays(ended0, attempts, log);
        ShapeSame(before, attempts, n, hedgeTimer, failoverUsed, tokens);
      } else {
        ShapeSame(before, attempts, n, hedgeTimer, failoverUsed, tokens);
        if x.status != Cancelled {
          lastFailure := Some(x.status);
        }
        ended := None;
      }
    }

    method CancelOthers()
      requires NoneCancelled(attempts)
      modifies this`attempts
      ensures SameRequests(old(attempts), attempts) && LosersCancelled(attempts)
      ensures forall j :: 0 <= j < |attempts| ==> attempts[j].done == old(attempts)[j].done
      ensures forall j :: 0 <= j < |attempts| && attempts[j].done ==> attempts[j] == old(attempts)[j]
    {
      ghost var before := attempts;
      for j := 0 to |attempts|
        invariant SameRequests(before, attempts)
        invariant forall k :: 0 <= k < |attempts| ==> attempts[k].done == before[k].done
        invariant forall k :: 0 <= k < j ==> (attempts[k].cancelled <==> !attempts[k].done)
        invariant forall k :: j <= k < |attempts| ==> !attempts[k].cancelled
      {
        if !attempts[j].done {
          attempts := attempts[j := attempts[j].(cancelled := true)];
        }
      }
    }

    /** The loop: wait for the first of the attempts in flight and the timer, whichever it is, until the
        request ends.  It always does. */
    method Run(env: nat -> Answer) returns (o: Outcome, ghost past: seq<Situation>)
      requires Waiting() && log == []
      requires Now() == Situation([Attempt(primary, Primary, false, false)], timed, false, None)
      modifies this
      ensures Ended(o) && FromEnv(log, env, |past|) && History(n, options, primary, timed, env, past)
      ensures LastTurn(n, options, past[|past| - 1], env(|past| - 1), o, attempts)
      ensures o.status == Failed ==> past[|past| - 1] == Now() && IsFailure(lastFailure)
    {
      hide *;
      var step := 0;
      past := [Now()];
      NothingLogged(env);
      HistoryStart(n, options, primary, timed, env);
      while true
        invariant Waiting() && |past| == step + 1 && FromEnv(log, env, step) && past[step] == Now()
        invariant History(n, options, primary, timed, env, past)
        decreases Left()
      {
        var x := env(step);
        var pending := Pending(attempts);
        PendingOrDone(attempts);
        if |pending| == 0 {
          var ended := AllFailed(x);
          LogLater(log, env, step);
          if ended.Some? {
            return ended.value, past;
          }
        } else {
          FirstIs(Now(), x);
          var first := x.first % (|pending| + if hedgeTimer then 1 else 0);
          if first == |pending| {
            TimerEnded(x);
            LogLater(log, env, step);
          } else {
            var ended := AttemptEnded(pending[first], x, env, step);
            if ended.Some? {
              return ended.value, past;
            }
          }
        }
        HistoryNext(n, options, primary, timed, env, past, Now());
        past := past + [Now()];
        step := step + 1;
      }
    }
  }

  lemma HistoryStart(n: nat, options: Options, primary: nat, timed: bool, env: nat -> Answer)
    ensures var start := Situation([Attempt(primary, Primary, false, false)], timed, false, None);
            History(n, options, primary, timed, env, [start])
  {
  }

  lemma PendingOrDone(attempts: seq<Attempt>)
    ensures Pending(attempts) == [] <==> AllDone(attempts)
  {
    NothingInFlight(attempts);
    if Pending(attempts) != [] {
      assert !attempts[Pending(attempts)[0]].done;
    }
  }

  lemma FirstIs(a: Situation, x: Answer)
    requires Pending(a.attempts) != []
    ensures var p := Pending(a.attempts);
            var f := x.first % (|p| + if a.hedgeTimer then 1 else 0);
            && (TimerEnds(a, x) <==> f == |p|) && (f == |p| ==> a.hedgeTimer)
            && (f != |p| ==> f < |p| && AttemptEnds(a, x, p[f]))
  {
    hide Pending;
  }

  lemma IsSent(n: nat, before: seq<Attempt>, r: nat, k: Kind, unhealthy: nat -> bool)
    requires IsAlternate(n, before, unhealthy, r)
    ensures Sent(n, before, before + [Attempt(r, k, false, false)], k, unhealthy)
  {
    hide IsAlternate;
  }

  lemma NothingLogged(env: nat -> Answer)
    ensures FromEnv([], env, 0)
  {
  }

  lemma LogLater(log: seq<Report>, env: nat -> Answer, step: nat)
    requires FromEnv(log, env, step)
    ensures FromEnv(log, env, step + 1)
  {
  }

  lemma NothingInFlight(attempts: seq<Attempt>)
    ensures Pending(attempts) == [] ==> AllDone(attempts)
  {
    forall j | 0 <= j < |attempts| && !attempts[j].done ensures Pending(attempts) != [] {
      assert j in Pending(attempts);
    }
  }

  lemma {:induction false} OneDone(attempts: seq<Attempt>, i: nat)
    requires i < |attempts| && !attempts[i].done
    ensures |Pending(attempts[i := attempts[i].(done := true)])| == |Pending(attempts)| - 1
  {
    hide Pending;
    var n := |attempts| - 1;
    var a, b := attempts[..n], attempts[i := attempts[i].(done := true)];
    PendingLast(attempts);
    PendingLast(b);
    if i < n {
      OneDone(a, i);
      assert b[..n] == a[i := a[i].(done := true)];
    } else {
      assert b[..n] == a;
    }
  }

  lemma PendingLast(attempts: seq<Attempt>)
    requires attempts != []
    ensures |Pending(attempts)| == |Pending(attempts[..|attempts| - 1])|
         + if attempts[|attempts| - 1].done then 0 else 1
  {
  }

  // ---------------------------------------------------------------------------------------------
  // What histories say of hedges and failovers
  // ---------------------------------------------------------------------------------------------

  /** Requests once sent stay as they are. */
  ghost predicate Kept(a: seq<Attempt>, b: seq<Attempt>) {
    |a| <= |b| && forall j :: 0 <= j < |a| ==> b[j].kind == a[j].kind && b[j].replica == a[j].replica
  }

  lemma TurnKeeps(n: nat, options: Options, a: Situation, x: Answer, b: Situation)
    requires Turn(n, options, a, x, b)
    ensures Kept(a.attempts, b.attempts)
  {
    hide IsAlternate, Pending, Untried, FailsOver, Hedges, AllDone;
  }

  lemma LastTurnKeeps(n: nat, options: Options, a: Situation, x: Answer, o: Outcome, attempts: seq<Attempt>)
    requires LastTurn(n, options, a, x, o, attempts)
    ensures SameRequests(a.attempts, attempts)
  {
    hide Pending, Untried, FailsOver, AllDone;
  }

  lemma {:induction false} PastKeeps(n: nat, options: Options, primary: nat, timed: bool, env: nat -> Answer,
                                     past: seq<Situation>, i: nat, j: nat)
    requires History(n, options, primary, timed, env, past) && i <= j < |past|
    ensures Kept(past[i].attempts, past[j].attempts)
    decreases j
  {
    hide Turn;
    if i < j {
      PastKeeps(n, options, primary, timed, env, past, i, j - 1);
      TurnKeeps(n, options, past[j - 1], env(j - 1), past[j]);
    }
  }

  /** The timer ends with something in flight, time left, an untried replica and a token. */
  ghost predicate HedgeIsDue(n: nat, a: Situation, x: Answer) {
    TimerEnds(a, x) && !x.timerCancelled && !x.expired && x.token && Untried(n, a.attempts)
  }

  /** Nothing is in flight, and one quick failure may be answered with one more request. */
  ghost predicate FailoverIsDue(n: nat, options: Options, a: Situation, x: Answer) {
    && AllDone(a.attempts) && !a.failoverUsed && options.failover && !x.expired && Untried(n, a.attempts)
    && (a.lastFailure == Some(Unavailable) || a.lastFailure == Some(Error))
  }

  /** A turn whose moment has come sends its request, which is there to the end. */
  lemma DueIsSent(n: nat, options: Options, primary: nat, timed: bool, env: nat -> Answer, past: seq<Situation>,
                  o: Outcome, attempts: seq<Attempt>, i: nat)
    requires History(n, options, primary, timed, env, past) && i < |past|
    requires LastTurn(n, options, past[|past| - 1], env(|past| - 1), o, attempts)
    ensures HedgeIsDue(n, past[i], env(i)) ==> HasKind(attempts, Hedge, |past[i].attempts|)
    ensures FailoverIsDue(n, options, past[i], env(i)) ==> HasKind(attempts, Failover, |past[i].attempts|)
  {
    hide Turn, LastTurn, HedgeIsDue, FailoverIsDue;
    DueGoesOn(n, options, past[|past| - 1], env(|past| - 1), o, attempts);
    if i < |past| - 1 {
      DueSends(n, options, past[i], env(i), past[i + 1]);
      PastKeeps(n, options, primary, timed, env, past, i + 1, |past| - 1);
      LastTurnKeeps(n, options, past[|past| - 1], env(|past| - 1), o, attempts);
    }
  }

  ghost predicate HasKind(attempts: seq<Attempt>, k: Kind, j: nat) {
    j < |attempts| && attempts[j].kind == k
  }

  lemma DueGoesOn(n: nat, options: Options, a: Situation, x: Answer, o: Outcome, attempts: seq<Attempt>)
    requires LastTurn(n, options, a, x, o, attempts)
    ensures !HedgeIsDue(n, a, x) && !FailoverIsDue(n, options, a, x)
  {
    hide Pending, Untried;
    PendingOrDone(a.attempts);
  }

  lemma DueSends(n: nat, options: Options, a: Situation, x: Answer, b: Situation)
    requires Turn(n, options, a, x, b)
    ensures HedgeIsDue(n, a, x) ==> HasKind(b.attempts, Hedge, |a.attempts|)
    ensures FailoverIsDue(n, options, a, x) ==> HasKind(b.attempts, Failover, |a.attempts|)
    ensures forall j: nat :: |a.attempts| <= j < |b.attempts| ==>
              j == |a.attempts| && ((b.attempts[j].kind == Hedge && HedgeIsDue(n, a, x))
                                    || (b.attempts[j].kind == Failover && FailoverIsDue(n, options, a, x)))
  {
    hide Pending, Untried, IsAlternate;
    PendingOrDone(a.attempts);
  }

  /** The turn at which request `j` was sent. */
  ghost predicate SentAt(n: nat, options: Options, env: nat -> Answer, past: seq<Situation>, k: Kind, j: nat, i: nat) {
    && i < |past| && |past[i].attempts| == j
    && ((k == Hedge && HedgeIsDue(n, past[i], env(i))) || (k == Failover && FailoverIsDue(n, options, past[i], env(i))))
  }

  /** Nothing is sent but the primary, hedges that are due and failovers that are due. */
  lemma {:induction false} SentWasDue(n: nat, options: Options, primary: nat, timed: bool, env: nat -> Answer,
                                      past: seq<Situation>, m: nat, j: nat)
    requires History(n, options, primary, timed, env, past) && m < |past| && 0 < j < |past[m].attempts|
    ensures exists i :: 0 <= i < m && SentAt(n, options, env, past, past[m].attempts[j].kind, j, i)
    decreases m
  {
    hide Turn, HedgeIsDue, FailoverIsDue;
    if m > 0 {
      TurnKeeps(n, options, past[m - 1], env(m - 1), past[m]);
      DueSends(n, options, past[m - 1], env(m - 1), past[m]);
      if j < |past[m - 1].attempts| {
        SentWasDue(n, options, primary, timed, env, past, m - 1, j);
        var i :| 0 <= i < m - 1 && SentAt(n, options, env, past, past[m - 1].attempts[j].kind, j, i);
        assert SentAt(n, options, env, past, past[m].attempts[j].kind, j, i);
      } else {
        assert SentAt(n, options, env, past, past[m].attempts[j].kind, j, m - 1);
      }
    }
  }

  /** How a slice request went: an exception before anything was sent, or an outcome. */
  datatype SliceResult = Threw | Answered(outcome: Outcome)

  /** Nothing is sent if no replica may answer. */
  ghost predicate FailsFast(n: nat, options: Options, unhealthy: nat -> bool) {
    options.failFast && forall r :: 0 <= r < n ==> unhealthy(r)
  }

  /** What a caller may rely on: no more than three requests, none twice to one replica; a result is whole or
      partial exactly if an attempt that ended reported success, and then that report was the last. */
  ghost predicate SliceOk(n: nat, options: Options, unhealthy: nat -> bool, turn: nat, timed: bool, env: nat -> Answer,
                          o: Outcome, attempts: seq<Attempt>, log: seq<Report>, winner: Option<nat>,
                          past: seq<Situation>)
  {
    && o.attempts == |attempts| <= (if n < 3 then n else 3) && DistinctReplicas(attempts, n)
    && OfKind(attempts, Hedge) <= 1 && OfKind(attempts, Failover) <= 1
    && (attempts == [] <==> FailsFast(n, options, unhealthy))
    && (attempts != [] ==>
          PickFrom(n, turn, unhealthy, 0).Some? && Begun(attempts, PickFrom(n, turn, unhealthy, 0).value))
    && Logged(attempts, log) && FromEnv(log, env, |past|) && EndsWith(log, o, winner)
    && (o.status != Failed <==> exists j :: 0 <= j < |log| && log[j].status == Success)
    && (o.status == Failed ==> AllDone(attempts) && !o.hedgeWon)
    && (o.status != Failed ==> winner.value < |attempts| && attempts[winner.value].done && LosersCancelled(attempts))
    && (o.status != Failed ==> o.hedgeWon == (attempts[winner.value].kind == Hedge))
    && (o.hedgeWon ==> OfKind(attempts, Hedge) == 1)
    && (OfKind(attempts, Hedge) == 1 ==> timed)
  }

  /** And what it is owed: every turn follows the rules; a request gives up only where no failover is due; hedges and
      failovers that are due are sent, and no others. */
  ghost predicate RulesKept(n: nat, options: Options, primary: nat, timed: bool, env: nat -> Answer, o: Outcome,
                            attempts: seq<Attempt>, past: seq<Situation>)
  {
    && History(n, options, primary, timed, env, past)
    && LastTurn(n, options, past[|past| - 1], env(|past| - 1), o, attempts)
    && (o.status == Failed ==> GaveUp(n, options, env(|past| - 1), o, attempts))
    && (forall i :: 0 <= i < |past| && HedgeIsDue(n, past[i], env(i)) ==>
          HasKind(attempts, Hedge, |past[i].attempts|))
    && (forall i :: 0 <= i < |past| && FailoverIsDue(n, options, past[i], env(i)) ==>
          HasKind(attempts, Failover, |past[i].attempts|))
    && (forall j :: 0 < j < |attempts| ==> WasDue(n, options, env, past, attempts[j].kind, j))
  }

  /** Why a request may fail: a failover was sent already, they are off, time is up, nothing failed but by time
      running out, or every replica was tried. */
  ghost predicate GaveUp(n: nat, options: Options, x: Answer, o: Outcome, attempts: seq<Attempt>) {
    || OfKind(attempts, Failover) == 1 || !options.failover || x.expired
    || o.reason == None || o.reason == Some(Timeout)
    || (forall r :: 0 <= r < n ==> Tried(attempts, r))
  }

  ghost predicate WasDue(n: nat, options: Options, env: nat -> Answer, past: seq<Situation>, k: Kind, j: nat) {
    exists i :: 0 <= i < |past| && SentAt(n, options, env, past, k, j, i)
  }

  lemma GivesUp(n: nat, options: Options, a: Situation, x: Answer, o: Outcome, attempts: seq<Attempt>, tokens: nat)
    requires LastTurn(n, options, a, x, o, attempts) && o.status == Failed && IsFailure(a.lastFailure)
    requires Shape(attempts, n, a.hedgeTimer, a.failoverUsed, tokens)
    ensures GaveUp(n, options, x, o, attempts)
  {
    hide Pending, OfKind, Tried, AllDone, DistinctReplicas;
  }

  lemma KeepsRules(n: nat, options: Options, primary: nat, timed: bool, env: nat -> Answer, o: Outcome,
                   attempts: seq<Attempt>, past: seq<Situation>)
    requires History(n, options, primary, timed, env, past)
    requires LastTurn(n, options, past[|past| - 1], env(|past| - 1), o, attempts)
    requires o.status == Failed ==> GaveUp(n, options, env(|past| - 1), o, attempts)
    ensures RulesKept(n, options, primary, timed, env, o, attempts, past)
  {
    hide Turn, LastTurn, HedgeIsDue, FailoverIsDue, HasKind, GaveUp, SentAt;
    forall i | 0 <= i < |past|
      ensures HedgeIsDue(n, past[i], env(i)) ==> HasKind(attempts, Hedge, |past[i].attempts|)
      ensures FailoverIsDue(n, options, past[i], env(i)) ==> HasKind(attempts, Failover, |past[i].attempts|)
    {
      DueIsSent(n, options, primary, timed, env, past, o, attempts, i);
    }
    LastTurnKeeps(n, options, past[|past| - 1], env(|past| - 1), o, attempts);
    forall j | 0 < j < |attempts| ensures WasDue(n, options, env, past, attempts[j].kind, j) {
      SentWasDue(n, options, primary, timed, env, past, |past| - 1, j);
    }
  }

  /** SearchSliceAsync: fail at once when every replica is unhealthy, and otherwise start with a primary. */
  method SearchSlice(n: nat, options: Options, unhealthy: nat -> bool, turn: nat, hedgeTimer: bool, env: nat -> Answer)
    returns (r: SliceResult, attempts: seq<Attempt>, ghost log: seq<Report>, ghost winner: Option<nat>,
             ghost past: seq<Situation>)
    requires n > 0
    ensures r.Answered? ==>
              SliceOk(n, options, unhealthy, turn, hedgeTimer, env, r.outcome, attempts, log, winner, past)
    ensures r.Answered? && attempts != [] ==>
              RulesKept(n, options, attempts[0].replica, hedgeTimer, env, r.outcome, attempts, past)
    ensures r.Threw? <==> !FailsFast(n, options, unhealthy) && PickFrom(n, turn, unhealthy, 0) == None
    ensures r.Threw? ==> attempts == [] && !NoOverflow(n, turn)
    ensures r.Answered? && attempts != [] && (forall s: nat :: env(s).status == Success) ==> r.outcome.status != Failed
  {
    hide Pending, OfKind, DistinctReplicas, Logged, FromEnv, EndsWith, PickFrom, NoOverflow, Shape, NoneCancelled,
      NoSuccess, LastFailure, HasReport, SliceRequest.Waiting, SliceRequest.Ended, History, LastTurn, GaveUp, RulesKept;
    log, winner, past := [], None, [];
    NothingLogged(env);
    if options.failFast {
      var down := AllUnhealthy(n, unhealthy);
      if down {
        NothingSent(n);
        return Answered(Outcome(Failed, false, None, 0)), [], [], None, [];
      }
    }
    if NoOverflow(n, turn) {
      PickFromRight(n, turn, unhealthy, 0);
    }
    var primary := PickPrimary(n, turn, unhealthy);
    if primary.None? {
      return Threw, [], [], None, [];
    }
    PickBelow(n, turn, unhealthy, 0);
    var request := new SliceRequest(n, options, primary.value, hedgeTimer);
    var o;
    o, past := request.Run(env);
    attempts, log, winner := request.attempts, request.log, request.succeeded;
    ShapeEnds(attempts, n, request.hedgeTimer, request.failoverUsed, request.tokens);
    ShapeKinds(attempts, n, request.hedgeTimer, request.failoverUsed, request.tokens);
    SuccessIff(attempts, log, o, winner, env, |past|);
    if o.status == Failed {
      GivesUp(n, options, past[|past| - 1], env(|past| - 1), o, attempts, request.tokens);
    }
    KeepsRules(n, options, primary.value, hedgeTimer, env, o, attempts, past);
    r := Answered(o);
  }

  lemma PickBelow(n: nat, start: nat, unhealthy: nat -> bool, i: nat)
    requires n > 0 && i <= n
    ensures PickFrom(n, start, unhealthy, i).Some? ==> PickFrom(n, start, unhealthy, i).value < n
    decreases n - i
  {
  }

  lemma NothingSent(n: nat)
    ensures DistinctReplicas([], n) && Logged([], []) && EndsWith([], Outcome(Failed, false, None, 0), None)
    ensures OfKind([], Hedge) == OfKind([], Failover) == 0
  {
  }

  lemma ShapeKinds(attempts: seq<Attempt>, n: nat, hedgeTimer: bool, failoverUsed: bool, tokens: nat)
    requires Shape(attempts, n, hedgeTimer, failoverUsed, tokens)
    ensures OfKind(attempts, Hedge) == tokens <= 1 && OfKind(attempts, Failover) <= 1
  {
  }

  lemma SuccessIff(attempts: seq<Attempt>, log: seq<Report>, o: Outcome, winner: Option<nat>, env: nat -> Answer,
                   steps: nat)
    requires Logged(attempts, log) && EndsWith(log, o, winner) && FromEnv(log, env, steps)
    ensures o.status != Failed <==> exists j :: 0 <= j < |log| && log[j].status == Success
    ensures AllDone(attempts) && attempts != [] && (forall s: nat :: env(s).status == Success) ==> o.status != Failed
  {
    if o.status != Failed {
      assert log[|log| - 1].status == Success;
    }
    if AllDone(attempts) && attempts != [] {
      assert HasReport(log, 0);
    }
  }

  method AllUnhealthy(n: nat, unhealthy: nat -> bool) returns (b: bool)
    ensures b <==> forall r :: 0 <= r < n ==> unhealthy(r)
  {
    b := true;
    for r := 0 to n
      invariant b <==> forall x :: 0 <= x < r ==> unhealthy(x)
    {
      b := b && unhealthy(r);
    }
  }
}
