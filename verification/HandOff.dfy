/**
  The condition-variable exercise: a producer that stores n values one after another and a consumer that
  takes n values, sharing `data`, `data_ready`, a mutex and a condition variable.  Every lock, store, load,
  signal and wait is a step of its own; a waiting consumer can also wake up without a signal.
*/
module HandOff {

  datatype Owner = Nobody | Producer | Consumer

  /** The producer's next access in its current iteration. */
  datatype PPc = PLock | PStore | PRaise | PSignal | PUnlock | PDone

  /** The consumer's.  CAsleep: in the wait set.  CWaking: woken, about to take the mutex again. */
  datatype CPc = CLock | CTest | CWait | CAsleep | CWaking | CPrint | CReset | CUnlock | CDone

  /**
    `i` and `j` are the loop counters, `printed` the values the consumer has printed.  The last three fields
    only record history: the index of the value in `data`, the indices consumed, and how many stored values
    were stored over before the consumer took them.
  */
  datatype State = State(
    data: int, ready: bool, owner: Owner,
    p: PPc, i: nat, c: CPc, j: nat, printed: seq<int>,
    stamp: nat, taken: seq<nat>, overwritten: nat)

  datatype Actor = Produce | Consume | Spurious

  function Init(n: nat): State {
    State(0, false, Nobody, if n == 0 then PDone else PLock, 0, if n == 0 then CDone else CLock, 0, [], 0, [], 0)
  }

  function ProducerStep(vals: seq<int>, s: State): State {
    match s.p
    case PLock => if s.owner == Nobody then s.(owner := Producer, p := PStore) else s
    case PStore =>
      var v := if s.i < |vals| then vals[s.i] else 0;
      s.(data := v, stamp := s.i, overwritten := s.overwritten + (if s.ready then 1 else 0), p := PRaise)
    case PRaise => s.(ready := true, p := PSignal)
    case PSignal => s.(c := if s.c.CAsleep? then CWaking else s.c, p := PUnlock)
    case PUnlock => s.(owner := Nobody, i := s.i + 1, p := if s.i + 1 < |vals| then PLock else PDone)
    case PDone => s
  }

  function ConsumerStep(vals: seq<int>, s: State): State {
    match s.c
    case CLock => if s.owner == Nobody then s.(owner := Consumer, c := CTest) else s
    case CTest => s.(c := if s.ready then CPrint else CWait)
    case CWait => s.(owner := Nobody, c := CAsleep)
    case CAsleep => s
    case CWaking => if s.owner == Nobody then s.(owner := Consumer, c := CTest) else s
    case CPrint => s.(printed := s.printed + [s.data], taken := s.taken + [s.stamp], c := CReset)
    case CReset => s.(ready := false, c := CUnlock)
    case CUnlock => s.(owner := Nobody, j := s.j + 1, c := if s.j + 1 < |vals| then CLock else CDone)
    case CDone => s
  }

  function Step(vals: seq<int>, s: State, a: Actor): State {
    match a
    case Produce => ProducerStep(vals, s)
    case Consume => ConsumerStep(vals, s)
    case Spurious => s.(c := if s.c.CAsleep? then CWaking else s.c)
  }

  function Exec(vals: seq<int>, s: State, run: seq<Actor>): State {
    if run == [] then s else Step(vals, Exec(vals, s, run[..|run| - 1]), run[|run| - 1])
  }

  /** Values stored so far. */
  function Stored(s: State): nat { s.i + (if s.p.PRaise? || s.p.PSignal? || s.p.PUnlock? then 1 else 0) }

  /** 1 if a stored value has not been printed and can still be. */
  function Fresh(s: State): nat { if (s.ready && !s.c.CReset?) || s.p.PRaise? then 1 else 0 }

  predicate ProducerInside(s: State) { s.p.PStore? || s.p.PRaise? || s.p.PSignal? || s.p.PUnlock? }

  predicate ConsumerInside(s: State) {
    s.c.CTest? || s.c.CWait? || s.c.CPrint? || s.c.CReset? || s.c.CUnlock?
  }

  ghost predicate Control(vals: seq<int>, s: State) {
    && (s.owner == Producer <==> ProducerInside(s))
    && (s.owner == Consumer <==> ConsumerInside(s))
    && s.i <= |vals| && (s.p.PDone? <==> s.i == |vals|)
    && s.j <= |vals| && (s.c.CDone? <==> s.j == |vals|)
    && (s.c.CWait? ==> !s.ready)
    && (s.c.CPrint? || s.c.CReset? ==> s.ready)
    && (s.c.CAsleep? && s.ready ==> s.p.PSignal?)
    && (s.p.PSignal? || s.p.PUnlock? ==> s.ready)
  }

  ghost predicate Accounts(vals: seq<int>, s: State) {
    && |s.printed| == |s.taken| == s.j + (if s.c.CReset? || s.c.CUnlock? then 1 else 0)
    && Stored(s) == |s.taken| + s.overwritten + Fresh(s)
    && (Stored(s) > 0 ==> s.stamp == Stored(s) - 1 && s.stamp < |vals| && s.data == vals[s.stamp])
    && (s.ready ==> Stored(s) > 0)
    && (forall k :: 0 <= k < |s.taken| ==> s.taken[k] < Stored(s) - Fresh(s) && s.taken[k] < |vals|)
    && (forall k :: 0 <= k < |s.taken| ==> s.printed[k] == vals[s.taken[k]])
    && (forall k, l :: 0 <= k < l < |s.taken| ==> s.taken[k] < s.taken[l])
  }

  /** With no value left to print, the one stored last is the one printed last. */
  ghost predicate LastPrinted(s: State) {
    Stored(s) > 0 && Fresh(s) == 0 ==> |s.taken| > 0 && s.taken[|s.taken| - 1] == Stored(s) - 1
  }

  ghost predicate Inv(vals: seq<int>, s: State) { Control(vals, s) && Accounts(vals, s) && LastPrinted(s) }

  lemma StepControl(vals: seq<int>, s: State, a: Actor)
    requires Inv(vals, s)
    ensures Control(vals, Step(vals, s, a))
  {
  }

  lemma ProducerAccounts(vals: seq<int>, s: State)
    requires Inv(vals, s)
    ensures Accounts(vals, ProducerStep(vals, s))
  {
  }

  lemma PrintAccounts(vals: seq<int>, s: State)
    requires Inv(vals, s) && s.c.CPrint?
    ensures Accounts(vals, ConsumerStep(vals, s))
  {
    var s' := ConsumerStep(vals, s);
    var n := |s.taken|;
    assert s'.taken[..n] == s.taken && s'.printed[..n] == s.printed;
    assert s'.taken[n] == s.stamp == Stored(s) - 1 && s'.printed[n] == vals[s.stamp];
  }

  lemma ConsumerAccounts(vals: seq<int>, s: State)
    requires Inv(vals, s)
    ensures Accounts(vals, ConsumerStep(vals, s))
  {
    if s.c.CPrint? {
      PrintAccounts(vals, s);
    } else {
      var s' := ConsumerStep(vals, s);
      assert s'.taken == s.taken && s'.printed == s.printed && s'.data == s.data && s'.stamp == s.stamp;
      assert Stored(s') == Stored(s) && Fresh(s') == Fresh(s);
    }
  }

  lemma StepAccounts(vals: seq<int>, s: State, a: Actor)
    requires Inv(vals, s)
    ensures Accounts(vals, Step(vals, s, a))
  {
    if a.Produce? {
      ProducerAccounts(vals, s);
    } else if a.Consume? {
      ConsumerAccounts(vals, s);
    }
  }

  lemma StepLastPrinted(vals: seq<int>, s: State, a: Actor)
    requires Inv(vals, s)
    ensures LastPrinted(Step(vals, s, a))
  {
  }

  lemma {:induction false} RunInv(vals: seq<int>, run: seq<Actor>)
    ensures Inv(vals, Exec(vals, Init(|vals|), run))
  {
    if run == [] {
    } else {
      var prefix := run[..|run| - 1];
      RunInv(vals, prefix);
      StepControl(vals, Exec(vals, Init(|vals|), prefix), run[|run| - 1]);
      StepAccounts(vals, Exec(vals, Init(|vals|), prefix), run[|run| - 1]);
      StepLastPrinted(vals, Exec(vals, Init(|vals|), prefix), run[|run| - 1]);
    }
  }

  ghost predicate Reachable(vals: seq<int>, s: State) {
    exists run: seq<Actor> :: s == Exec(vals, Init(|vals|), run)
  }

  lemma ReachableInv(vals: seq<int>, s: State)
    requires Reachable(vals, s)
    ensures Inv(vals, s)
  {
    var run: seq<Actor> :| s == Exec(vals, Init(|vals|), run);
    RunInv(vals, run);
  }

  /** Between lock and unlock (or wait) the two threads are never at the same time. */
  lemma Exclusion(vals: seq<int>, s: State)
    requires Reachable(vals, s)
    ensures s.p.PLock? || s.p.PDone? || s.c in {CLock, CAsleep, CWaking, CDone}
  {
    ReachableInv(vals, s);
  }

  /** A consumer that sleeps while data is ready is about to be signalled by the producer that holds the mutex. */
  lemma NoLostWakeUp(vals: seq<int>, s: State)
    requires Reachable(vals, s) && s.c.CAsleep? && s.ready
    ensures s.owner == Producer && s.p.PSignal? && ProducerStep(vals, s).c.CWaking?
  {
    ReachableInv(vals, s);
  }

  /** Whenever the mutex is free, every value produced is consumed, overwritten, or the one on offer. */
  lemma EveryValueAccountedFor(vals: seq<int>, s: State)
    requires Reachable(vals, s) && s.owner == Nobody
    ensures s.i == |s.printed| + s.overwritten + (if s.ready then 1 else 0)
  {
    ReachableInv(vals, s);
  }

  /** Spurious wake-ups or not, no value is printed twice, out of order, or before it was produced. */
  lemma ConsumedInOrder(vals: seq<int>, s: State)
    requires Reachable(vals, s)
    ensures |s.taken| == |s.printed|
    ensures forall k :: 0 <= k < |s.taken| ==> s.taken[k] < Stored(s) && s.taken[k] < |vals|
    ensures forall k :: 0 <= k < |s.taken| ==> s.printed[k] == vals[s.taken[k]]
    ensures forall k, l :: 0 <= k < l < |s.taken| ==> s.taken[k] < s.taken[l]
  {
    ReachableInv(vals, s);
  }

  // ---- how runs end ----

  predicate CanProduce(s: State) { !s.p.PDone? && (s.p.PLock? ==> s.owner == Nobody) }

  predicate CanConsume(s: State) {
    !s.c.CDone? && !s.c.CAsleep? && (s.c.CLock? || s.c.CWaking? ==> s.owner == Nobody)
  }

  /** A thread can go on exactly when its step changes something. */
  lemma EnabledMoves(vals: seq<int>, s: State)
    ensures CanProduce(s) <==> ProducerStep(vals, s) != s
    ensures CanConsume(s) <==> ConsumerStep(vals, s) != s
  {
  }

  /** Nothing happens any more, unless the consumer wakes up spuriously. */
  predicate Stuck(s: State) { !CanProduce(s) && !CanConsume(s) }

  lemma IncreasingIsIdentity(xs: seq<nat>, k: nat)
    requires forall a, b :: 0 <= a < b < |xs| ==> xs[a] < xs[b]
    requires forall a :: 0 <= a < |xs| ==> xs[a] < |xs|
    requires k < |xs|
    ensures xs[k] == k
  {
    AtLeastIndex(xs, k);
    AtMostIndex(xs, k);
  }

  lemma {:induction false} AtLeastIndex(xs: seq<nat>, k: nat)
    requires forall a, b :: 0 <= a < b < |xs| ==> xs[a] < xs[b]
    requires k < |xs|
    ensures k <= xs[k]
  {
    if k == 0 {
    } else {
      AtLeastIndex(xs, k - 1);
    }
  }

  lemma {:induction false} AtMostIndex(xs: seq<nat>, k: nat)
    requires forall a, b :: 0 <= a < b < |xs| ==> xs[a] < xs[b]
    requires forall a :: 0 <= a < |xs| ==> xs[a] < |xs|
    requires k < |xs|
    ensures xs[k] <= k
    decreases |xs| - k
  {
    if k == |xs| - 1 {
    } else {
      AtMostIndex(xs, k + 1);
    }
  }

  /**
    The two ways a run can end.  Both threads finish, and the consumer printed exactly what was produced.
    Or the consumer sleeps for ever, short of exactly the values that were overwritten.
  */
  lemma Outcome(vals: seq<int>, s: State)
    requires Reachable(vals, s) && Stuck(s)
    ensures s.p.PDone? && s.owner == Nobody && !s.ready
    ensures |s.printed| == |vals| - s.overwritten
    ensures s.c.CDone? <==> s.overwritten == 0
    ensures s.c.CDone? ==> s.printed == vals
    ensures !s.c.CDone? ==> s.c.CAsleep? && s.printed != vals
  {
    ReachableInv(vals, s);
    if s.c.CDone? {
      assert |s.taken| == |vals| && Fresh(s) == 0;
      forall k | 0 <= k < |vals| ensures s.printed[k] == vals[k] {
        IncreasingIsIdentity(s.taken, k);
      }
    }
  }

  /** Either way the last value produced has been printed, and is the last line printed. */
  lemma LastDelivered(vals: seq<int>, s: State)
    requires Reachable(vals, s) && Stuck(s) && vals != []
    ensures |s.taken| == |s.printed| > 0
    ensures s.taken[|s.taken| - 1] == |vals| - 1 && s.printed[|s.printed| - 1] == vals[|vals| - 1]
  {
    ReachableInv(vals, s);
    assert s.p.PDone? && Stored(s) == |vals|;
    assert Fresh(s) == 0;
  }

  // ---- a run in which the consumer comes too late ----

  /** m steps of one actor. */
  function Iterate(vals: seq<int>, s: State, a: Actor, m: nat): State {
    if m == 0 then s else Step(vals, Iterate(vals, s, a, m - 1), a)
  }

  lemma {:induction false} IterateSplit(vals: seq<int>, s: State, a: Actor, m: nat, n: nat)
    ensures Iterate(vals, s, a, m + n) == Iterate(vals, Iterate(vals, s, a, m), a, n)
  {
    if n == 0 {
    } else {
      IterateSplit(vals, s, a, m, n - 1);
    }
  }

  lemma {:induction false} IterateIsExec(vals: seq<int>, s: State, a: Actor, run: seq<Actor>, m: nat)
    ensures Exec(vals, s, run + seq(m, _ => a)) == Iterate(vals, Exec(vals, s, run), a, m)
  {
    if m == 0 {
      assert run + seq(m, _ => a) == run;
    } else {
      var longer := run + seq(m, _ => a);
      assert longer[..|longer| - 1] == run + seq(m - 1, _ => a);
      IterateIsExec(vals, s, a, run, m - 1);
    }
  }

  /** The state after k rounds of the producer that nobody interrupts. */
  function Unattended(vals: seq<int>, k: nat): State
    requires k <= |vals|
  {
    if k == 0 then Init(|vals|)
    else
      Init(|vals|).(data := vals[k - 1], ready := true, p := if k < |vals| then PLock else PDone, i := k,
                    stamp := k - 1, overwritten := k - 1)
  }

  /** A round of the producer that is not interrupted, whatever the consumer is at. */
  lemma ProducerRound(vals: seq<int>, s: State)
    requires s.p.PLock? && s.owner == Nobody && s.i < |vals|
    ensures
      Iterate(vals, s, Produce, 5)
      == s.(data := vals[s.i], ready := true, i := s.i + 1, p := if s.i + 1 < |vals| then PLock else PDone,
            c := if s.c.CAsleep? then CWaking else s.c,
            stamp := s.i, overwritten := s.overwritten + (if s.ready then 1 else 0))
  {
    var s1 := s.(owner := Producer, p := PStore);
    var s2 := s1.(data := vals[s.i], stamp := s.i, overwritten := s.overwritten + (if s.ready then 1 else 0),
                  p := PRaise);
    var s3 := s2.(ready := true, p := PSignal);
    assert Iterate(vals, s, Produce, 1) == s1;
    assert Iterate(vals, s, Produce, 2) == s2;
    assert Iterate(vals, s, Produce, 3) == s3;
    assert Iterate(vals, s, Produce, 4) == s3.(c := if s.c.CAsleep? then CWaking else s.c, p := PUnlock);
  }

  lemma RoundAfter(vals: seq<int>, k: nat, m: nat)
    requires k < |vals| && Iterate(vals, Init(|vals|), Produce, m) == Unattended(vals, k)
    ensures Iterate(vals, Init(|vals|), Produce, m + 5) == Unattended(vals, k + 1)
  {
    ProducerRound(vals, Unattended(vals, k));
    IterateSplit(vals, Init(|vals|), Produce, m, 5);
  }

  lemma {:induction false} ProducerAlone(vals: seq<int>, k: nat)
    requires k <= |vals|
    ensures Iterate(vals, Init(|vals|), Produce, 5 * k) == Unattended(vals, k)
  {
    if k == 0 {
    } else {
      ProducerAlone(vals, k - 1);
      RoundAfter(vals, k - 1, 5 * (k - 1));
    }
  }

  /** A round of the consumer that finds a value on offer and is not interrupted. */
  lemma ConsumerRound(vals: seq<int>, s: State)
    requires s.c.CLock? && s.owner == Nobody && s.ready
    ensures
      Iterate(vals, s, Consume, 5)
      == s.(ready := false, printed := s.printed + [s.data], taken := s.taken + [s.stamp], j := s.j + 1,
            c := if s.j + 1 < |vals| then CLock else CDone)
  {
    var s1 := s.(owner := Consumer, c := CTest);
    var s3 := s1.(printed := s.printed + [s.data], taken := s.taken + [s.stamp], c := CReset);
    assert Iterate(vals, s, Consume, 1) == s1;
    assert Iterate(vals, s, Consume, 2) == s1.(c := CPrint);
    assert Iterate(vals, s, Consume, 3) == s3;
    assert Iterate(vals, s, Consume, 4) == s3.(ready := false, c := CUnlock);
  }

  /** A round that finds none: the consumer ends up in the wait set. */
  lemma ConsumerSleeps(vals: seq<int>, s: State)
    requires s.c.CLock? && s.owner == Nobody && !s.ready
    ensures Iterate(vals, s, Consume, 3) == s.(c := CAsleep)
  {
    assert Iterate(vals, s, Consume, 1) == s.(owner := Consumer, c := CTest);
    assert Iterate(vals, s, Consume, 2) == s.(owner := Consumer, c := CWait);
  }

  /** Woken for no reason, the consumer tests the flag and goes back to sleep: nothing has changed. */
  lemma WokenInVain(vals: seq<int>, s: State)
    requires s.c.CAsleep? && s.owner == Nobody && !s.ready
    ensures Step(vals, s, Spurious) == s.(c := CWaking)
    ensures Exec(vals, s, [Spurious, Consume, Consume, Consume]) == s
  {
    var run := [Spurious, Consume, Consume, Consume];
    assert run[..3] == [Spurious, Consume, Consume] && run[..3][..2] == [Spurious, Consume];
    assert Exec(vals, s, [Spurious]) == s.(c := CWaking);
    assert [Spurious, Consume][..1] == [Spurious];
    assert Exec(vals, s, [Spurious, Consume]) == s.(owner := Consumer, c := CTest);
    assert Exec(vals, s, [Spurious, Consume, Consume]) == s.(owner := Consumer, c := CWait);
  }

  /** Delivery can fail for every n above 1: of the values produced only the last is ever printed. */
  lemma OnlyLastDelivered(vals: seq<int>)
    requires |vals| >= 2
    ensures
      var n := |vals|;
      var s := Exec(vals, Init(n), seq(5 * n, _ => Produce) + seq(8, _ => Consume));
      Stuck(s) && s.c.CAsleep? && s.printed == [vals[n - 1]] && s.overwritten == n - 1
  {
    var n := |vals|;
    var s := Unattended(vals, n);
    assert [] + seq(5 * n, _ => Produce) == seq(5 * n, _ => Produce);
    IterateIsExec(vals, Init(n), Produce, [], 5 * n);
    ProducerAlone(vals, n);
    IterateIsExec(vals, Init(n), Consume, seq(5 * n, _ => Produce), 8);
    IterateSplit(vals, s, Consume, 5, 3);
    ConsumerRound(vals, s);
    ConsumerSleeps(vals, Iterate(vals, s, Consume, 5));
  }

  /** Every value is sure to be delivered exactly if there is at most one. */
  lemma DeliveryGuaranteed(vals: seq<int>)
    ensures (forall s :: Reachable(vals, s) && Stuck(s) ==> s.c.CDone? && s.printed == vals) <==> |vals| <= 1
  {
    if |vals| <= 1 {
      forall s | Reachable(vals, s) && Stuck(s) ensures s.c.CDone? && s.printed == vals {
        Outcome(vals, s);
        ReachableInv(vals, s);
      }
    } else {
      OnlyLastDelivered(vals);
      var run := seq(5 * |vals|, _ => Produce) + seq(8, _ => Consume);
      assert Reachable(vals, Exec(vals, Init(|vals|), run));
    }
  }

  // ---- every run ends ----

  /** What is left to do; a wake-up adds at most 6. */
  function Left(n: nat, s: State): int {
    7 * (5 * (n - s.i) - (match s.p
                          case PLock => 0
                          case PStore => 1
                          case PRaise => 2
                          case PSignal => 3
                          case PUnlock => 4
                          case PDone => 0))
    + 9 * (n - s.j)
    + (match s.c
       case CLock => 8
       case CWaking => 7
       case CTest => 6
       case CWait => 5
       case CPrint => 5
       case CReset => 4
       case CUnlock => 3
       case CAsleep => 1
       case CDone => 0)
  }

  function Work(vals: seq<int>, s: State, run: seq<Actor>): nat {
    if run == [] then 0
    else
      var n := |run| - 1;
      var s' := Exec(vals, s, run[..n]);
      Work(vals, s, run[..n])
      + (if (run[n].Produce? && CanProduce(s')) || (run[n].Consume? && CanConsume(s')) then 1 else 0)
  }

  function SpuriousWakeUps(vals: seq<int>, s: State, run: seq<Actor>): nat {
    if run == [] then 0
    else
      var n := |run| - 1;
      SpuriousWakeUps(vals, s, run[..n])
      + (if run[n].Spurious? && Exec(vals, s, run[..n]).c.CAsleep? then 1 else 0)
  }

  lemma StepLeft(vals: seq<int>, s: State, a: Actor)
    requires Inv(vals, s)
    ensures Left(|vals|, s) >= 0
    ensures
      var worked := (a.Produce? && CanProduce(s)) || (a.Consume? && CanConsume(s));
      Left(|vals|, Step(vals, s, a)) + (if worked then 1 else 0)
      <= Left(|vals|, s) + (if a.Spurious? && s.c.CAsleep? then 6 else 0)
  {
  }

  /** A run makes at most 44n + 8 steps, and 6 more for each spurious wake-up: it reaches one of the two ends. */
  lemma {:induction false} RunsAreBounded(vals: seq<int>, run: seq<Actor>)
    ensures
      var s0 := Init(|vals|);
      && Left(|vals|, Exec(vals, s0, run)) >= 0
      && Work(vals, s0, run) + Left(|vals|, Exec(vals, s0, run))
         <= 44 * |vals| + 8 + 6 * SpuriousWakeUps(vals, s0, run)
  {
    var s0 := Init(|vals|);
    RunInv(vals, run);
    StepLeft(vals, Exec(vals, s0, run), Spurious);
    if run == [] {
    } else {
      var prefix := run[..|run| - 1];
      RunsAreBounded(vals, prefix);
      RunInv(vals, prefix);
      StepLeft(vals, Exec(vals, s0, prefix), run[|run| - 1]);
    }
  }
}
