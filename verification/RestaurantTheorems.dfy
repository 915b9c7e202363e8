/** What every run of the restaurant guarantees, for any tray size and any number of processes. */
module RestaurantTheorems {
  import opened Counting
  import opened Trays
  import opened Restaurant
  import opened RestaurantInvariant
  import opened SharedBuffers

  // ---- tokens, mutual exclusion, the scans ----

  lemma TokensConserved(c: nat, jobs: seq<Job>, s: State, t: TrayId)
    requires Reachable(c, jobs, s)
    ensures
      var tray := TrayOf(s, t);
      && tray.empty + tray.full + Sum(Cooking(t), s.staff) + Sum(Placed(t), s.staff)
         + Sum(Pending(t), s.staff) + Sum(Leaving(t), s.staff) == c
      && tray.full + Sum(Placed(t), s.staff) + Sum(Pending(t), s.staff) == Occ(s, t)
      && tray.mutex + Sum(Inside(t), s.staff) == 1
  {
    ReachableInv(c, jobs, s);
    assert TrayInv(c, s, t);
  }

  lemma MutualExclusion(c: nat, jobs: seq<Job>, s: State, i: nat, j: nat)
    requires Reachable(c, jobs, s) && i < |s.staff| && j < |s.staff|
    requires Inside(s.staff[i].at)(s.staff[i]) == 1 && Inside(s.staff[i].at)(s.staff[j]) == 1
    ensures i == j
  {
    ReachableInv(c, jobs, s);
    if i != j { OneInside(c, s, i, j); }
  }

  /** Neither scan ever reaches the end of its loop: at or after the current index there is a slot it wants. */
  lemma ScanNeverFallsThrough(c: nat, jobs: seq<Job>, s: State, i: nat)
    requires Reachable(c, jobs, s) && i < |s.staff| && s.staff[i].pc.Test?
    ensures
      var p := s.staff[i];
      var items := TrayOf(s, p.at).items;
      exists k :: p.pc.i <= k < |items| && items[k] == Wanted(SideOf(p.job), DishOf(p.at))
  {
    ReachableInv(c, jobs, s);
    var p := s.staff[i];
    var items := TrayOf(s, p.at).items;
    var want := Wanted(SideOf(p.job), DishOf(p.at));
    assert ProcessInv(s, p) && TrayInv(c, s, p.at);
    if forall k :: p.pc.i <= k < |items| ==> items[k] != want {
      if SideOf(p.job).Adding? {
        SumMember(Cooking(p.at), s.staff, i);
        AllOccupied(items);
      } else {
        SumMember(Pending(p.at), s.staff, i);
        NoneOccupied(items);
      }
      assert false;
    }
  }

  /** The assignment overwrites only what the routine means to overwrite, at the lowest such index. */
  lemma TouchIsFirstFit(c: nat, jobs: seq<Job>, s: State, i: nat)
    requires Reachable(c, jobs, s) && i < |s.staff| && s.staff[i].pc.Touch?
    ensures
      var p := s.staff[i];
      var items := TrayOf(s, p.at).items;
      var want := Wanted(SideOf(p.job), DishOf(p.at));
      && p.pc.i < c == |items| && items[p.pc.i] == want
      && forall k :: 0 <= k < p.pc.i ==> items[k] != want
  {
    ReachableInv(c, jobs, s);
    assert ProcessInv(s, s.staff[i]);
    assert TrayInv(c, s, s.staff[i].at);
  }

  // ---- refinement of an atomic bounded counter ----

  /** The abstract tray: a number of dishes that one atomic operation raises below c or lowers above 0. */
  predicate CounterStep(c: nat, v: nat, m: Move, v': nat) {
    match m
    case Quiet => v' == v
    case Put(_) => v < c && v' == v + 1
    case Take(_) => 0 < v && v' == v - 1
  }

  function Puts(s: State, run: seq<Actor>, t: TrayId): nat {
    if run == [] then 0
    else var n := |run| - 1;
      Puts(s, run[..n], t) + (if MoveOf(Exec(s, run[..n]), run[n], t).Put? then 1 else 0)
  }

  function Takes(s: State, run: seq<Actor>, t: TrayId): nat {
    if run == [] then 0
    else var n := |run| - 1;
      Takes(s, run[..n], t) + (if MoveOf(Exec(s, run[..n]), run[n], t).Take? then 1 else 0)
  }

  lemma StepRefinesCounter(c: nat, s: State, a: Actor, t: TrayId)
    requires Inv(c, s)
    ensures CounterStep(c, Occ(s, t), MoveOf(s, a, t), Occ(Step(s, a), t))
  {
    if a.Worker? && a.i < |s.staff| && s.staff[a.i].at == t {
      assert TrayInv(c, s, t) && ProcessInv(s, s.staff[a.i]);
      OwnSlots(c, s, a.i);
      StepInv(c, s, a);
      assert TrayInv(c, Step(s, a), t);
      if s.staff[a.i].pc.Touch? { OccupancyUpdate(TrayOf(s, t).items, s.staff[a.i].pc.i, EMPTY); }
    }
  }

  /** Each step of a run is a step of the abstract counter between the occupancies before and after. */
  lemma RunRefinesCounter(c: nat, jobs: seq<Job>, run: seq<Actor>, n: nat, t: TrayId)
    requires n < |run|
    ensures
      var s0 := Init(c, jobs);
      CounterStep(c, Occ(Exec(s0, run[..n]), t), MoveOf(Exec(s0, run[..n]), run[n], t),
                  Occ(Exec(s0, run[..n + 1]), t))
  {
    InitInv(c, jobs);
    RunInv(c, Init(c, jobs), run[..n]);
    StepRefinesCounter(c, Exec(Init(c, jobs), run[..n]), run[n], t);
    assert run[..n + 1][..n] == run[..n];
  }

  /** From an empty tray on, dishes written less dishes cleared are the occupied slots. */
  lemma {:induction false} DishesBalance(c: nat, jobs: seq<Job>, run: seq<Actor>, t: TrayId)
    ensures
      var s0 := Init(c, jobs);
      Occ(Exec(s0, run), t) == Puts(s0, run, t) - Takes(s0, run, t)
  {
    if run == [] {
      NoneOccupied(TrayOf(Init(c, jobs), t).items);
    } else {
      var n := |run| - 1;
      DishesBalance(c, jobs, run[..n], t);
      RunRefinesCounter(c, jobs, run, n, t);
      assert run[..n + 1] == run;
    }
  }

  // ---- who does what ----

  /** The vegan tray only ever holds vegan dishes and the other tray only the others. */
  lemma DishesInPlace(c: nat, jobs: seq<Job>, s: State, k: nat)
    requires Reachable(c, jobs, s) && k < c
    ensures |s.vegan.items| == |s.nonVegan.items| == c
    ensures s.vegan.items[k] == EMPTY || s.vegan.items[k] == VEGAN
    ensures s.nonVegan.items[k] == EMPTY || s.nonVegan.items[k] == NON_VEGAN
  {
    ReachableInv(c, jobs, s);
    assert TrayInv(c, s, Vegan) && TrayInv(c, s, NonVegan);
  }

  /** A tray gains a dish only from its own chef, and loses one only to its own or the alternating customer. */
  lemma WhoMovesDishes(c: nat, jobs: seq<Job>, s: State, a: Actor, t: TrayId)
    requires Reachable(c, jobs, s)
    ensures Occ(Step(s, a), t) != Occ(s, t) ==> a.Worker? && a.i < |s.staff| && s.staff[a.i].at == t
    ensures Occ(Step(s, a), t) > Occ(s, t) ==> s.staff[a.i].job == Chef(t)
    ensures Occ(Step(s, a), t) < Occ(s, t) ==> s.staff[a.i].job == Guest(t) || s.staff[a.i].job == Alternating
  {
    ReachableInv(c, jobs, s);
    StepRefinesCounter(c, s, a, t);
    if a.Worker? && a.i < |s.staff| { assert ProcessInv(s, s.staff[a.i]); }
  }

  /** A call waits for an empty slot if it is a chef's and for a dish if it is a customer's, then for the mutex. */
  lemma WhatWorkersWaitFor(s: State, i: nat)
    requires i < |s.staff|
    ensures
      var p, tray := s.staff[i], TrayOf(s, s.staff[i].at);
      Waiting(s, i) <==>
        || (p.pc.Idle? && p.job.Chef? && tray.empty == 0)
        || (p.pc.Idle? && !p.job.Chef? && tray.full == 0)
        || (p.pc.Granted? && tray.mutex == 0)
  {
  }

  // ---- first fit ----

  /** The greatest occupancy of tray t so far in the run. */
  function HighWater(s: State, run: seq<Actor>, t: TrayId): nat {
    if run == [] then Occ(s, t) else Max(HighWater(s, run[..|run| - 1], t), Occ(Exec(s, run), t))
  }

  lemma PutBelowOccupancy(c: nat, s: State, a: Actor, t: TrayId)
    requires Inv(c, s) && MoveOf(s, a, t).Put?
    ensures MoveOf(s, a, t).slot < Occ(Step(s, a), t)
  {
    var i := MoveOf(s, a, t).slot;
    assert ProcessInv(s, s.staff[a.i]);
    var items := TrayOf(Step(s, a), t).items;
    PrefixOccupancy(items, i + 1);
    AllOccupied(items[..i + 1]);
  }

  lemma OccupiedSlotStep(c: nat, s: State, a: Actor, t: TrayId, k: nat)
    requires Inv(c, s) && k < c && TrayOf(Step(s, a), t).items[k] != EMPTY
    ensures TrayOf(s, t).items[k] != EMPTY || k < Occ(Step(s, a), t)
  {
    if MoveOf(s, a, t).Put? { PutBelowOccupancy(c, s, a, t); }
  }

  lemma {:induction false} FirstFitHighWater(c: nat, jobs: seq<Job>, run: seq<Actor>, t: TrayId, k: nat)
    requires k < |TrayOf(Exec(Init(c, jobs), run), t).items|
    requires TrayOf(Exec(Init(c, jobs), run), t).items[k] != EMPTY
    ensures k < HighWater(Init(c, jobs), run, t)
  {
    var s0 := Init(c, jobs);
    if run == [] {
    } else {
      var prefix := run[..|run| - 1];
      var s := Exec(s0, prefix);
      InitInv(c, jobs);
      RunInv(c, s0, prefix);
      RunInv(c, s0, run);
      assert TrayInv(c, s, t) && TrayInv(c, Exec(s0, run), t);
      OccupiedSlotStep(c, s, run[|run| - 1], t, k);
      if TrayOf(s, t).items[k] != EMPTY { FirstFitHighWater(c, jobs, prefix, t, k); }
    }
  }

  // ---- the unlocked status scan ----

  /** 1 if a step prints the two counts: the parent's, at the end of its scan. */
  function Prints(s: State, a: Actor): nat {
    if a.Logger? && s.parent.Reading? && Step(s, a).parent.Asleep? then 1 else 0
  }

  /** Writes to tray t since the current status scan began. */
  function PutsInScan(s: State, run: seq<Actor>, t: TrayId): nat {
    if run == [] || Exec(s, run).parent.Asleep? then 0
    else var n := |run| - 1;
      PutsInScan(s, run[..n], t) + (if MoveOf(Exec(s, run[..n]), run[n], t).Put? then 1 else 0)
  }

  /** Clears of tray t since the current status scan began. */
  function TakesInScan(s: State, run: seq<Actor>, t: TrayId): nat {
    if run == [] || Exec(s, run).parent.Asleep? then 0
    else var n := |run| - 1;
      TakesInScan(s, run[..n], t) + (if MoveOf(Exec(s, run[..n]), run[n], t).Take? then 1 else 0)
  }

  /** Slots of tray t the scan has read. */
  function Seen(p: Parent, t: TrayId): nat {
    if p.Asleep? then 0 else if t.Vegan? && p.next.NonVegan? then p.i + 1 else p.i
  }

  function CountOf(p: Parent, t: TrayId): nat {
    if p.Asleep? then 0 else if t.Vegan? then p.vegan else p.nonVegan
  }

  /** The count so far against the slots read so far, as they are now. */
  ghost predicate ScanWithin(s: State, t: TrayId, puts: nat, takes: nat) {
    var items := TrayOf(s, t).items;
    var seen := Seen(s.parent, t);
    && seen <= |items|
    && Occupancy(items[..seen]) <= CountOf(s.parent, t) + puts
    && CountOf(s.parent, t) <= Occupancy(items[..seen]) + takes
  }

  lemma WorkerKeepsScan(c: nat, s: State, i: nat, t: TrayId, puts: nat, takes: nat)
    requires Inv(c, s) && i < |s.staff| && ScanWithin(s, t, puts, takes)
    ensures ScanWithin(WorkerStep(s, i), t,
                       puts + (if MoveOf(s, Worker(i), t).Put? then 1 else 0),
                       takes + (if MoveOf(s, Worker(i), t).Take? then 1 else 0))
  {
    var items, items' := TrayOf(s, t).items, TrayOf(WorkerStep(s, i), t).items;
    var seen := Seen(s.parent, t);
    assert TrayInv(c, s, t) && ProcessInv(s, s.staff[i]);
    if !MoveOf(s, Worker(i), t).Quiet? {
      var k := s.staff[i].pc.i;
      if k < seen {
        assert items'[..seen] == items[..seen][k := items'[k]];
        OccupancyUpdate(items[..seen], k, items'[k]);
      } else {
        assert items'[..seen] == items[..seen];
      }
    }
  }

  lemma LoggerKeepsScan(c: nat, s: State, t: TrayId, puts: nat, takes: nat)
    requires Inv(c, s) && ScanWithin(s, t, puts, takes)
    requires IndexInRange(c, s.parent)
    ensures LoggerStep(s).parent.Reading? && s.parent.Reading? ==> ScanWithin(LoggerStep(s), t, puts, takes)
  {
    var items := TrayOf(s, t).items;
    assert TrayInv(c, s, Vegan) && TrayInv(c, s, NonVegan);
    if s.parent.Reading? && Seen(s.parent, t) < c { PrefixOccupancy(items, Seen(s.parent, t)); }
  }

  ghost predicate IndexInRange(c: nat, p: Parent) {
    p.Reading? ==> p.i <= c && (p.next.NonVegan? ==> p.i < c)
  }

  lemma StepIndex(c: nat, s: State, a: Actor)
    requires |s.vegan.items| == c && IndexInRange(c, s.parent)
    ensures IndexInRange(c, Step(s, a).parent)
  {
    if !a.Logger? { assert Step(s, a).parent == s.parent; }
  }

  lemma {:induction false} ScanIndex(c: nat, jobs: seq<Job>, run: seq<Actor>)
    ensures IndexInRange(c, Exec(Init(c, jobs), run).parent)
  {
    if run == [] {
    } else {
      var s := Exec(Init(c, jobs), run[..|run| - 1]);
      ScanIndex(c, jobs, run[..|run| - 1]);
      InitInv(c, jobs);
      RunInv(c, Init(c, jobs), run[..|run| - 1]);
      assert TrayInv(c, s, Vegan);
      StepIndex(c, s, run[|run| - 1]);
    }
  }

  lemma ScanStep(c: nat, s: State, a: Actor, t: TrayId, puts: nat, takes: nat)
    requires Inv(c, s) && IndexInRange(c, s.parent)
    requires s.parent.Reading? ==> ScanWithin(s, t, puts, takes)
    requires s.parent.Asleep? ==> puts == takes == 0
    ensures Step(s, a).parent.Reading? ==>
      ScanWithin(Step(s, a), t,
                 puts + (if MoveOf(s, a, t).Put? then 1 else 0), takes + (if MoveOf(s, a, t).Take? then 1 else 0))
  {
    match a
    case Worker(i) =>
      if s.parent.Reading? && i < |s.staff| { WorkerKeepsScan(c, s, i, t, puts, takes); }
    case Logger =>
      if s.parent.Reading? { LoggerKeepsScan(c, s, t, puts, takes); }
  }

  lemma {:induction false} ScanInvariant(c: nat, jobs: seq<Job>, run: seq<Actor>, t: TrayId)
    ensures
      var s0 := Init(c, jobs);
      Exec(s0, run).parent.Reading? ==>
        ScanWithin(Exec(s0, run), t, PutsInScan(s0, run, t), TakesInScan(s0, run, t))
  {
    var s0 := Init(c, jobs);
    if run == [] {
    } else {
      var n := |run| - 1;
      ScanInvariant(c, jobs, run[..n], t);
      ScanIndex(c, jobs, run[..n]);
      InitInv(c, jobs);
      RunInv(c, s0, run[..n]);
      ScanStep(c, Exec(s0, run[..n]), run[n], t, PutsInScan(s0, run[..n], t), TakesInScan(s0, run[..n], t));
    }
  }

  lemma WholeTrayRead(c: nat, s: State, t: TrayId, puts: nat, takes: nat)
    requires TrayInv(c, s, t) && ScanWithin(s, t, puts, takes) && Seen(s.parent, t) >= c
    ensures CountOf(s.parent, t) <= Occ(s, t) + takes && Occ(s, t) <= CountOf(s.parent, t) + puts
  {
    assert TrayOf(s, t).items[..c] == TrayOf(s, t).items;
  }

  /**
    Whenever the parent's step prints the counts, each is at most the true occupancy plus the clears that
    happened during the scan, and at least the true occupancy less the writes that happened during it.
  */
  lemma StatusScanError(c: nat, jobs: seq<Job>, run: seq<Actor>, t: TrayId)
    requires Prints(Exec(Init(c, jobs), run), Logger) == 1
    ensures
      var s0 := Init(c, jobs);
      var s := Exec(s0, run);
      var printed := if t.Vegan? then s.parent.vegan else s.parent.nonVegan;
      printed <= Occ(s, t) + TakesInScan(s0, run, t) && Occ(s, t) <= printed + PutsInScan(s0, run, t)
  {
    var s0 := Init(c, jobs);
    ScanInvariant(c, jobs, run, t);
    InitInv(c, jobs);
    RunInv(c, s0, run);
    assert TrayInv(c, Exec(s0, run), Vegan) && TrayInv(c, Exec(s0, run), t);
    WholeTrayRead(c, Exec(s0, run), t, PutsInScan(s0, run, t), TakesInScan(s0, run, t));
  }

  /** Status lines printed in a run. */
  function StatusLines(s: State, run: seq<Actor>): nat {
    if run == [] then 0
    else var n := |run| - 1; StatusLines(s, run[..n]) + Prints(Exec(s, run[..n]), run[n])
  }

  /** Steps of the parent. */
  function Loggers(run: seq<Actor>): nat {
    if run == [] then 0 else Loggers(run[..|run| - 1]) + (if run[|run| - 1].Logger? then 1 else 0)
  }

  /** How far the parent is in its round: starting it is one step, then comes a read of either tray for each slot. */
  function Progress(p: Parent): nat {
    match p
    case Asleep => 0
    case Reading(i, next, _, _) => 2 * i + (if next.Vegan? then 1 else 2)
  }

  lemma ProgressStep(c: nat, s: State, a: Actor)
    requires |s.vegan.items| == c && IndexInRange(c, s.parent)
    ensures Progress(Step(s, a).parent) + (if Prints(s, a) == 1 then 2 * c + 2 else 0)
            == Progress(s.parent) + (if a.Logger? then 1 else 0)
  {
    if !a.Logger? { assert Step(s, a).parent == s.parent; }
  }

  /** The steps of the rounds that are complete. */
  function InRounds(c: nat, s: State, run: seq<Actor>): nat {
    if run == [] then 0
    else var n := |run| - 1;
      InRounds(c, s, run[..n]) + (if Prints(Exec(s, run[..n]), run[n]) == 1 then 2 * c + 2 else 0)
  }

  lemma {:induction false} RoundsAndProgress(c: nat, jobs: seq<Job>, run: seq<Actor>)
    ensures
      var s0 := Init(c, jobs);
      Loggers(run) == InRounds(c, s0, run) + Progress(Exec(s0, run).parent)
  {
    if run == [] {
    } else {
      var n := |run| - 1;
      var s := Exec(Init(c, jobs), run[..n]);
      RoundsAndProgress(c, jobs, run[..n]);
      ScanIndex(c, jobs, run[..n]);
      InitInv(c, jobs);
      RunInv(c, Init(c, jobs), run[..n]);
      assert TrayInv(c, s, Vegan);
      ProgressStep(c, s, run[n]);
    }
  }

  lemma TimesOneMore(k: nat, m: nat)
    ensures k * (m + 1) == k * m + k
  {
  }

  lemma {:induction false} StepsPerLine(c: nat, s: State, run: seq<Actor>)
    ensures InRounds(c, s, run) == (2 * c + 2) * StatusLines(s, run)
  {
    if run == [] {
    } else {
      var n := |run| - 1;
      StepsPerLine(c, s, run[..n]);
      TimesOneMore(2 * c + 2, StatusLines(s, run[..n]));
    }
  }

  /** In any interleaving the parent prints a status line with every (2c + 2)nd step it makes, and only then. */
  lemma StatusLineEveryRound(c: nat, jobs: seq<Job>, run: seq<Actor>)
    ensures
      var s0 := Init(c, jobs);
      && Loggers(run) == (2 * c + 2) * StatusLines(s0, run) + Progress(Exec(s0, run).parent)
      && Progress(Exec(s0, run).parent) < 2 * c + 2
  {
    RoundsAndProgress(c, jobs, run);
    StepsPerLine(c, Init(c, jobs), run);
    ScanIndex(c, jobs, run);
  }

  // ---- progress ----

  /** A process is waiting exactly when its step changes nothing. */
  lemma WaitingIsStill(s: State, i: nat)
    requires i < |s.staff|
    ensures Waiting(s, i) <==> WorkerStep(s, i) == s
  {
    if Waiting(s, i) {
      assert s.staff[i := s.staff[i]] == s.staff;
    } else {
      assert WorkerStep(s, i).staff[i].pc != s.staff[i].pc;
    }
  }

  lemma InFlightCanStep(c: nat, s: State, i: nat)
    requires Inv(c, s) && i < |s.staff| && !s.staff[i].pc.Idle?
    requires s.staff[i].pc.Granted? ==> TrayOf(s, s.staff[i].at).mutex > 0
    ensures !Waiting(s, i)
  {
  }

  /** If both semaphores of a tray are at 0, some process holds one of its tokens. */
  lemma TokenHolder(c: nat, s: State, t: TrayId) returns (i: nat)
    requires 1 <= c && TrayInv(c, s, t) && TrayOf(s, t).empty == 0 && TrayOf(s, t).full == 0
    ensures i < |s.staff| && s.staff[i].at == t && !s.staff[i].pc.Idle?
  {
    if Sum(Cooking(t), s.staff) > 0 {
      i := SumWitness(Cooking(t), s.staff);
    } else if Sum(Leaving(t), s.staff) > 0 {
      i := SumWitness(Leaving(t), s.staff);
    } else if Sum(Placed(t), s.staff) > 0 {
      i := SumWitness(Placed(t), s.staff);
    } else {
      i := SumWitness(Pending(t), s.staff);
    }
  }

  /** With a chef and a customer of its own, each tray always has a process at it that can step. */
  lemma NoDeadlock(c: nat, jobs: seq<Job>, s: State, t: TrayId) returns (i: nat)
    requires 1 <= c && Reachable(c, jobs, s)
    requires Chef(t) in jobs && Guest(t) in jobs
    ensures i < |s.staff| && s.staff[i].at == t && !Waiting(s, i)
  {
    ReachableInv(c, jobs, s);
    var run: seq<Actor> :| s == Exec(Init(c, jobs), run);
    JobsKept(Init(c, jobs), run);
    var chef: nat :| chef < |jobs| && jobs[chef] == Chef(t);
    var guest: nat :| guest < |jobs| && jobs[guest] == Guest(t);
    assert s.staff[chef].job == Chef(t) && s.staff[guest].job == Guest(t);
    assert ProcessInv(s, s.staff[chef]) && ProcessInv(s, s.staff[guest]);
    i := Mover(c, s, t, chef, guest);
  }

  lemma Mover(c: nat, s: State, t: TrayId, chef: nat, guest: nat) returns (i: nat)
    requires 1 <= c && Inv(c, s) && chef < |s.staff| && guest < |s.staff|
    requires s.staff[chef].job == Chef(t) && s.staff[chef].at == t
    requires s.staff[guest].job == Guest(t) && s.staff[guest].at == t
    ensures i < |s.staff| && s.staff[i].at == t && !Waiting(s, i)
  {
    var tray := TrayOf(s, t);
    assert TrayInv(c, s, t);
    if tray.mutex == 0 {
      i := SumWitness(Inside(t), s.staff);
    } else if tray.empty > 0 {
      i := chef;
    } else if tray.full > 0 {
      i := guest;
    } else {
      i := TokenHolder(c, s, t);
      InFlightCanStep(c, s, i);
    }
  }

  lemma {:induction false} JobsKept(s: State, run: seq<Actor>)
    ensures |Exec(s, run).staff| == |s.staff|
    ensures forall k :: 0 <= k < |s.staff| ==> Exec(s, run).staff[k].job == s.staff[k].job
  {
    if run == [] {
    } else {
      JobsKept(s, run[..|run| - 1]);
    }
  }

  /** How many accesses at tray t a process is away from its next slot write or clear there, at most. */
  function Distance(c: nat, t: TrayId): Process -> nat {
    (p: Process) =>
      if p.at != t then 2 * c + 3
      else
        match p.pc
        case Unlock => 2 * c + 5
        case Announce => 2 * c + 4
        case Idle => 2 * c + 3
        case Granted => 2 * c + 2
        case Test(i) => if i <= c then 2 * (c - i) + 1 else 0
        case Touch(i) => if i <= c then 2 * (c - i) else 0
  }

  /** 1 if a process at tray t makes an access. */
  function Effective(s: State, a: Actor, t: TrayId): nat {
    if a.Worker? && a.i < |s.staff| && s.staff[a.i].at == t && !Waiting(s, a.i) then 1 else 0
  }

  /** Accesses made by processes at tray t. */
  function Work(s: State, run: seq<Actor>, t: TrayId): nat {
    if run == [] then 0
    else var n := |run| - 1; Work(s, run[..n], t) + Effective(Exec(s, run[..n]), run[n], t)
  }

  /** What a step may add to the total distance: a process that has just touched a slot of tray t starts over. */
  function Refund(c: nat, s: State, a: Actor, t: TrayId): nat { if MoveOf(s, a, t).Quiet? then 0 else 2 * c + 4 }

  lemma DistanceDrops(c: nat, s: State, i: nat, t: TrayId)
    requires i < |s.staff|
    requires s.staff[i].pc.Test? ==> s.staff[i].pc.i < c == |TrayOf(s, s.staff[i].at).items|
    requires s.staff[i].pc.Touch? ==> s.staff[i].pc.i < c
    ensures Distance(c, t)(WorkerStep(s, i).staff[i]) + Effective(s, Worker(i), t)
            <= Distance(c, t)(s.staff[i]) + Refund(c, s, Worker(i), t)
  {
  }

  lemma StepDistance(c: nat, s: State, a: Actor, t: TrayId)
    requires Inv(c, s)
    ensures Sum(Distance(c, t), Step(s, a).staff) + Effective(s, a, t)
            <= Sum(Distance(c, t), s.staff) + Refund(c, s, a, t)
  {
    if a.Worker? && a.i < |s.staff| {
      assert ProcessInv(s, s.staff[a.i]) && TrayInv(c, s, s.staff[a.i].at);
      if s.staff[a.i].pc.Test? { ScanHasTarget(c, s, a.i); }
      SumUpdate(Distance(c, t), s.staff, a.i, WorkerStep(s, a.i).staff[a.i]);
      DistanceDrops(c, s, a.i, t);
    }
  }

  function Refunds(c: nat, s: State, run: seq<Actor>, t: TrayId): nat {
    if run == [] then 0
    else var n := |run| - 1; Refunds(c, s, run[..n], t) + Refund(c, Exec(s, run[..n]), run[n], t)
  }

  lemma {:induction false} WorkBound(c: nat, s: State, run: seq<Actor>, t: TrayId)
    requires Inv(c, s)
    ensures Work(s, run, t) + Sum(Distance(c, t), Exec(s, run).staff)
            <= Sum(Distance(c, t), s.staff) + Refunds(c, s, run, t)
  {
    if run == [] {
    } else {
      var n := |run| - 1;
      WorkBound(c, s, run[..n], t);
      RunInv(c, s, run[..n]);
      StepDistance(c, Exec(s, run[..n]), run[n], t);
    }
  }

  lemma {:induction false} RefundsPerMove(c: nat, s: State, run: seq<Actor>, t: TrayId)
    ensures Refunds(c, s, run, t) == (2 * c + 4) * (Puts(s, run, t) + Takes(s, run, t))
  {
    if run == [] {
    } else {
      var n := |run| - 1;
      RefundsPerMove(c, s, run[..n], t);
      TimesOneMore(2 * c + 4, Puts(s, run[..n], t) + Takes(s, run[..n], t));
    }
  }

  lemma FarthestApart(c: nat, s: State, t: TrayId)
    ensures Sum(Distance(c, t), s.staff) <= (2 * c + 5) * |s.staff|
  {
    SumBound(Distance(c, t), s.staff, 2 * c + 5);
  }

  /**
    No livelock at either tray: from a reachable state, whatever the interleaving and whatever happens at the
    other tray, the accesses made at tray t are paid for by the dishes put on it and taken off it.  N processes
    cannot make more than N * (2c + 5) accesses there without one.
  */
  lemma WorkMovesDishes(c: nat, jobs: seq<Job>, s: State, run: seq<Actor>, t: TrayId)
    requires Reachable(c, jobs, s)
    ensures Work(s, run, t) <= (2 * c + 5) * |s.staff| + (2 * c + 4) * (Puts(s, run, t) + Takes(s, run, t))
  {
    ReachableInv(c, jobs, s);
    WorkBound(c, s, run, t);
    RefundsPerMove(c, s, run, t);
    FarthestApart(c, s, t);
  }

  lemma {:induction false} StillReachable(c: nat, jobs: seq<Job>, s: State, run: seq<Actor>)
    requires Reachable(c, jobs, s)
    ensures Reachable(c, jobs, Exec(s, run))
  {
    if run == [] {
    } else {
      var n := |run| - 1;
      StillReachable(c, jobs, s, run[..n]);
      var before: seq<Actor> :| Exec(s, run[..n]) == Exec(Init(c, jobs), before);
      assert (before + [run[n]])[..|before|] == before;
      assert Exec(s, run) == Exec(Init(c, jobs), before + [run[n]]);
    }
  }

  /** A run of n accesses, all of them at tray t. */
  lemma {:induction false} KeepWorking(c: nat, jobs: seq<Job>, s: State, t: TrayId, n: nat) returns (run: seq<Actor>)
    requires 1 <= c && Reachable(c, jobs, s) && Chef(t) in jobs && Guest(t) in jobs
    ensures |run| == n == Work(s, run, t)
  {
    if n == 0 {
      run := [];
    } else {
      var prefix := KeepWorking(c, jobs, s, t, n - 1);
      StillReachable(c, jobs, s, prefix);
      var i := NoDeadlock(c, jobs, Exec(s, prefix), t);
      run := prefix + [Worker(i)];
      assert run[..n - 1] == prefix;
    }
  }

  /** From every reachable state a tray with its own chef and customer can be served by processes at it alone. */
  lemma TrayCanBeServed(c: nat, jobs: seq<Job>, s: State, t: TrayId) returns (run: seq<Actor>)
    requires 1 <= c && Reachable(c, jobs, s) && Chef(t) in jobs && Guest(t) in jobs
    ensures |run| == Work(s, run, t) == (2 * c + 5) * |s.staff| + 1
    ensures Puts(s, run, t) + Takes(s, run, t) > 0
  {
    run := KeepWorking(c, jobs, s, t, (2 * c + 5) * |s.staff| + 1);
    WorkMovesDishes(c, jobs, s, run, t);
  }

  // ---- the alternating customer ----

  function TookBy(s: State, a: Actor, i: nat, t: TrayId): nat {
    if a == Worker(i) && MoveOf(s, a, t).Take? then 1 else 0
  }

  /** Dishes process i has taken from tray t. */
  function TakesBy(s: State, run: seq<Actor>, i: nat, t: TrayId): nat {
    if run == [] then 0
    else var n := |run| - 1; TakesBy(s, run[..n], i, t) + TookBy(Exec(s, run[..n]), run[n], i, t)
  }

  /** How many more vegan than non-vegan dishes an alternating customer in this position has taken. */
  function Lead(p: Process): nat { if p.at.Vegan? == (p.pc.Unlock? || p.pc.Announce?) then 1 else 0 }

  lemma LeadOwnStep(s: State, i: nat)
    requires i < |s.staff| && s.staff[i].job.Alternating?
    requires s.staff[i].pc.Test? ==> s.staff[i].pc.i < |TrayOf(s, s.staff[i].at).items|
    ensures Lead(WorkerStep(s, i).staff[i]) + TookBy(s, Worker(i), i, NonVegan)
            == Lead(s.staff[i]) + TookBy(s, Worker(i), i, Vegan)
  {
  }

  lemma LeadStep(c: nat, s: State, a: Actor, i: nat)
    requires Inv(c, s) && i < |s.staff| && s.staff[i].job.Alternating?
    ensures |Step(s, a).staff| == |s.staff|
    ensures Lead(Step(s, a).staff[i]) + TookBy(s, a, i, NonVegan) == Lead(s.staff[i]) + TookBy(s, a, i, Vegan)
  {
    if a == Worker(i) {
      assert TrayInv(c, s, s.staff[i].at);
      if s.staff[i].pc.Test? { ScanHasTarget(c, s, i); }
      LeadOwnStep(s, i);
    } else {
      assert Step(s, a).staff[i] == s.staff[i];
    }
  }

  /** Customer 3 takes one vegan dish, then one non-vegan dish, and so on: the two totals never drift apart. */
  lemma {:induction false} AlternatingCustomer(c: nat, jobs: seq<Job>, run: seq<Actor>, i: nat)
    requires i < |jobs| && jobs[i].Alternating?
    ensures
      var s0 := Init(c, jobs);
      && i < |Exec(s0, run).staff|
      && TakesBy(s0, run, i, Vegan) == TakesBy(s0, run, i, NonVegan) + Lead(Exec(s0, run).staff[i])
  {
    var s0 := Init(c, jobs);
    JobsKept(s0, run);
    if run == [] {
    } else {
      var prefix := run[..|run| - 1];
      AlternatingCustomer(c, jobs, prefix, i);
      JobsKept(s0, prefix);
      InitInv(c, jobs);
      RunInv(c, s0, prefix);
      LeadStep(c, Exec(s0, prefix), run[|run| - 1], i);
    }
  }

  // ---- whole calls ----

  /** The restaurant when process i has made m accesses by itself and its call has not returned. */
  function During(s: State, i: nat, m: nat): State
    requires i < |s.staff|
  {
    var p := s.staff[i];
    var (tray, pc) := Alone(SideOf(p.job), DishOf(p.at), TrayOf(s, p.at), p.pc, m);
    WithTray(s, p.at, tray).(staff := s.staff[i := Process(p.job, p.at, pc)])
  }

  lemma DuringStep(s: State, i: nat, m: nat)
    requires i < |s.staff|
    ensures
      var next := During(s, i, m + 1);
      WorkerStep(During(s, i, m), i)
      == next.(staff := s.staff[i := next.staff[i].(at := NextTray(During(s, i, m).staff[i]))])
  {
    var p := s.staff[i];
    var (tray, pc) := Alone(SideOf(p.job), DishOf(p.at), TrayOf(s, p.at), p.pc, m);
    AloneSplit(SideOf(p.job), DishOf(p.at), TrayOf(s, p.at), p.pc, m, 1);
    AloneFew(SideOf(p.job), DishOf(p.at), tray, pc);
    assert During(s, i, m).staff[i] == p.(pc := pc) && TrayOf(During(s, i, m), p.at) == tray;
  }

  lemma ExecOneMore(s: State, i: nat, m: nat)
    requires i < |s.staff|
    ensures Exec(s, seq(m + 1, _ => Worker(i))) == Step(Exec(s, seq(m, _ => Worker(i))), Worker(i))
  {
    assert seq(m + 1, _ => Worker(i))[..m] == seq(m, _ => Worker(i));
  }

  lemma {:induction false} WorkerAlone(s: State, i: nat, m: nat)
    requires i < |s.staff|
    requires forall k :: 0 <= k < m ==> !During(s, i, k).staff[i].pc.Announce?
    ensures Exec(s, seq(m, _ => Worker(i))) == During(s, i, m)
  {
    if m == 0 {
      assert s.staff[i := s.staff[i]] == s.staff;
    } else {
      WorkerAlone(s, i, m - 1);
      ExecOneMore(s, i, m - 1);
      DuringStep(s, i, m - 1);
    }
  }

  /** The n-th access is the last sem_post of the call. */
  lemma WorkerReturns(s: State, i: nat, n: nat)
    requires i < |s.staff| && n > 0
    requires forall k :: 0 <= k < n - 1 ==> !During(s, i, k).staff[i].pc.Announce?
    requires During(s, i, n - 1).staff[i] == s.staff[i].(pc := Announce)
    ensures
      var done := During(s, i, n);
      Exec(s, seq(n, _ => Worker(i)))
      == done.(staff := s.staff[i := done.staff[i].(at := NextTray(s.staff[i].(pc := Announce)))])
  {
    WorkerAlone(s, i, n - 1);
    ExecOneMore(s, i, n - 1);
    DuringStep(s, i, n - 1);
  }

  /** The tray a process turns to after a call: the alternating customer changes when the call returns. */
  function TrayAfter(p: Process, o: Outcome): TrayId {
    if p.job.Alternating? && o.Returned? then Other(p.at) else p.at
  }

  /** A call of add_item or remove_item that nobody interrupts, in the restaurant: what the code over the array does. */
  lemma CallInTheRestaurant(s: State, i: nat)
    requires i < |s.staff| && s.staff[i].pc.Idle?
    ensures
      var p := s.staff[i];
      var tray := TrayOf(s, p.at);
      var side, dish := if p.job.Chef? then Adding else Removing, if p.at.Vegan? then VEGAN else NON_VEGAN;
      var (tray', outcome) := Call(side, dish, tray);
      var n := Accesses(side, dish, tray);
      Exec(s, seq(n, _ => Worker(i)))
      == WithTray(s, p.at, tray').(staff := s.staff[i := Process(p.job, TrayAfter(p, outcome), PcAfter(outcome))])
  {
    var p := s.staff[i];
    var side, dish, tray := SideOf(p.job), DishOf(p.at), TrayOf(s, p.at);
    var n := Accesses(side, dish, tray);
    CallIsItsAccesses(side, dish, tray);
    if Call(side, dish, tray).1.Returned? {
      forall k | 0 <= k < n ensures During(s, i, k).staff[i].pc.Announce? <==> k == n - 1 {
        AnnounceIsLast(side, dish, tray, k);
      }
      WorkerReturns(s, i, n);
    } else {
      WorkerAlone(s, i, n);
    }
  }

  // ---- the program as shipped ----

  const SHIPPED: seq<Job> := [Chef(NonVegan), Chef(Vegan), Guest(NonVegan), Guest(Vegan), Alternating]

  /** The processes that may put a dish on tray t, and those that may take one. */
  predicate MayPut(a: Actor, t: TrayId) { a == if t.Vegan? then Worker(1) else Worker(0) }

  predicate MayTake(a: Actor, t: TrayId) { a == Worker(4) || a == if t.Vegan? then Worker(3) else Worker(2) }

  /**
    Two chefs and three customers over trays of ten: never stuck, never more than ten dishes on a tray, and every
    dish put there by the tray's chef and taken by one of its two customers.
  */
  lemma ShippedProgram(run: seq<Actor>, t: TrayId) returns (i: nat)
    ensures
      var s := Exec(Init(10, SHIPPED), run);
      && Occ(s, t) == Puts(Init(10, SHIPPED), run, t) - Takes(Init(10, SHIPPED), run, t)
      && 0 <= Occ(s, t) <= 10
      && i < |s.staff| == 5 && s.staff[i].at == t && !Waiting(s, i)
      && forall a ::
           (Occ(Step(s, a), t) > Occ(s, t) ==> MayPut(a, t)) && (Occ(Step(s, a), t) < Occ(s, t) ==> MayTake(a, t))
  {
    var s0 := Init(BUFFER_SIZE, SHIPPED);
    var s := Exec(s0, run);
    assert SHIPPED[0] == Chef(NonVegan) && SHIPPED[1] == Chef(Vegan);
    assert SHIPPED[2] == Guest(NonVegan) && SHIPPED[3] == Guest(Vegan);
    assert Reachable(BUFFER_SIZE, SHIPPED, s);
    DishesBalance(BUFFER_SIZE, SHIPPED, run, t);
    TokensConserved(BUFFER_SIZE, SHIPPED, s, t);
    JobsKept(s0, run);
    forall a
      ensures (Occ(Step(s, a), t) > Occ(s, t) ==> MayPut(a, t)) && (Occ(Step(s, a), t) < Occ(s, t) ==> MayTake(a, t))
    {
      ShippedRoles(s, a, t);
    }
    i := NoDeadlock(BUFFER_SIZE, SHIPPED, s, t);
  }

  lemma ShippedRoles(s: State, a: Actor, t: TrayId)
    requires Reachable(BUFFER_SIZE, SHIPPED, s) && |s.staff| == 5
    requires forall k :: 0 <= k < 5 ==> s.staff[k].job == SHIPPED[k]
    ensures Occ(Step(s, a), t) > Occ(s, t) ==> MayPut(a, t)
    ensures Occ(Step(s, a), t) < Occ(s, t) ==> MayTake(a, t)
  {
    WhoMovesDishes(BUFFER_SIZE, SHIPPED, s, a, t);
    assert SHIPPED[0] == Chef(NonVegan) && SHIPPED[1] == Chef(Vegan) && SHIPPED[4] == Alternating;
    assert SHIPPED[2] == Guest(NonVegan) && SHIPPED[3] == Guest(Vegan);
  }
}
