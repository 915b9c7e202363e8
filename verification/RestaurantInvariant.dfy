/** The counting invariant holds initially and after every step, so in every reachable state. */
module RestaurantInvariant {
  import opened Counting
  import opened Trays
  import opened Restaurant

  lemma InitInv(c: nat, jobs: seq<Job>)
    ensures Inv(c, Init(c, jobs))
  {
    var s := Init(c, jobs);
    NoneOccupied(s.vegan.items);
    forall t: TrayId ensures TrayInv(c, s, t) {
      SumUniform(Inside(t), s.staff, 0);
      SumUniform(Cooking(t), s.staff, 0);
      SumUniform(Leaving(t), s.staff, 0);
      SumUniform(Placed(t), s.staff, 0);
      SumUniform(Pending(t), s.staff, 0);
    }
  }

  lemma StaffUpdate(t: TrayId, staff: seq<Process>, i: nat, p: Process)
    requires i < |staff|
    ensures Sum(Inside(t), staff[i := p]) + Inside(t)(staff[i]) == Sum(Inside(t), staff) + Inside(t)(p)
    ensures Sum(Cooking(t), staff[i := p]) + Cooking(t)(staff[i]) == Sum(Cooking(t), staff) + Cooking(t)(p)
    ensures Sum(Leaving(t), staff[i := p]) + Leaving(t)(staff[i]) == Sum(Leaving(t), staff) + Leaving(t)(p)
    ensures Sum(Placed(t), staff[i := p]) + Placed(t)(staff[i]) == Sum(Placed(t), staff) + Placed(t)(p)
    ensures Sum(Pending(t), staff[i := p]) + Pending(t)(staff[i]) == Sum(Pending(t), staff) + Pending(t)(p)
  {
    SumUpdate(Inside(t), staff, i, p);
    SumUpdate(Cooking(t), staff, i, p);
    SumUpdate(Leaving(t), staff, i, p);
    SumUpdate(Placed(t), staff, i, p);
    SumUpdate(Pending(t), staff, i, p);
  }

  /** A process inside the scan has a slot left to find. */
  lemma ScanHasTarget(c: nat, s: State, i: nat)
    requires Inv(c, s) && i < |s.staff| && s.staff[i].pc.Test?
    ensures s.staff[i].pc.i < c
  {
    var p := s.staff[i];
    var items := TrayOf(s, p.at).items;
    assert ProcessInv(s, p);
    assert TrayInv(c, s, p.at);
    if p.pc.i == c {
      if SideOf(p.job).Adding? {
        SumMember(Cooking(p.at), s.staff, i);
        AllOccupied(items);
      } else {
        SumMember(Pending(p.at), s.staff, i);
        NoneOccupied(items);
      }
      assert false;
    }
  }

  lemma OneInside(c: nat, s: State, i: nat, j: nat)
    requires Inv(c, s) && i < |s.staff| && j < |s.staff| && i != j
    ensures Inside(s.staff[i].at)(s.staff[i]) + Inside(s.staff[i].at)(s.staff[j]) <= 1
  {
    var t := s.staff[i].at;
    assert TrayInv(c, s, t);
    if i < j { SumPair(Inside(t), s.staff, i, j); } else { SumPair(Inside(t), s.staff, j, i); }
  }

  /** The slots of the tray a process works on, after its step. */
  lemma OwnSlots(c: nat, s: State, i: nat)
    requires Inv(c, s) && i < |s.staff|
    ensures Slots(TrayOf(WorkerStep(s, i), s.staff[i].at).items, c, s.staff[i].at)
    ensures Occ(WorkerStep(s, i), s.staff[i].at) ==
            match MoveOf(s, Worker(i), s.staff[i].at)
            case Quiet => Occ(s, s.staff[i].at)
            case Put(_) => Occ(s, s.staff[i].at) + 1
            case Take(_) => Occ(s, s.staff[i].at) - 1
  {
    var p := s.staff[i];
    var items := TrayOf(s, p.at).items;
    assert TrayInv(c, s, p.at) && ProcessInv(s, p);
    if p.pc.Touch? {
      OccupancyUpdate(items, p.pc.i, Replacement(SideOf(p.job), DishOf(p.at)));
    }
  }

  /** Every step moves a token, a process or a dish, and keeps the two balances of its tray. */
  lemma Balance(s: State, i: nat, occ: nat, occ': nat)
    requires i < |s.staff|
    requires s.staff[i].pc.Test? ==> s.staff[i].pc.i < |TrayOf(s, s.staff[i].at).items|
    requires match MoveOf(s, Worker(i), s.staff[i].at)
             case Quiet => occ' == occ
             case Put(_) => occ' == occ + 1
             case Take(_) => occ' == occ - 1
    ensures
      var p, q, t := s.staff[i], WorkerStep(s, i).staff[i], s.staff[i].at;
      var u, v := TrayOf(s, t), TrayOf(WorkerStep(s, i), t);
      && v.mutex + Inside(t)(q) == u.mutex + Inside(t)(p)
      && v.empty + Cooking(t)(q) + Leaving(t)(q) + occ' == u.empty + Cooking(t)(p) + Leaving(t)(p) + occ
      && v.full + Placed(t)(q) + Pending(t)(q) + occ == u.full + Placed(t)(p) + Pending(t)(p) + occ'
  {
  }

  lemma OwnTrayStep(c: nat, s: State, i: nat)
    requires Inv(c, s) && i < |s.staff|
    ensures TrayInv(c, WorkerStep(s, i), s.staff[i].at)
  {
    var t := s.staff[i].at;
    assert TrayInv(c, s, t);
    if s.staff[i].pc.Test? { ScanHasTarget(c, s, i); }
    OwnSlots(c, s, i);
    Balance(s, i, Occ(s, t), Occ(WorkerStep(s, i), t));
    StaffUpdate(t, s.staff, i, WorkerStep(s, i).staff[i]);
  }

  lemma Weightless(t: TrayId, p: Process)
    requires p.at != t || p.pc.Idle?
    ensures Inside(t)(p) == Cooking(t)(p) == Leaving(t)(p) == Placed(t)(p) == Pending(t)(p) == 0
  {
  }

  lemma OtherTrayStep(c: nat, s: State, i: nat)
    requires Inv(c, s) && i < |s.staff|
    ensures TrayInv(c, WorkerStep(s, i), Other(s.staff[i].at))
  {
    var t, q := Other(s.staff[i].at), WorkerStep(s, i).staff[i];
    assert TrayInv(c, s, t);
    assert q.at == t ==> q.pc.Idle?;
    Weightless(t, s.staff[i]);
    Weightless(t, q);
    StaffUpdate(t, s.staff, i, q);
    assert TrayOf(WorkerStep(s, i), t) == TrayOf(s, t);
  }

  lemma OtherProcessStep(c: nat, s: State, i: nat, j: nat)
    requires Inv(c, s) && i < |s.staff| && j < |s.staff| && i != j
    ensures ProcessInv(WorkerStep(s, i), s.staff[j])
  {
    assert ProcessInv(s, s.staff[j]);
    OneInside(c, s, i, j);
  }

  lemma ScanAdvances(side: Side, dish: int, tray: Tray, i: nat)
    requires i < |tray.items| && forall k :: 0 <= k < i ==> tray.items[k] != Wanted(side, dish)
    ensures
      var (tray', pc) := Advance(side, dish, tray, Test(i));
      && tray' == tray
      && pc == (if tray.items[i] == Wanted(side, dish) then Touch(i) else Test(i + 1))
      && (pc.Test? ==> forall k :: 0 <= k < i + 1 ==> tray.items[k] != Wanted(side, dish))
  {
  }

  lemma ScanStepKept(c: nat, s: State, i: nat)
    requires Inv(c, s) && i < |s.staff| && s.staff[i].pc.Test?
    ensures ProcessInv(WorkerStep(s, i), WorkerStep(s, i).staff[i])
  {
    var p := s.staff[i];
    assert ProcessInv(s, p) && TrayInv(c, s, p.at);
    ScanHasTarget(c, s, i);
    ScanAdvances(SideOf(p.job), DishOf(p.at), TrayOf(s, p.at), p.pc.i);
    assert TrayOf(WorkerStep(s, i), p.at) == TrayOf(s, p.at);
  }

  lemma OwnProcessStep(c: nat, s: State, i: nat)
    requires Inv(c, s) && i < |s.staff|
    ensures ProcessInv(WorkerStep(s, i), WorkerStep(s, i).staff[i])
  {
    assert ProcessInv(s, s.staff[i]);
    if s.staff[i].pc.Test? {
      ScanStepKept(c, s, i);
    } else {
      assert !WorkerStep(s, i).staff[i].pc.Touch?;
    }
  }

  lemma WorkerInv(c: nat, s: State, i: nat)
    requires Inv(c, s) && i < |s.staff|
    ensures Inv(c, WorkerStep(s, i))
  {
    var s' := WorkerStep(s, i);
    forall j | 0 <= j < |s'.staff| ensures ProcessInv(s', s'.staff[j]) {
      if j == i { OwnProcessStep(c, s, i); } else { OtherProcessStep(c, s, i, j); }
    }
    assert forall t: TrayId :: TrayInv(c, s', t) by {
      OwnTrayStep(c, s, i);
      OtherTrayStep(c, s, i);
    }
  }

  lemma LoggerInv(c: nat, s: State)
    requires Inv(c, s)
    ensures Inv(c, LoggerStep(s))
  {
    var s' := LoggerStep(s);
    assert s' == s.(parent := s'.parent);
    assert TrayInv(c, s', Vegan) && TrayInv(c, s', NonVegan);
    forall k | 0 <= k < |s.staff| ensures ProcessInv(s', s'.staff[k]) {
      assert ProcessInv(s, s.staff[k]);
    }
  }

  lemma StepInv(c: nat, s: State, a: Actor)
    requires Inv(c, s)
    ensures Inv(c, Step(s, a))
  {
    match a
    case Worker(i) => if i < |s.staff| { WorkerInv(c, s, i); }
    case Logger => LoggerInv(c, s);
  }

  lemma {:induction false} RunInv(c: nat, s: State, run: seq<Actor>)
    requires Inv(c, s)
    ensures Inv(c, Exec(s, run))
  {
    if run == [] {
    } else {
      var n := |run| - 1;
      RunInv(c, s, run[..n]);
      StepInv(c, Exec(s, run[..n]), run[n]);
    }
  }

  lemma ReachableInv(c: nat, jobs: seq<Job>, s: State)
    requires Reachable(c, jobs, s)
    ensures Inv(c, s)
  {
    var run: seq<Actor> :| s == Exec(Init(c, jobs), run);
    InitInv(c, jobs);
    RunInv(c, Init(c, jobs), run);
  }
}
