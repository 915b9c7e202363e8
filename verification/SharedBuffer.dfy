/**
  add_item, remove_item and print_buffer_state as code over a real array, and their tie to the step
  relation: a call that nobody disturbs does exactly what the accesses of one process do one after another.
*/
module SharedBuffers {
  import opened Trays

  function FirstMatch(items: seq<int>, want: int): (k: nat)
    ensures k <= |items|
    ensures k < |items| ==> items[k] == want
    ensures forall j :: 0 <= j < k ==> items[j] != want
  {
    if items == [] || items[0] == want then 0 else 1 + FirstMatch(items[1..], want)
  }

  /** k is the lowest index of an item like this. */
  predicate IsFirst(items: seq<int>, want: int, k: int) {
    0 <= k < |items| && items[k] == want && forall j :: 0 <= j < k ==> items[j] != want
  }

  function ReplaceFirst(items: seq<int>, want: int, put: int): seq<int> {
    var k := FirstMatch(items, want);
    if k < |items| then items[k := put] else items
  }

  /** Where a call stands once it cannot go on by itself. */
  datatype Outcome = WaitsForToken | WaitsForMutex | Returned

  /** The effect of an undisturbed call, up to its return or to the first sem_wait that does not return. */
  function Call(side: Side, dish: int, tray: Tray): (Tray, Outcome) {
    if Blocked(side, tray, Idle) then (tray, WaitsForToken)
    else
      var granted :=
        if side.Adding? then tray.(empty := tray.empty - 1) else tray.(full := tray.full - 1);
      if tray.mutex == 0 then (granted, WaitsForMutex)
      else
        var done := granted.(items := ReplaceFirst(tray.items, Wanted(side, dish), Replacement(side, dish)));
        (if side.Adding? then done.(full := tray.full + 1) else done.(empty := tray.empty + 1), Returned)
  }

  function PcAfter(o: Outcome): Pc { if o.WaitsForMutex? then Granted else Idle }

  /** n accesses of one process, with nobody else at the tray. */
  function Alone(side: Side, dish: int, tray: Tray, pc: Pc, n: nat): (Tray, Pc)
    decreases n
  {
    if n == 0 then (tray, pc)
    else var (tray', pc') := Advance(side, dish, tray, pc); Alone(side, dish, tray', pc', n - 1)
  }

  /** The number of accesses an undisturbed call makes. */
  function Accesses(side: Side, dish: int, tray: Tray): nat {
    var k := FirstMatch(tray.items, Wanted(side, dish));
    match Call(side, dish, tray).1
    case WaitsForToken => 0
    case WaitsForMutex => 1
    case Returned => if k < |tray.items| then k + 6 else |tray.items| + 5
  }

  lemma {:induction false} ScanAlone(side: Side, dish: int, tray: Tray, i: nat)
    requires i <= FirstMatch(tray.items, Wanted(side, dish))
    ensures
      var k := FirstMatch(tray.items, Wanted(side, dish));
      Alone(side, dish, tray, Test(i), k - i) == (tray, Test(k))
    decreases |tray.items| - i
  {
    var k := FirstMatch(tray.items, Wanted(side, dish));
    if i == k {
    } else {
      ScanAlone(side, dish, tray, i + 1);
    }
  }

  lemma {:induction false} AloneSplit(side: Side, dish: int, tray: Tray, pc: Pc, m: nat, n: nat)
    ensures
      var (mid, at) := Alone(side, dish, tray, pc, m);
      Alone(side, dish, tray, pc, m + n) == Alone(side, dish, mid, at, n)
    decreases m
  {
    if m == 0 {
    } else {
      var (tray', pc') := Advance(side, dish, tray, pc);
      AloneSplit(side, dish, tray', pc', m - 1, n);
    }
  }

  lemma AloneFew(side: Side, dish: int, tray: Tray, pc: Pc)
    ensures
      var (t1, p1) := Advance(side, dish, tray, pc);
      var (t2, p2) := Advance(side, dish, t1, p1);
      var (t3, p3) := Advance(side, dish, t2, p2);
      && Alone(side, dish, tray, pc, 1) == (t1, p1)
      && Alone(side, dish, tray, pc, 2) == (t2, p2)
      && Alone(side, dish, tray, pc, 3) == (t3, p3)
      && Alone(side, dish, tray, pc, 4) == Advance(side, dish, t3, p3)
  {
    var (t1, p1) := Advance(side, dish, tray, pc);
    var (t2, p2) := Advance(side, dish, t1, p1);
    var (t3, p3) := Advance(side, dish, t2, p2);
    assert forall t, p :: Alone(side, dish, t, p, 1) == Advance(side, dish, t, p);
    assert Alone(side, dish, t1, p1, 2) == Alone(side, dish, t2, p2, 1);
    assert Alone(side, dish, t2, p2, 2) == Alone(side, dish, t3, p3, 1);
    assert Alone(side, dish, t1, p1, 3) == Alone(side, dish, t2, p2, 2);
  }

  lemma LockAlone(side: Side, dish: int, tray: Tray)
    requires !Blocked(side, tray, Idle)
    ensures
      var granted := if side.Adding? then tray.(empty := tray.empty - 1) else tray.(full := tray.full - 1);
      && Alone(side, dish, tray, Idle, 1) == (granted, Granted)
      && (tray.mutex > 0 ==> Alone(side, dish, tray, Idle, 2) == (granted.(mutex := tray.mutex - 1), Test(0)))
  {
    AloneFew(side, dish, tray, Idle);
  }

  /** What follows the scan: the assignment if it found a slot, and the two sem_posts. */
  lemma TailAlone(side: Side, dish: int, tray: Tray)
    ensures
      var k := FirstMatch(tray.items, Wanted(side, dish));
      var done := tray.(items := ReplaceFirst(tray.items, Wanted(side, dish), Replacement(side, dish)),
                        mutex := tray.mutex + 1);
      Alone(side, dish, tray, Test(k), if k < |tray.items| then 4 else 3)
      == (if side.Adding? then done.(full := tray.full + 1) else done.(empty := tray.empty + 1), Idle)
  {
    AloneFew(side, dish, tray, Test(FirstMatch(tray.items, Wanted(side, dish))));
  }

  /** From the lock on: the scan up to the first match, and what follows it. */
  lemma SectionAlone(side: Side, dish: int, tray: Tray)
    ensures
      var k := FirstMatch(tray.items, Wanted(side, dish));
      var done := tray.(items := ReplaceFirst(tray.items, Wanted(side, dish), Replacement(side, dish)),
                        mutex := tray.mutex + 1);
      Alone(side, dish, tray, Test(0), if k < |tray.items| then k + 4 else k + 3)
      == (if side.Adding? then done.(full := tray.full + 1) else done.(empty := tray.empty + 1), Idle)
  {
    var k := FirstMatch(tray.items, Wanted(side, dish));
    ScanAlone(side, dish, tray, 0);
    AloneSplit(side, dish, tray, Test(0), k, if k < |tray.items| then 4 else 3);
    TailAlone(side, dish, tray);
  }

  /** The call as a whole is its accesses, one step of the interleaved system after another. */
  lemma CallIsItsAccesses(side: Side, dish: int, tray: Tray)
    ensures
      var (tray', outcome) := Call(side, dish, tray);
      && Alone(side, dish, tray, Idle, Accesses(side, dish, tray)) == (tray', PcAfter(outcome))
      && (!outcome.Returned? ==> Blocked(side, tray', PcAfter(outcome)))
      && (outcome.Returned? ==> Accesses(side, dish, tray) >= 5)
  {
    if !Blocked(side, tray, Idle) {
      LockAlone(side, dish, tray);
      if tray.mutex > 0 {
        var locked := Alone(side, dish, tray, Idle, 2).0;
        AloneSplit(side, dish, tray, Idle, 2, Accesses(side, dish, tray) - 2);
        SectionAlone(side, dish, locked);
      }
    }
  }

  lemma {:induction false} ScanPrefix(side: Side, dish: int, tray: Tray, j: nat)
    requires j <= FirstMatch(tray.items, Wanted(side, dish))
    ensures Alone(side, dish, tray, Test(0), j) == (tray, Test(j))
  {
    if j == 0 {
    } else {
      ScanPrefix(side, dish, tray, j - 1);
      AloneSplit(side, dish, tray, Test(0), j - 1, 1);
      AloneFew(side, dish, tray, Test(j - 1));
    }
  }

  /** After the scan: write (if a slot was found), unlock, announce. */
  lemma TailPc(side: Side, dish: int, tray: Tray, k: nat, j: nat)
    requires k == FirstMatch(tray.items, Wanted(side, dish))
    requires 1 <= j < (if k < |tray.items| then 4 else 3)
    ensures Alone(side, dish, tray, Test(k), j).1
            == if k < |tray.items| then [Touch(k), Unlock, Announce][j - 1] else [Unlock, Announce][j - 1]
  {
    AloneFew(side, dish, tray, Test(k));
  }

  lemma SectionPc(side: Side, dish: int, tray: Tray, j: nat)
    requires
      var k := FirstMatch(tray.items, Wanted(side, dish));
      j < (if k < |tray.items| then k + 4 else k + 3)
    ensures
      var k := FirstMatch(tray.items, Wanted(side, dish));
      Alone(side, dish, tray, Test(0), j).1.Announce? <==> j == (if k < |tray.items| then k + 3 else k + 2)
  {
    var k := FirstMatch(tray.items, Wanted(side, dish));
    if j <= k {
      ScanPrefix(side, dish, tray, j);
    } else {
      ScanPrefix(side, dish, tray, k);
      AloneSplit(side, dish, tray, Test(0), k, j - k);
      TailPc(side, dish, tray, k, j - k);
    }
  }

  /** An undisturbed call that returns stands before its last sem_post exactly once: at its last access. */
  lemma AnnounceIsLast(side: Side, dish: int, tray: Tray, m: nat)
    requires Call(side, dish, tray).1.Returned? && m < Accesses(side, dish, tray)
    ensures Alone(side, dish, tray, Idle, m).1.Announce? <==> m == Accesses(side, dish, tray) - 1
  {
    LockAlone(side, dish, tray);
    if m >= 2 {
      AloneSplit(side, dish, tray, Idle, 2, m - 2);
      SectionPc(side, dish, Alone(side, dish, tray, Idle, 2).0, m - 2);
    }
  }

  /** The shared structure: BUFFER_SIZE slots and three semaphores. */
  class SharedBuffer {
    const items: array<int>
    var mutex: nat
    var full: nat
    var empty: nat

    ghost function Snapshot(): Tray
      reads this, items
    {
      Tray(items[..], mutex, full, empty)
    }

    constructor (size: nat)
      ensures fresh(items) && Snapshot() == FreshTray(size)
    {
      items := new int[size];
      new;
      for i := 0 to size
        invariant items.Length == size
        invariant forall k :: 0 <= k < i ==> items[k] == EMPTY
      {
        items[i] := EMPTY;
      }
      mutex, empty, full := 1, size, 0;
      assert items[..] == FreshTray(size).items;
    }

    /** The loop of both routines: the first slot that holds `want` is overwritten. */
    method OverwriteFirst(want: int, put: int)
      modifies items
      ensures items[..] == ReplaceFirst(old(items[..]), want, put)
    {
      ghost var was := items[..];
      for i := 0 to items.Length
        invariant items[..] == was
        invariant forall k :: 0 <= k < i ==> was[k] != want
      {
        if items[i] == want {
          items[i] := put;
          assert items[..] == was[i := put];
          return;
        }
      }
    }

    method AddItem(dish: int) returns (outcome: Outcome)
      modifies this, items
      ensures (Snapshot(), outcome) == Call(Adding, dish, old(Snapshot()))
      ensures outcome == if old(empty) == 0 then WaitsForToken else if old(mutex) == 0 then WaitsForMutex else Returned
      ensures empty == old(empty) - (if outcome.WaitsForToken? then 0 else 1)
      ensures full == old(full) + (if outcome.Returned? then 1 else 0) && mutex == old(mutex)
      ensures forall k :: 0 <= k < items.Length ==>
        items[k] == if outcome.Returned? && IsFirst(old(items[..]), EMPTY, k) then dish else old(items[k])
    {
      if empty == 0 { return WaitsForToken; }
      empty := empty - 1;
      if mutex == 0 { return WaitsForMutex; }
      mutex := mutex - 1;
      OverwriteFirst(EMPTY, dish);
      mutex := mutex + 1;
      full := full + 1;
      return Returned;
    }

    method RemoveItem(dish: int) returns (outcome: Outcome)
      modifies this, items
      ensures (Snapshot(), outcome) == Call(Removing, dish, old(Snapshot()))
      ensures outcome == if old(full) == 0 then WaitsForToken else if old(mutex) == 0 then WaitsForMutex else Returned
      ensures full == old(full) - (if outcome.WaitsForToken? then 0 else 1)
      ensures empty == old(empty) + (if outcome.Returned? then 1 else 0) && mutex == old(mutex)
      ensures forall k :: 0 <= k < items.Length ==>
        items[k] == if outcome.Returned? && IsFirst(old(items[..]), dish, k) then EMPTY else old(items[k])
    {
      if full == 0 { return WaitsForToken; }
      full := full - 1;
      if mutex == 0 { return WaitsForMutex; }
      mutex := mutex - 1;
      OverwriteFirst(dish, EMPTY);
      mutex := mutex + 1;
      empty := empty + 1;
      return Returned;
    }
  }

  /** The counts of a scan during which no slot changes are the true occupancies. */
  method PrintBufferState(vegan: SharedBuffer, nonVegan: SharedBuffer)
    returns (veganCount: nat, nonVeganCount: nat)
    requires vegan.items.Length == nonVegan.items.Length
    ensures veganCount == Occupancy(vegan.items[..]) && nonVeganCount == Occupancy(nonVegan.items[..])
  {
    veganCount, nonVeganCount := 0, 0;
    for i := 0 to vegan.items.Length
      invariant veganCount == Occupancy(vegan.items[..i])
      invariant nonVeganCount == Occupancy(nonVegan.items[..i])
    {
      PrefixOccupancy(vegan.items[..], i);
      PrefixOccupancy(nonVegan.items[..], i);
      assert vegan.items[..][..i] == vegan.items[..i] && vegan.items[..][..i + 1] == vegan.items[..i + 1];
      assert nonVegan.items[..][..i] == nonVegan.items[..i];
      assert nonVegan.items[..][..i + 1] == nonVegan.items[..i + 1];
      if vegan.items[i] != EMPTY { veganCount := veganCount + 1; }
      if nonVegan.items[i] != EMPTY { nonVeganCount := nonVeganCount + 1; }
    }
    assert vegan.items[..vegan.items.Length] == vegan.items[..];
    assert nonVegan.items[..vegan.items.Length] == nonVegan.items[..];
  }
}
