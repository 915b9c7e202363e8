/**
  One food tray: BUFFER_SIZE slots and three semaphores, and the two routines that use it,
  add_item and remove_item, cut into the accesses they make to shared memory.
*/
module Trays {
  import opened Counting

  const BUFFER_SIZE: nat := 10
  const EMPTY := 0
  const VEGAN := 1
  const NON_VEGAN := 2

  datatype Tray = Tray(items: seq<int>, mutex: nat, full: nat, empty: nat)

  /** Which routine runs: add_item waits on `empty` and posts `full`, remove_item the other way round. */
  datatype Side = Adding | Removing

  /**
    The next access of a process inside the routine.  Idle: the first sem_wait.  Granted: sem_wait(mutex).
    Test(i): the loop head at index i and the comparison with items[i].  Touch(i): the assignment to
    items[i].  Unlock: sem_post(mutex).  Announce: the last sem_post.
  */
  datatype Pc = Idle | Granted | Test(i: nat) | Touch(i: nat) | Unlock | Announce

  function Wanted(side: Side, dish: int): int { if side.Adding? then EMPTY else dish }

  function Replacement(side: Side, dish: int): int { if side.Adding? then dish else EMPTY }

  /** sem_wait on a semaphore at 0 does not return. */
  predicate Blocked(side: Side, tray: Tray, pc: Pc) {
    || (pc.Idle? && (if side.Adding? then tray.empty else tray.full) == 0)
    || (pc.Granted? && tray.mutex == 0)
  }

  /** One access.  A scan that reaches the end of the tray falls through to the sem_post, as the code does. */
  function Advance(side: Side, dish: int, tray: Tray, pc: Pc): (Tray, Pc) {
    if Blocked(side, tray, pc) then (tray, pc) else
      match pc
      case Idle =>
        (if side.Adding? then tray.(empty := tray.empty - 1) else tray.(full := tray.full - 1), Granted)
      case Granted => (tray.(mutex := tray.mutex - 1), Test(0))
      case Test(i) =>
        if i >= |tray.items| then (tray, Unlock)
        else if tray.items[i] == Wanted(side, dish) then (tray, Touch(i))
        else (tray, Test(i + 1))
      case Touch(i) =>
        (if i < |tray.items| then tray.(items := tray.items[i := Replacement(side, dish)]) else tray, Unlock)
      case Unlock => (tray.(mutex := tray.mutex + 1), Announce)
      case Announce =>
        (if side.Adding? then tray.(full := tray.full + 1) else tray.(empty := tray.empty + 1), Idle)
  }

  function FreshTray(size: nat): Tray {
    Tray(seq(size, _ => EMPTY), 1, 0, size)
  }

  function Occupied(x: int): nat { if x != EMPTY then 1 else 0 }

  function Occupancy(items: seq<int>): nat { Sum(Occupied, items) }

  lemma AllOccupied(items: seq<int>)
    requires forall k :: 0 <= k < |items| ==> items[k] != EMPTY
    ensures Occupancy(items) == |items|
  {
    SumUniform(Occupied, items, 1);
  }

  lemma NoneOccupied(items: seq<int>)
    requires forall k :: 0 <= k < |items| ==> items[k] == EMPTY
    ensures Occupancy(items) == 0
  {
    SumUniform(Occupied, items, 0);
  }

  lemma OccupancyUpdate(items: seq<int>, i: nat, x: int)
    requires i < |items|
    ensures Occupancy(items[i := x]) + Occupied(items[i]) == Occupancy(items) + Occupied(x)
  {
    SumUpdate(Occupied, items, i, x);
  }

  lemma PrefixOccupancy(items: seq<int>, n: nat)
    requires n <= |items|
    ensures Occupancy(items[..n]) <= Occupancy(items)
    ensures n < |items| ==> Occupancy(items[..n + 1]) == Occupancy(items[..n]) + Occupied(items[n])
  {
    assert items == items[..n] + items[n..];
    SumSplit(Occupied, items[..n], items[n..]);
    if n < |items| { assert items[..n + 1][..n] == items[..n]; }
  }
}
