/**
  The whole restaurant as an interleaved step system: two trays, any number of chefs and customers, and
  the parent process that prints the tray counts without taking a lock.  A run is a sequence of actors;
  an actor that is blocked in sem_wait does not move when it is scheduled.
*/
module Restaurant {
  import opened Counting
  import opened Trays

  datatype TrayId = Vegan | NonVegan

  /** Which endless loop a process runs: a chef, a customer of one tray, or the customer that alternates. */
  datatype Job = Chef(home: TrayId) | Guest(home: TrayId) | Alternating

  /** `at` is the tray of the call the process is in, or of its next call. */
  datatype Process = Process(job: Job, at: TrayId, pc: Pc)

  /** The parent: asleep, or about to read slot i of tray `next`, with the two running counts. */
  datatype Parent = Asleep | Reading(i: nat, next: TrayId, vegan: nat, nonVegan: nat)

  datatype State = State(vegan: Tray, nonVegan: Tray, staff: seq<Process>, parent: Parent)

  datatype Actor = Worker(i: nat) | Logger

  function DishOf(t: TrayId): int { if t.Vegan? then VEGAN else NON_VEGAN }

  function Other(t: TrayId): TrayId { if t.Vegan? then NonVegan else Vegan }

  function SideOf(job: Job): Side { if job.Chef? then Adding else Removing }

  function TrayOf(s: State, t: TrayId): Tray { if t.Vegan? then s.vegan else s.nonVegan }

  function WithTray(s: State, t: TrayId, tray: Tray): State {
    if t.Vegan? then s.(vegan := tray) else s.(nonVegan := tray)
  }

  function Occ(s: State, t: TrayId): nat { Occupancy(TrayOf(s, t).items) }

  function StartOf(job: Job): Process {
    Process(job, if job.Alternating? then Vegan else job.home, Idle)
  }

  function Init(c: nat, jobs: seq<Job>): State {
    State(FreshTray(c), FreshTray(c), seq(|jobs|, k requires 0 <= k < |jobs| => StartOf(jobs[k])), Asleep)
  }

  /** The alternating customer turns to the other tray when a call returns. */
  function NextTray(p: Process): TrayId {
    if p.job.Alternating? && p.pc.Announce? then Other(p.at) else p.at
  }

  function WorkerStep(s: State, i: nat): State
    requires i < |s.staff|
  {
    var p := s.staff[i];
    var (tray, pc) := Advance(SideOf(p.job), DishOf(p.at), TrayOf(s, p.at), p.pc);
    WithTray(s, p.at, tray).(staff := s.staff[i := Process(p.job, NextTray(p), pc)])
  }

  /** One read of the status scan; at the end of the loop the two counts are printed. */
  function LoggerStep(s: State): State {
    match s.parent
    case Asleep => s.(parent := Reading(0, Vegan, 0, 0))
    case Reading(i, t, v, n) =>
      if t.Vegan? then
        if i >= |s.vegan.items| then s.(parent := Asleep)
        else s.(parent := Reading(i, NonVegan, v + Occupied(s.vegan.items[i]), n))
      else
        var seen := if i < |s.nonVegan.items| then Occupied(s.nonVegan.items[i]) else 0;
        s.(parent := Reading(i + 1, Vegan, v, n + seen))
  }

  function Step(s: State, a: Actor): State {
    match a
    case Worker(i) => if i < |s.staff| then WorkerStep(s, i) else s
    case Logger => LoggerStep(s)
  }

  function Exec(s: State, run: seq<Actor>): State {
    if run == [] then s else Step(Exec(s, run[..|run| - 1]), run[|run| - 1])
  }

  predicate Waiting(s: State, i: nat)
    requires i < |s.staff|
  {
    var p := s.staff[i];
    Blocked(SideOf(p.job), TrayOf(s, p.at), p.pc)
  }

  /** What a step does to the contents of tray t. */
  datatype Move = Quiet | Put(slot: nat) | Take(slot: nat)

  function MoveOf(s: State, a: Actor, t: TrayId): Move {
    if a.Worker? && a.i < |s.staff| && s.staff[a.i].at == t && s.staff[a.i].pc.Touch? then
      if SideOf(s.staff[a.i].job).Adding? then Put(s.staff[a.i].pc.i) else Take(s.staff[a.i].pc.i)
    else Quiet
  }

  // ---- where the processes are ----

  /** Chefs that hold an `empty` token and have not written yet. */
  function Cooking(t: TrayId): Process -> nat {
    (p: Process) =>
      if p.at == t && SideOf(p.job).Adding? && (p.pc.Granted? || p.pc.Test? || p.pc.Touch?) then 1 else 0
  }

  /** Chefs that have written and not yet posted `full`. */
  function Placed(t: TrayId): Process -> nat {
    (p: Process) =>
      if p.at == t && SideOf(p.job).Adding? && (p.pc.Unlock? || p.pc.Announce?) then 1 else 0
  }

  /** Customers that hold a `full` token and have not cleared a slot yet. */
  function Pending(t: TrayId): Process -> nat {
    (p: Process) =>
      if p.at == t && SideOf(p.job).Removing? && (p.pc.Granted? || p.pc.Test? || p.pc.Touch?) then 1 else 0
  }

  /** Customers that have cleared and not yet posted `empty`. */
  function Leaving(t: TrayId): Process -> nat {
    (p: Process) =>
      if p.at == t && SideOf(p.job).Removing? && (p.pc.Unlock? || p.pc.Announce?) then 1 else 0
  }

  /** Processes between sem_wait(mutex) and sem_post(mutex). */
  function Inside(t: TrayId): Process -> nat {
    (p: Process) => if p.at == t && (p.pc.Test? || p.pc.Touch? || p.pc.Unlock?) then 1 else 0
  }

  // ---- the invariant ----

  ghost predicate Slots(items: seq<int>, c: nat, t: TrayId) {
    |items| == c && forall k :: 0 <= k < c ==> items[k] == EMPTY || items[k] == DishOf(t)
  }

  ghost predicate TrayInv(c: nat, s: State, t: TrayId) {
    var tray := TrayOf(s, t);
    && Slots(tray.items, c, t)
    && tray.mutex + Sum(Inside(t), s.staff) == 1
    && tray.empty + Sum(Cooking(t), s.staff) + Sum(Leaving(t), s.staff) + Occupancy(tray.items) == c
    && tray.full + Sum(Placed(t), s.staff) + Sum(Pending(t), s.staff) == Occupancy(tray.items)
  }

  /** What a process inside the scan has established about the slots it passed. */
  ghost predicate Scanned(p: Process, items: seq<int>) {
    var want := Wanted(SideOf(p.job), DishOf(p.at));
    && (p.pc.Test? ==> p.pc.i <= |items| && forall k :: 0 <= k < p.pc.i ==> items[k] != want)
    && (p.pc.Touch? ==>
          && p.pc.i < |items| && items[p.pc.i] == want
          && forall k :: 0 <= k < p.pc.i ==> items[k] != want)
  }

  ghost predicate ProcessInv(s: State, p: Process) {
    && (!p.job.Alternating? ==> p.at == p.job.home)
    && Scanned(p, TrayOf(s, p.at).items)
  }

  ghost predicate Inv(c: nat, s: State) {
    && TrayInv(c, s, Vegan)
    && TrayInv(c, s, NonVegan)
    && forall k :: 0 <= k < |s.staff| ==> ProcessInv(s, s.staff[k])
  }

  /** States some run of a restaurant with trays of c slots can reach. */
  ghost predicate Reachable(c: nat, jobs: seq<Job>, s: State) {
    exists run: seq<Actor> :: s == Exec(Init(c, jobs), run)
  }
}
