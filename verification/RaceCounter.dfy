/**
  The shared counter: `threads` threads each add 1 to it `increments` times under a mutex.  counter++ is a
  load and a store.  The main thread creates the threads one by one (a failed creation ends the process),
  joins them in the same order and reads the counter without the mutex.
*/
module RaceCounter {
  import opened Counting

  datatype Pc = NotCreated | Lock | Load | Store(loaded: int) | Unlock | Returned

  /** `done`: the increments completed by this thread, its loop counter. */
  datatype Thread = Thread(pc: Pc, done: nat)

  datatype MainPc = Creating(k: nat) | Joining(k: nat) | Printed(value: int) | Exited

  datatype Holder = Free | HeldBy(i: nat)

  datatype State = State(counter: int, mutex: Holder, threads: seq<Thread>, main: MainPc)

  datatype Actor = Run(i: nat) | Main | CreateFails

  function Init(threads: nat): State {
    State(0, Free, seq(threads, _ => Thread(NotCreated, 0)), Creating(0))
  }

  /** Where a thread is when `done` of its increments are complete. */
  function LoopHead(increments: nat, done: nat): Pc { if done < increments then Lock else Returned }

  function ThreadStep(increments: nat, s: State, i: nat): State
    requires i < |s.threads|
  {
    var t := s.threads[i];
    match t.pc
    case NotCreated => s
    case Lock => if s.mutex.Free? then s.(mutex := HeldBy(i), threads := s.threads[i := t.(pc := Load)]) else s
    case Load => s.(threads := s.threads[i := t.(pc := Store(s.counter))])
    case Store(v) => s.(counter := v + 1, threads := s.threads[i := t.(pc := Unlock)])
    case Unlock =>
      s.(mutex := Free, threads := s.threads[i := Thread(LoopHead(increments, t.done + 1), t.done + 1)])
    case Returned => s
  }

  function MainStep(increments: nat, s: State): State {
    match s.main
    case Creating(k) =>
      if k < |s.threads| then
        s.(threads := s.threads[k := Thread(LoopHead(increments, 0), 0)], main := Creating(k + 1))
      else s.(main := Joining(0))
    case Joining(k) =>
      if k < |s.threads| then (if s.threads[k].pc.Returned? then s.(main := Joining(k + 1)) else s)
      else s.(main := Printed(s.counter))
    case Printed(_) => s
    case Exited => s
  }

  function Step(increments: nat, s: State, a: Actor): State {
    if s.main.Exited? then s else
      match a
      case Run(i) => if i < |s.threads| then ThreadStep(increments, s, i) else s
      case Main => MainStep(increments, s)
      case CreateFails => if s.main.Creating? && s.main.k < |s.threads| then s.(main := Exited) else s
  }

  function Exec(increments: nat, s: State, run: seq<Actor>): State {
    if run == [] then s else Step(increments, Exec(increments, s, run[..|run| - 1]), run[|run| - 1])
  }

  /** Increments whose store has happened. */
  function Stores(): Thread -> nat { (t: Thread) => t.done + (if t.pc.Unlock? then 1 else 0) }

  ghost predicate ThreadInv(increments: nat, s: State, i: nat)
    requires i < |s.threads|
  {
    var t := s.threads[i];
    && t.done <= increments
    && (s.mutex == HeldBy(i) <==> t.pc.Load? || t.pc.Store? || t.pc.Unlock?)
    && (t.pc.NotCreated? ==> t.done == 0)
    && (t.pc.Returned? ==> t.done == increments)
    && (t.pc.Lock? || t.pc.Load? || t.pc.Store? || t.pc.Unlock? ==> t.done < increments)
    && (t.pc.Store? ==> t.pc.loaded == s.counter)
  }

  ghost predicate MainInv(s: State) {
    match s.main
    case Creating(k) =>
      k <= |s.threads| && forall i :: 0 <= i < |s.threads| ==> (s.threads[i].pc.NotCreated? <==> i >= k)
    case Joining(k) =>
      && k <= |s.threads|
      && (forall i :: 0 <= i < |s.threads| ==> !s.threads[i].pc.NotCreated?)
      && (forall i :: 0 <= i < k ==> s.threads[i].pc.Returned?)
    case Printed(v) => v == s.counter && forall i :: 0 <= i < |s.threads| ==> s.threads[i].pc.Returned?
    case Exited => true
  }

  ghost predicate Inv(increments: nat, s: State) {
    && (s.mutex.HeldBy? ==> s.mutex.i < |s.threads|)
    && s.counter == Sum(Stores(), s.threads)
    && (forall i :: 0 <= i < |s.threads| ==> ThreadInv(increments, s, i))
    && MainInv(s)
  }

  /** The thread a step changes, if any. */
  function Moved(s: State, a: Actor): nat {
    match a
    case Run(i) => i
    case Main => if s.main.Creating? then s.main.k else |s.threads|
    case CreateFails => |s.threads|
  }

  lemma StepThreads(increments: nat, s: State, a: Actor)
    requires Inv(increments, s)
    ensures
      var s' := Step(increments, s, a);
      |s'.threads| == |s.threads| && forall i :: 0 <= i < |s'.threads| ==> ThreadInv(increments, s', i)
  {
    var s' := Step(increments, s, a);
    forall i | 0 <= i < |s'.threads| ensures ThreadInv(increments, s', i) {
      assert ThreadInv(increments, s, i);
      if Moved(s, a) < |s.threads| { assert ThreadInv(increments, s, Moved(s, a)); }
    }
  }

  lemma StepInv(increments: nat, s: State, a: Actor)
    requires Inv(increments, s)
    ensures Inv(increments, Step(increments, s, a))
  {
    StepThreads(increments, s, a);
    var i := Moved(s, a);
    if i < |s.threads| {
      assert ThreadInv(increments, s, i);
      SumUpdate(Stores(), s.threads, i, Step(increments, s, a).threads[i]);
    }
  }

  lemma {:induction false} RunInv(threads: nat, increments: nat, run: seq<Actor>)
    ensures Inv(increments, Exec(increments, Init(threads), run))
    ensures |Exec(increments, Init(threads), run).threads| == threads
  {
    if run == [] {
      SumUniform(Stores(), Init(threads).threads, 0);
    } else {
      var prefix := run[..|run| - 1];
      RunInv(threads, increments, prefix);
      StepInv(increments, Exec(increments, Init(threads), prefix), run[|run| - 1]);
    }
  }

  /** Whatever the interleaving, the value the main thread prints is exactly threads * increments. */
  lemma PrintedValue(threads: nat, increments: nat, run: seq<Actor>)
    requires Exec(increments, Init(threads), run).main.Printed?
    ensures Exec(increments, Init(threads), run).main.value == increments * threads
  {
    var s := Exec(increments, Init(threads), run);
    RunInv(threads, increments, run);
    forall k | 0 <= k < |s.threads| ensures Stores()(s.threads[k]) == increments {
      assert ThreadInv(increments, s, k);
    }
    SumUniform(Stores(), s.threads, increments);
  }

  /** The counter never exceeds that value on the way: with 3 * 1000000 a 32-bit int does not overflow. */
  lemma CounterInRange(threads: nat, increments: nat, run: seq<Actor>)
    ensures 0 <= Exec(increments, Init(threads), run).counter <= increments * threads
  {
    var s := Exec(increments, Init(threads), run);
    RunInv(threads, increments, run);
    forall k | 0 <= k < |s.threads| ensures Stores()(s.threads[k]) <= increments {
      assert ThreadInv(increments, s, k);
    }
    SumBound(Stores(), s.threads, increments);
  }

  lemma ShippedCounter(run: seq<Actor>)
    ensures
      var s := Exec(1000000, Init(3), run);
      0 <= s.counter < 0x8000_0000 && (s.main.Printed? ==> s.main.value == 3000000)
  {
    CounterInRange(3, 1000000, run);
    if Exec(1000000, Init(3), run).main.Printed? { PrintedValue(3, 1000000, run); }
  }

  // ---- progress and termination ----

  predicate CanStep(s: State, a: Actor) {
    && !s.main.Exited?
    && match a
       case Run(i) =>
         && i < |s.threads| && !s.threads[i].pc.NotCreated? && !s.threads[i].pc.Returned?
         && (s.threads[i].pc.Lock? ==> s.mutex.Free?)
       case Main =>
         && !s.main.Printed?
         && (s.main.Joining? && s.main.k < |s.threads| ==> s.threads[s.main.k].pc.Returned?)
       case CreateFails => s.main.Creating? && s.main.k < |s.threads|
  }

  /** An actor can step exactly when its step changes something. */
  lemma EnabledMoves(increments: nat, s: State, a: Actor)
    ensures CanStep(s, a) <==> Step(increments, s, a) != s
  {
    if a.Run? && a.i < |s.threads| {
      assert Step(increments, s, a) != s ==> Step(increments, s, a).threads[a.i] != s.threads[a.i];
    }
  }

  /** A failed creation ends the process: nothing that is scheduled after it changes anything. */
  lemma {:induction false} FailedCreation(increments: nat, s: State, run: seq<Actor>)
    requires s.main.Creating? && s.main.k < |s.threads|
    ensures Exec(increments, Step(increments, s, CreateFails), run) == s.(main := Exited)
  {
    if run == [] {
    } else {
      FailedCreation(increments, s, run[..|run| - 1]);
    }
  }

  /** Never stuck: until the process has exited or printed, the main thread or some other thread can step. */
  lemma NeverStuck(threads: nat, increments: nat, run: seq<Actor>) returns (a: Actor)
    requires
      var s := Exec(increments, Init(threads), run);
      !s.main.Exited? && !s.main.Printed?
    ensures !a.CreateFails? && CanStep(Exec(increments, Init(threads), run), a)
  {
    var s := Exec(increments, Init(threads), run);
    RunInv(threads, increments, run);
    if CanStep(s, Main) {
      a := Main;
    } else {
      var i := if s.mutex.HeldBy? then s.mutex.i else s.main.k;
      assert ThreadInv(increments, s, i);
      a := Run(i);
    }
  }

  /** Steps a thread still has to make. */
  function ThreadLeft(increments: nat): Thread -> nat {
    (t: Thread) =>
      if t.done >= increments then 0
      else 4 * (increments - t.done)
           - (match t.pc case Load => 1 case Store(_) => 2 case Unlock => 3 case _ => 0)
  }

  function MainLeft(s: State): int {
    match s.main
    case Creating(k) => 2 * |s.threads| + 2 - k
    case Joining(k) => |s.threads| + 1 - k
    case Printed(_) => 0
    case Exited => 0
  }

  function Left(increments: nat, s: State): int { Sum(ThreadLeft(increments), s.threads) + MainLeft(s) }

  function Work(increments: nat, s: State, run: seq<Actor>): nat {
    if run == [] then 0
    else
      var n := |run| - 1;
      Work(increments, s, run[..n]) + (if CanStep(Exec(increments, s, run[..n]), run[n]) then 1 else 0)
  }

  lemma StepLeft(increments: nat, s: State, a: Actor)
    requires Inv(increments, s) && !a.CreateFails?
    ensures Left(increments, Step(increments, s, a)) == Left(increments, s) - (if CanStep(s, a) then 1 else 0)
  {
    var i := Moved(s, a);
    if i < |s.threads| {
      assert ThreadInv(increments, s, i);
      SumUpdate(ThreadLeft(increments), s.threads, i, Step(increments, s, a).threads[i]);
    }
  }

  /** Without a failed creation, every step counts: the steps made and the steps left always add up. */
  lemma {:induction false} WorkPlusLeft(threads: nat, increments: nat, run: seq<Actor>)
    requires forall k :: 0 <= k < |run| ==> !run[k].CreateFails?
    ensures
      var s := Exec(increments, Init(threads), run);
      Work(increments, Init(threads), run) + Left(increments, s) == 4 * increments * threads + 2 * threads + 2
  {
    if run == [] {
      SumUniform(ThreadLeft(increments), Init(threads).threads, 4 * increments);
    } else {
      var prefix := run[..|run| - 1];
      WorkPlusLeft(threads, increments, prefix);
      RunInv(threads, increments, prefix);
      StepLeft(increments, Exec(increments, Init(threads), prefix), run[|run| - 1]);
    }
  }

  /** So a run that prints has made exactly 4NK + 2N + 2 steps, and no run makes more. */
  lemma RunLength(threads: nat, increments: nat, run: seq<Actor>)
    requires forall k :: 0 <= k < |run| ==> !run[k].CreateFails?
    ensures Work(increments, Init(threads), run) <= 4 * increments * threads + 2 * threads + 2
    ensures Exec(increments, Init(threads), run).main.Printed? <==>
            Work(increments, Init(threads), run) == 4 * increments * threads + 2 * threads + 2
  {
    var s := Exec(increments, Init(threads), run);
    WorkPlusLeft(threads, increments, run);
    RunInv(threads, increments, run);
    if s.main.Printed? {
      forall k | 0 <= k < |s.threads| ensures ThreadLeft(increments)(s.threads[k]) == 0 {
        assert ThreadInv(increments, s, k);
      }
      SumUniform(ThreadLeft(increments), s.threads, 0);
    } else {
      NotExited(threads, increments, run);
    }
  }

  lemma {:induction false} NotExited(threads: nat, increments: nat, run: seq<Actor>)
    requires forall k :: 0 <= k < |run| ==> !run[k].CreateFails?
    ensures !Exec(increments, Init(threads), run).main.Exited?
  {
    if run == [] {
    } else {
      NotExited(threads, increments, run[..|run| - 1]);
    }
  }
}
