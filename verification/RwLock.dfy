/**
  The read-write lock exercise: any number of readers that print `resource` and writers that increment it,
  each in an endless loop.  The increment is a load and a store, and the writer's printf reads once more.
  The lock grants a reader when no writer holds it and a writer when nobody holds it; a lock that makes
  readers wait in further cases only removes runs.
*/
module RwLock {
  import opened Counting

  datatype Thread =
    | ReaderOut | ReaderRead | ReaderUnlock
    | WriterOut | WriterLoad | WriterStore(loaded: int) | WriterPrint | WriterUnlock

  /** One line a reader printed: which thread, the value it read, and how many increments were complete. */
  datatype Observation = Observation(thread: nat, value: int, complete: nat)

  /** `complete`, `read` and `wrote` record history: increments stored, lines printed by readers and by writers. */
  datatype State = State(
    resource: int, readers: nat, writing: bool, threads: seq<Thread>,
    complete: nat, read: seq<Observation>, wrote: seq<int>)

  ghost predicate Start(s: State) {
    && s == State(0, 0, false, s.threads, 0, [], [])
    && forall i :: 0 <= i < |s.threads| ==> s.threads[i].ReaderOut? || s.threads[i].WriterOut?
  }

  predicate CanStep(s: State, i: nat)
    requires i < |s.threads|
  {
    && (s.threads[i].ReaderOut? ==> !s.writing)
    && (s.threads[i].WriterOut? ==> !s.writing && s.readers == 0)
  }

  function Step(s: State, i: nat): State {
    if i >= |s.threads| || !CanStep(s, i) then s
    else
      match s.threads[i]
      case ReaderOut => s.(readers := s.readers + 1, threads := s.threads[i := ReaderRead])
      case ReaderRead =>
        s.(read := s.read + [Observation(i, s.resource, s.complete)], threads := s.threads[i := ReaderUnlock])
      case ReaderUnlock =>
        s.(readers := if s.readers > 0 then s.readers - 1 else 0, threads := s.threads[i := ReaderOut])
      case WriterOut => s.(writing := true, threads := s.threads[i := WriterLoad])
      case WriterLoad => s.(threads := s.threads[i := WriterStore(s.resource)])
      case WriterStore(v) =>
        s.(resource := v + 1, complete := s.complete + 1, threads := s.threads[i := WriterPrint])
      case WriterPrint => s.(wrote := s.wrote + [s.resource], threads := s.threads[i := WriterUnlock])
      case WriterUnlock => s.(writing := false, threads := s.threads[i := WriterOut])
  }

  /** A run is the sequence of threads that are scheduled. */
  function Exec(s: State, run: seq<nat>): State {
    if run == [] then s else Step(Exec(s, run[..|run| - 1]), run[|run| - 1])
  }

  function Reading(): Thread -> nat { (t: Thread) => if t.ReaderRead? || t.ReaderUnlock? then 1 else 0 }

  function Writing(): Thread -> nat {
    (t: Thread) => if t.WriterLoad? || t.WriterStore? || t.WriterPrint? || t.WriterUnlock? then 1 else 0
  }

  /** Writers that have stored and not printed yet. */
  function Unprinted(): Thread -> nat { (t: Thread) => if t.WriterPrint? then 1 else 0 }

  ghost predicate LockInv(s: State) {
    && s.readers == Sum(Reading(), s.threads)
    && (if s.writing then 1 else 0) == Sum(Writing(), s.threads)
    && (s.writing ==> s.readers == 0)
  }

  ghost predicate ValueInv(s: State) {
    && s.resource == s.complete
    && s.complete == |s.wrote| + Sum(Unprinted(), s.threads)
    && forall i :: 0 <= i < |s.threads| ==> s.threads[i].WriterStore? ==> s.threads[i].loaded == s.resource
  }

  ghost predicate LogInv(s: State) {
    && (forall k :: 0 <= k < |s.read| ==> s.read[k].value == s.read[k].complete <= s.complete)
    && (forall k, l :: 0 <= k < l < |s.read| ==> s.read[k].complete <= s.read[l].complete)
    && (forall k :: 0 <= k < |s.wrote| ==> s.wrote[k] == k + 1)
  }

  ghost predicate Inv(s: State) { LockInv(s) && ValueInv(s) && LogInv(s) }

  lemma Update(s: State, i: nat, t: Thread)
    requires i < |s.threads|
    ensures Sum(Reading(), s.threads[i := t]) + Reading()(s.threads[i]) == Sum(Reading(), s.threads) + Reading()(t)
    ensures Sum(Writing(), s.threads[i := t]) + Writing()(s.threads[i]) == Sum(Writing(), s.threads) + Writing()(t)
    ensures Sum(Unprinted(), s.threads[i := t]) + Unprinted()(s.threads[i])
            == Sum(Unprinted(), s.threads) + Unprinted()(t)
    ensures Reading()(s.threads[i]) <= Sum(Reading(), s.threads)
    ensures Writing()(s.threads[i]) <= Sum(Writing(), s.threads)
  {
    SumUpdate(Reading(), s.threads, i, t);
    SumUpdate(Writing(), s.threads, i, t);
    SumUpdate(Unprinted(), s.threads, i, t);
    SumMember(Reading(), s.threads, i);
    SumMember(Writing(), s.threads, i);
  }

  /** Two different threads are never inside the write section together. */
  lemma WriterAlone(s: State, i: nat, j: nat)
    requires LockInv(s) && i < |s.threads| && j < |s.threads| && i != j
    ensures Writing()(s.threads[i]) + Writing()(s.threads[j]) <= 1
  {
    if i < j { SumPair(Writing(), s.threads, i, j); } else { SumPair(Writing(), s.threads, j, i); }
  }

  /** A writer that has not printed yet is the only one: while any other thread holds the lock, all are printed. */
  lemma UnprintedIsWriting(s: State)
    requires LockInv(s)
    ensures Sum(Unprinted(), s.threads) <= Sum(Writing(), s.threads)
  {
    if Sum(Unprinted(), s.threads) > 0 {
      var i := SumWitness(Unprinted(), s.threads);
      SumMember(Writing(), s.threads, i);
      var rest := s.threads[i := WriterUnlock];
      SumUpdate(Unprinted(), s.threads, i, WriterUnlock);
      if Sum(Unprinted(), rest) > 0 {
        var j := SumWitness(Unprinted(), rest);
        WriterAlone(s, i, j);
        assert false;
      }
    }
  }

  lemma StepLock(s: State, i: nat)
    requires Inv(s)
    ensures LockInv(Step(s, i))
  {
    if i < |s.threads| { Update(s, i, Step(s, i).threads[i]); }
  }

  lemma StepValue(s: State, i: nat)
    requires Inv(s)
    ensures ValueInv(Step(s, i))
  {
    var s' := Step(s, i);
    if i < |s.threads| {
      Update(s, i, s'.threads[i]);
      forall j | 0 <= j < |s.threads| && s'.threads[j].WriterStore? ensures s'.threads[j].loaded == s'.resource {
        if j != i { WriterAlone(s, i, j); }
      }
    }
  }

  lemma StepLog(s: State, i: nat)
    requires Inv(s)
    ensures LogInv(Step(s, i))
  {
    if i < |s.threads| && s.threads[i].WriterPrint? {
      UnprintedIsWriting(s);
      SumMember(Unprinted(), s.threads, i);
    }
  }

  lemma {:induction false} RunInv(s: State, run: seq<nat>)
    requires Start(s)
    ensures Inv(Exec(s, run))
  {
    if run == [] {
      SumUniform(Reading(), s.threads, 0);
      SumUniform(Writing(), s.threads, 0);
      SumUniform(Unprinted(), s.threads, 0);
    } else {
      var prefix := run[..|run| - 1];
      RunInv(s, prefix);
      StepLock(Exec(s, prefix), run[|run| - 1]);
      StepValue(Exec(s, prefix), run[|run| - 1]);
      StepLog(Exec(s, prefix), run[|run| - 1]);
    }
  }

  /** The lock works: a writer inside excludes every other thread. */
  lemma Exclusion(s: State, run: seq<nat>, i: nat, j: nat)
    requires Start(s) && i != j
    requires i < |Exec(s, run).threads| && j < |Exec(s, run).threads|
    requires Writing()(Exec(s, run).threads[i]) == 1
    ensures Writing()(Exec(s, run).threads[j]) == 0 && Reading()(Exec(s, run).threads[j]) == 0
  {
    var e := Exec(s, run);
    RunInv(s, run);
    WriterAlone(e, i, j);
    SumMember(Reading(), e.threads, j);
    SumMember(Writing(), e.threads, i);
  }

  /** No increment is lost: `resource` is the number of completed increments, and no writer's line is missing. */
  lemma NoLostIncrement(s: State, run: seq<nat>)
    requires Start(s)
    ensures Exec(s, run).resource == Exec(s, run).complete
    ensures !Exec(s, run).writing ==> |Exec(s, run).wrote| == Exec(s, run).complete
  {
    RunInv(s, run);
    UnprintedIsWriting(Exec(s, run));
  }

  /** Readers see exactly the increments completed so far, and over time never fewer; writers print 1, 2, 3, ... */
  lemma Output(s: State, run: seq<nat>)
    requires Start(s)
    ensures
      var e := Exec(s, run);
      && (forall k :: 0 <= k < |e.read| ==> e.read[k].value == e.read[k].complete)
      && (forall k, l :: 0 <= k < l < |e.read| ==> e.read[k].value <= e.read[l].value)
      && (forall k :: 0 <= k < |e.wrote| ==> e.wrote[k] == k + 1)
  {
    RunInv(s, run);
  }

  /** A thread can step exactly when its step changes something. */
  lemma EnabledMoves(s: State, i: nat)
    requires i < |s.threads|
    ensures CanStep(s, i) <==> Step(s, i) != s
  {
    assert CanStep(s, i) ==> Step(s, i).threads[i] != s.threads[i];
  }

  /** Some thread can always step. */
  lemma NoDeadlock(s: State, run: seq<nat>) returns (i: nat)
    requires Start(s) && |s.threads| > 0
    ensures i < |Exec(s, run).threads| && CanStep(Exec(s, run), i)
  {
    var e := Exec(s, run);
    RunInv(s, run);
    ThreadsKept(s, run);
    if e.writing {
      i := SumWitness(Writing(), e.threads);
    } else if e.readers > 0 {
      i := SumWitness(Reading(), e.threads);
    } else {
      i := 0;
    }
  }

  lemma {:induction false} ThreadsKept(s: State, run: seq<nat>)
    ensures |Exec(s, run).threads| == |s.threads|
  {
    if run == [] {
    } else {
      ThreadsKept(s, run[..|run| - 1]);
    }
  }
}
