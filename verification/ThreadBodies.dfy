/**
  The bodies of the pthread exercises as code over the shared variables and the lock, run by a thread that
  nobody interrupts.  A call that blocks or sleeps ends the run.  The contracts tie each body to the step
  system: it ends in the state that so many steps of the thread end in, and blocks where the thread does.
*/
module ThreadBodies {
  import RaceCounter
  import HandOff
  import RwLock

  // ---- the shared counter ----

  /** m steps of thread i. */
  function CounterSteps(increments: nat, s: RaceCounter.State, i: nat, m: nat): RaceCounter.State {
    if m == 0 then s else RaceCounter.Step(increments, CounterSteps(increments, s, i, m - 1), RaceCounter.Run(i))
  }

  lemma {:induction false} CounterStepsSplit(increments: nat, s: RaceCounter.State, i: nat, m: nat, n: nat)
    ensures CounterSteps(increments, s, i, m + n) == CounterSteps(increments, CounterSteps(increments, s, i, m), i, n)
  {
    if n == 0 {
    } else {
      CounterStepsSplit(increments, s, i, m, n - 1);
    }
  }

  /** One round of a thread alone: lock, load, store, unlock. */
  lemma ThreadRound(increments: nat, s: RaceCounter.State, i: nat)
    requires i < |s.threads| && !s.main.Exited? && s.mutex.Free? && s.threads[i].pc.Lock?
    ensures
      var d := s.threads[i].done + 1;
      CounterSteps(increments, s, i, 4)
      == s.(counter := s.counter + 1,
            threads := s.threads[i := RaceCounter.Thread(RaceCounter.LoopHead(increments, d), d)])
  {
    var t := s.threads[i];
    var s1 := s.(mutex := RaceCounter.HeldBy(i), threads := s.threads[i := t.(pc := RaceCounter.Load)]);
    var s2 := s1.(threads := s.threads[i := t.(pc := RaceCounter.Store(s.counter))]);
    var s3 := s2.(counter := s.counter + 1, threads := s.threads[i := t.(pc := RaceCounter.Unlock)]);
    assert CounterSteps(increments, s, i, 1) == s1;
    assert CounterSteps(increments, s, i, 2) == s2;
    assert CounterSteps(increments, s, i, 3) == s3;
  }

  /** k rounds of thread i alone: four steps and one increment each. */
  lemma {:induction false} ThreadAlone(increments: nat, s: RaceCounter.State, i: nat, k: nat)
    requires i < |s.threads| && !s.main.Exited? && s.mutex.Free?
    requires s.threads[i].pc == RaceCounter.LoopHead(increments, s.threads[i].done)
    requires s.threads[i].done + k <= increments
    ensures
      var d := s.threads[i].done + k;
      CounterSteps(increments, s, i, 4 * k)
      == s.(counter := s.counter + k,
            threads := s.threads[i := RaceCounter.Thread(RaceCounter.LoopHead(increments, d), d)])
  {
    if k == 0 {
      assert s.threads[i := s.threads[i]] == s.threads;
    } else {
      ThreadAlone(increments, s, i, k - 1);
      ThreadRound(increments, CounterSteps(increments, s, i, 4 * (k - 1)), i);
      CounterStepsSplit(increments, s, i, 4 * (k - 1), 4);
    }
  }

  class SharedCounter {
    var counter: int
    var mutex: RaceCounter.Holder

    ghost predicate Shows(s: RaceCounter.State)
      reads this
    {
      counter == s.counter && mutex == s.mutex
    }

    /** The thread function, called by thread `me`: it returns unless the mutex is taken when it first locks it. */
    method IncrementCounter(ghost s: RaceCounter.State, me: nat, increments: nat) returns (returned: bool)
      requires Shows(s) && me < |s.threads| && !s.main.Exited?
      requires s.threads[me] == RaceCounter.Thread(RaceCounter.LoopHead(increments, 0), 0)
      modifies this
      ensures returned <==> increments == 0 || s.mutex.Free?
      ensures
        var e := CounterSteps(increments, s, me, if returned then 4 * increments else 0);
        Shows(e) && me < |e.threads| && (returned <==> e.threads[me].pc.Returned?)
      ensures returned ==> counter == old(counter) + increments && mutex == old(mutex)
    {
      for i := 0 to increments
        invariant counter == old(counter) + i && mutex == old(mutex) && (i > 0 ==> mutex.Free?)
      {
        if !mutex.Free? { return false; }
        mutex := RaceCounter.HeldBy(me);
        var loaded := counter;
        counter := loaded + 1;
        mutex := RaceCounter.Free;
      }
      if increments > 0 { ThreadAlone(increments, s, me, increments); }
      return true;
    }
  }

  // ---- the hand-off ----

  /** How many steps a consumer makes that nobody else disturbs or helps. */
  function ConsumerSteps(s: HandOff.State, n: nat): nat {
    if n == 0 || s.owner != HandOff.Nobody then 0
    else if !s.ready then 3
    else if n == 1 then 5
    else 8
  }

  /** It falls asleep in its first round, or in the second. */
  lemma Sleeps(vals: seq<int>, s: HandOff.State)
    requires s.c.CLock? && s.owner == HandOff.Nobody && s.j == 0 && (s.ready ==> |vals| > 1)
    ensures
      var e := HandOff.Iterate(vals, s, HandOff.Consume, if s.ready then 8 else 3);
      && e.c.CAsleep? && e.owner == HandOff.Nobody && !e.ready && e.data == s.data
      && e.printed == s.printed + (if s.ready then [s.data] else [])
  {
    if s.ready {
      HandOff.ConsumerRound(vals, s);
      HandOff.ConsumerSleeps(vals, HandOff.Iterate(vals, s, HandOff.Consume, 5));
      HandOff.IterateSplit(vals, s, HandOff.Consume, 5, 3);
    } else {
      HandOff.ConsumerSleeps(vals, s);
    }
  }

  class HandOffCell {
    var data: int
    var dataReady: bool
    var owner: HandOff.Owner
    var asleep: bool

    ghost predicate Shows(s: HandOff.State)
      reads this
    {
      data == s.data && dataReady == s.ready && owner == s.owner && asleep == s.c.CAsleep?
    }

    /** The producer's thread function: it returns unless the mutex is taken when it first locks it. */
    method Producer(ghost s: HandOff.State, vals: seq<int>) returns (returned: bool)
      requires Shows(s) && s.i == 0 && s.p == (if vals == [] then HandOff.PDone else HandOff.PLock)
      modifies this
      ensures returned <==> vals == [] || s.owner == HandOff.Nobody
      ensures
        var e := HandOff.Iterate(vals, s, HandOff.Produce, if returned then 5 * |vals| else 0);
        Shows(e) && (returned <==> e.p.PDone?)
    {
      ghost var e := s;
      for i := 0 to |vals|
        invariant e == HandOff.Iterate(vals, s, HandOff.Produce, 5 * i) && Shows(e)
        invariant e.i == i && e.p == (if i < |vals| then HandOff.PLock else HandOff.PDone)
        invariant owner == old(owner) && (i > 0 ==> owner == HandOff.Nobody)
      {
        if owner != HandOff.Nobody { return false; }
        owner := HandOff.Owner.Producer;
        data := vals[i];
        dataReady := true;
        asleep := false;
        owner := HandOff.Nobody;
        HandOff.ProducerRound(vals, e);
        HandOff.IterateSplit(vals, s, HandOff.Produce, 5 * i, 5);
        e := HandOff.Iterate(vals, e, HandOff.Produce, 5);
      }
      return true;
    }

    /**
      The consumer's thread function, for as many values as `vals` has, while `wakeUps` spurious wake-ups come.
      It ends when it returns, when the mutex is taken, or asleep.
    */
    method Consumer(ghost s: HandOff.State, vals: seq<int>, wakeUps: nat) returns (returned: bool, printed: seq<int>)
      requires Shows(s) && s.j == 0 && s.c == (if vals == [] then HandOff.CDone else HandOff.CLock)
      modifies this
      ensures printed == if vals != [] && s.owner == HandOff.Nobody && s.ready then [s.data] else []
      ensures
        var e := HandOff.Iterate(vals, s, HandOff.Consume, ConsumerSteps(s, |vals|));
        && Shows(e) && e.printed == s.printed + printed
        && (returned <==> e.c.CDone?) && !HandOff.CanConsume(e)
    {
      if vals != [] && s.owner == HandOff.Nobody && s.ready { HandOff.ConsumerRound(vals, s); }
      printed := [];
      for j := 0 to |vals|
        invariant data == s.data
        invariant j == 0 ==> printed == [] && Shows(s)
        invariant j > 0 ==>
          && j == 1 && s.owner == HandOff.Nobody && s.ready && printed == [s.data]
          && Shows(HandOff.Iterate(vals, s, HandOff.Consume, 5)) && !dataReady && owner == HandOff.Nobody && !asleep
      {
        if owner != HandOff.Nobody { return false, printed; }
        owner := HandOff.Owner.Consumer;
        var left := wakeUps;
        while !dataReady
          invariant owner == HandOff.Owner.Consumer && !asleep && 0 <= left
          invariant data == s.data && (dataReady <==> j == 0 && s.ready)
          decreases left
        {
          owner, asleep := HandOff.Nobody, true;
          if left == 0 {
            Sleeps(vals, s);
            return false, printed;
          }
          left := left - 1;
          owner, asleep := HandOff.Owner.Consumer, false;
        }
        printed := printed + [data];
        dataReady := false;
        owner := HandOff.Nobody;
      }
      return true, printed;
    }
  }

  // ---- the read-write lock ----

  /** m steps of thread i. */
  function LockSteps(s: RwLock.State, i: nat, m: nat): RwLock.State {
    if m == 0 then s else RwLock.Step(LockSteps(s, i, m - 1), i)
  }

  lemma {:induction false} LockStepsSplit(s: RwLock.State, i: nat, m: nat, n: nat)
    ensures LockSteps(s, i, m + n) == LockSteps(LockSteps(s, i, m), i, n)
  {
    if n == 0 {
    } else {
      LockStepsSplit(s, i, m, n - 1);
    }
  }

  /** A reader that gets the lock and is not interrupted: one line with the current value, the lock free again. */
  lemma ReaderRound(s: RwLock.State, i: nat)
    requires i < |s.threads| && s.threads[i].ReaderOut? && !s.writing
    ensures LockSteps(s, i, 3) == s.(read := s.read + [RwLock.Observation(i, s.resource, s.complete)])
  {
    var s1 := s.(readers := s.readers + 1, threads := s.threads[i := RwLock.ReaderRead]);
    var s2 := s1.(read := s.read + [RwLock.Observation(i, s.resource, s.complete)],
                  threads := s.threads[i := RwLock.ReaderUnlock]);
    assert LockSteps(s, i, 1) == s1;
    assert LockSteps(s, i, 2) == s2;
    assert s2.threads[i := RwLock.ReaderOut] == s.threads;
  }

  /** A writer: one increment, one line, the lock free again. */
  lemma WriterRound(s: RwLock.State, i: nat)
    requires i < |s.threads| && s.threads[i].WriterOut? && !s.writing && s.readers == 0
    ensures
      LockSteps(s, i, 5)
      == s.(resource := s.resource + 1, complete := s.complete + 1, wrote := s.wrote + [s.resource + 1])
  {
    var s1 := s.(writing := true, threads := s.threads[i := RwLock.WriterLoad]);
    var s2 := s1.(threads := s.threads[i := RwLock.WriterStore(s.resource)]);
    var s3 := s2.(resource := s.resource + 1, complete := s.complete + 1,
                  threads := s.threads[i := RwLock.WriterPrint]);
    var s4 := s3.(wrote := s.wrote + [s.resource + 1], threads := s.threads[i := RwLock.WriterUnlock]);
    assert LockSteps(s, i, 1) == s1;
    assert LockSteps(s, i, 2) == s2;
    assert LockSteps(s, i, 3) == s3;
    assert LockSteps(s, i, 4) == s4;
    assert s4.threads[i := RwLock.WriterOut] == s.threads;
  }

  /** k times the same log entry. */
  function Repeated(o: RwLock.Observation, k: nat): seq<RwLock.Observation> { seq(k, _ => o) }

  /** The k numbers after n. */
  function After(n: int, k: nat): seq<int> { seq(k, j => n + j + 1) }

  lemma AfterGrows(lines: seq<int>, n: int, k: nat)
    ensures lines + After(n, k) + [n + k + 1] == lines + After(n, k + 1)
  {
    assert After(n, k + 1) == After(n, k) + [n + k + 1];
  }

  /** k rounds of a reader alone. */
  lemma {:induction false} ReaderAlone(s: RwLock.State, i: nat, k: nat)
    requires i < |s.threads| && s.threads[i].ReaderOut? && !s.writing
    ensures LockSteps(s, i, 3 * k)
            == s.(read := s.read + Repeated(RwLock.Observation(i, s.resource, s.complete), k))
  {
    var o := RwLock.Observation(i, s.resource, s.complete);
    if k == 0 {
      assert s.read + Repeated(o, 0) == s.read;
    } else {
      ReaderAlone(s, i, k - 1);
      ReaderRound(LockSteps(s, i, 3 * (k - 1)), i);
      LockStepsSplit(s, i, 3 * (k - 1), 3);
      assert s.read + Repeated(o, k - 1) + [o] == s.read + Repeated(o, k);
    }
  }

  lemma WriterRoundAfter(s: RwLock.State, e: RwLock.State, i: nat, m: nat)
    requires e == LockSteps(s, i, m)
    requires i < |e.threads| && e.threads[i].WriterOut? && !e.writing && e.readers == 0
    ensures
      LockSteps(s, i, m + 5)
      == e.(resource := e.resource + 1, complete := e.complete + 1, wrote := e.wrote + [e.resource + 1])
  {
    WriterRound(e, i);
    LockStepsSplit(s, i, m, 5);
  }

  /** k rounds of a writer alone. */
  lemma {:induction false} WriterAlone(s: RwLock.State, i: nat, k: nat)
    requires i < |s.threads| && s.threads[i].WriterOut? && !s.writing && s.readers == 0
    ensures LockSteps(s, i, 5 * k)
            == s.(resource := s.resource + k, complete := s.complete + k, wrote := s.wrote + After(s.resource, k))
  {
    if k == 0 {
      assert s.wrote + After(s.resource, 0) == s.wrote;
    } else {
      WriterAlone(s, i, k - 1);
      WriterRoundAfter(s, LockSteps(s, i, 5 * (k - 1)), i, 5 * (k - 1));
      AfterGrows(s.wrote, s.resource, k - 1);
    }
  }

  class Resource {
    var resource: int
    var readers: nat
    var writing: bool

    ghost predicate Shows(s: RwLock.State)
      reads this
    {
      resource == s.resource && readers == s.readers && writing == s.writing
    }

    /** So many rounds of a reader's endless loop, unless the lock is refused at the first. */
    method Reader(ghost s: RwLock.State, me: nat, rounds: nat) returns (granted: bool, lines: seq<int>)
      requires Shows(s) && me < |s.threads| && s.threads[me].ReaderOut?
      modifies this
      ensures granted <==> rounds == 0 || !s.writing
      ensures |lines| == if granted then rounds else 0
      ensures
        var e := LockSteps(s, me, 3 * |lines|);
        && Shows(e) && |e.read| == |s.read| + |lines| && s.read <= e.read
        && forall k :: 0 <= k < |lines| ==>
             e.read[|s.read| + k] == RwLock.Observation(me, lines[k], s.complete) && lines[k] == s.resource
    {
      lines := [];
      for i := 0 to rounds
        invariant Shows(s) && |lines| == i && forall k :: 0 <= k < i ==> lines[k] == s.resource
        invariant i > 0 ==> !s.writing
      {
        if writing { return false, lines; }
        readers := readers + 1;
        lines := lines + [resource];
        readers := readers - 1;
      }
      if rounds > 0 { ReaderAlone(s, me, rounds); }
      return true, lines;
    }

    /** So many rounds of a writer's. */
    method Writer(ghost s: RwLock.State, me: nat, rounds: nat) returns (granted: bool, lines: seq<int>)
      requires Shows(s) && me < |s.threads| && s.threads[me].WriterOut?
      modifies this
      ensures granted <==> rounds == 0 || (!s.writing && s.readers == 0)
      ensures lines == After(s.resource, if granted then rounds else 0)
      ensures
        var e := LockSteps(s, me, 5 * |lines|);
        Shows(e) && e.wrote == s.wrote + lines
    {
      lines := [];
      for i := 0 to rounds
        invariant resource == s.resource + i && readers == s.readers && writing == s.writing
        invariant lines == After(s.resource, i) && (i > 0 ==> !writing && readers == 0)
      {
        if writing || readers > 0 { return false, lines; }
        writing := true;
        var loaded := resource;
        resource := loaded + 1;
        lines := lines + [resource];
        writing := false;
      }
      if rounds > 0 { WriterAlone(s, me, rounds); }
      return true, lines;
    }
  }
}
