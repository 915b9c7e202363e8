/** The slot array refines the bounded map, and what follows for every run of requests. */
module PeerTableProofs {
  import opened Counting
  import opened PeerTables

  // ---- the map and the slots ----

  lemma {:induction false} BookHas(xs: seq<Entry>, i: nat)
    requires DistinctIds(xs) && i < |xs| && xs[i].active
    ensures xs[i].id in Book(xs) && Book(xs)[xs[i].id] == ConnOf(xs[i])
  {
    if i == |xs| - 1 {
    } else {
      BookHas(xs[..|xs| - 1], i);
    }
  }

  lemma {:induction false} BookFrom(xs: seq<Entry>, id: int) returns (i: nat)
    requires DistinctIds(xs) && id in Book(xs)
    ensures i < |xs| && xs[i].active && xs[i].id == id && ConnOf(xs[i]) == Book(xs)[id]
  {
    var n := |xs| - 1;
    if xs[n].active && xs[n].id == id { i := n; } else { i := BookFrom(xs[..n], id); }
  }

  /** First match by id is lookup in the map. */
  lemma FirstIsLookup(xs: seq<Entry>, id: int)
    requires DistinctIds(xs)
    ensures
      var k := First(Named(id), xs);
      && (id in Book(xs) <==> k < |xs|)
      && (k < |xs| ==> xs[k].active && xs[k].id == id && Book(xs)[id] == ConnOf(xs[k]))
  {
    var k := First(Named(id), xs);
    if k < |xs| { BookHas(xs, k); }
    if id in Book(xs) {
      var i := BookFrom(xs, id);
      assert Named(id)(xs[i]);
    }
  }

  lemma {:induction false} BookSize(xs: seq<Entry>)
    requires DistinctIds(xs)
    ensures |Book(xs)| == Sum(Active(), xs)
  {
    if xs == [] {
    } else {
      var n := |xs| - 1;
      BookSize(xs[..n]);
      if xs[n].active && xs[n].id in Book(xs[..n]) {
        var i := BookFrom(xs[..n], xs[n].id);
        assert false;
      }
    }
  }

  lemma {:induction false} BookRemove(xs: seq<Entry>, k: nat)
    requires DistinctIds(xs) && k < |xs| && xs[k].active
    ensures Book(xs[k := xs[k].(active := false)]) == Book(xs) - {xs[k].id}
  {
    var n := |xs| - 1;
    var ys := xs[k := xs[k].(active := false)];
    if k == n {
      assert ys[..n] == xs[..n];
      if xs[n].id in Book(xs[..n]) {
        var i := BookFrom(xs[..n], xs[n].id);
        assert false;
      }
    } else {
      assert ys[..n] == xs[..n][k := xs[k].(active := false)];
      BookRemove(xs[..n], k);
    }
  }

  lemma {:induction false} BookInsert(xs: seq<Entry>, k: nat, e: Entry)
    requires DistinctIds(xs) && k < |xs| && !xs[k].active && e.active
    requires forall i :: 0 <= i < |xs| && xs[i].active ==> xs[i].id != e.id
    ensures Book(xs[k := e]) == Book(xs)[e.id := ConnOf(e)]
  {
    var n := |xs| - 1;
    if k == n {
      assert xs[k := e][..n] == xs[..n];
    } else {
      assert xs[k := e][..n] == xs[..n][k := e];
      BookInsert(xs[..n], k, e);
    }
  }

  lemma {:induction false} BookEmpty(xs: seq<Entry>)
    requires forall i :: 0 <= i < |xs| ==> !xs[i].active
    ensures Book(xs) == map[]
  {
    if xs == [] {
    } else {
      BookEmpty(xs[..|xs| - 1]);
    }
  }

  lemma {:induction false} RowsAreTheBook(xs: seq<Entry>)
    requires DistinctIds(xs)
    ensures |Rows(xs)| == |Closings(xs)| == Sum(Active(), xs)
    ensures forall id :: id in Book(xs) ==> Row(id, Book(xs)[id].ip, Book(xs)[id].port) in Rows(xs)
  {
    if xs == [] {
    } else {
      RowsAreTheBook(xs[..|xs| - 1]);
    }
  }

  lemma HavingInsert(m: map<int, Conn>, id: int, e: Conn, c: Closed)
    requires id !in m
    ensures |Having(m[id := e], c)| == |Having(m, c)| + (if Closed(e.sockfd, e.tid) == c then 1 else 0)
  {
    if Closed(e.sockfd, e.tid) == c {
      assert Having(m[id := e], c) == Having(m, c) + {id};
    } else {
      assert Having(m[id := e], c) == Having(m, c);
    }
  }

  /** Each socket is closed, with its thread cancelled, once for every connection that has them. */
  lemma {:induction false} ClosingsAreTheBook(xs: seq<Entry>, c: Closed)
    requires DistinctIds(xs)
    ensures multiset(Closings(xs))[c] == |Having(Book(xs), c)|
  {
    if xs == [] {
      assert Having(Book(xs), c) == {};
    } else {
      var n := |xs| - 1;
      ClosingsAreTheBook(xs[..n], c);
      if xs[n].active {
        if xs[n].id in Book(xs[..n]) {
          var i := BookFrom(xs[..n], xs[n].id);
          assert false;
        }
        HavingInsert(Book(xs[..n]), xs[n].id, ConnOf(xs[n]), c);
      }
    }
  }

  /** Rows and closings come in slot order: what an active slot contributes stands after the active slots below it. */
  lemma {:induction false} InSlotOrder(xs: seq<Entry>, i: nat)
    requires i < |xs| && xs[i].active
    ensures
      var k := Sum(Active(), xs[..i]);
      && k < |Rows(xs)| == |Closings(xs)| == Sum(Active(), xs)
      && Rows(xs)[k] == Row(xs[i].id, xs[i].ip, xs[i].port)
      && Closings(xs)[k] == Closed(xs[i].sockfd, xs[i].tid)
  {
    var n := |xs| - 1;
    ListLengths(xs[..n]);
    if i == n {
    } else {
      assert xs[..n][..i] == xs[..i];
      InSlotOrder(xs[..n], i);
    }
  }

  lemma {:induction false} ListLengths(xs: seq<Entry>)
    ensures |Rows(xs)| == |Closings(xs)| == Sum(Active(), xs)
  {
    if xs == [] {
    } else {
      ListLengths(xs[..|xs| - 1]);
    }
  }

  lemma SweepRefines(t: Table)
    requires Valid(t)
    ensures var (t', reply) := Serve(t, Sweep); BookStep(Book(t.slots), t.next, Sweep, reply, Book(t'.slots), t'.next)
  {
    RowsAreTheBook(t.slots);
    BookSize(t.slots);
    BookEmpty(ClearAll(t.slots));
    forall c ensures multiset(Closings(t.slots))[c] == |Having(Book(t.slots), c)| {
      ClosingsAreTheBook(t.slots, c);
    }
  }

  lemma FullMeansNoFreeSlot(t: Table)
    requires Valid(t)
    ensures |Book(t.slots)| <= MAX_PEERS
    ensures |Book(t.slots)| == MAX_PEERS <==> First(Free(), t.slots) == |t.slots|
  {
    var k := First(Free(), t.slots);
    BookSize(t.slots);
    SumBound(Active(), t.slots, 1);
    if k == |t.slots| {
      assert forall j :: 0 <= j < |t.slots| ==> !Free()(t.slots[j]);
      SumUniform(Active(), t.slots, 1);
    } else {
      var e := t.slots[k].(active := true);
      SumUpdate(Active(), t.slots, k, e);
      SumBound(Active(), t.slots[k := e], 1);
    }
  }

  // ---- refinement ----

  lemma ServeValid(t: Table, r: Request)
    requires Valid(t)
    ensures Valid(Serve(t, r).0)
  {
  }

  lemma AddRefines(t: Table, r: Request)
    requires Valid(t) && r.Add?
    ensures var (t', reply) := Serve(t, r); BookStep(Book(t.slots), t.next, r, reply, Book(t'.slots), t'.next)
  {
    var k := First(Free(), t.slots);
    FullMeansNoFreeSlot(t);
    if t.next in Book(t.slots) {
      var i := BookFrom(t.slots, t.next);
      assert false;
    }
    if k < |t.slots| && t.next < INT_MAX {
      BookInsert(t.slots, k, Entry(t.next, r.sockfd, Clip(r.ip), r.port, r.tid, true));
    }
  }

  /** An accepted add fills the lowest inactive slot and changes no other. */
  lemma AddTakesLowestSlot(t: Table, r: Request) returns (k: nat)
    requires r.Add? && Serve(t, r).1.Added?
    ensures k < |t.slots| && !t.slots[k].active && forall j :: 0 <= j < k ==> t.slots[j].active
    ensures Serve(t, r).0.slots == t.slots[k := Entry(t.next, r.sockfd, Clip(r.ip), r.port, r.tid, true)]
  {
    k := First(Free(), t.slots);
    assert forall j :: 0 <= j < k ==> !Free()(t.slots[j]);
  }

  lemma HangUpRefines(t: Table, r: Request)
    requires Valid(t) && r.HangUp?
    ensures var (t', reply) := Serve(t, r); BookStep(Book(t.slots), t.next, r, reply, Book(t'.slots), t'.next)
  {
    var m := Book(t.slots);
    var k := First(OnSocket(r.sockfd), t.slots);
    if k < |t.slots| {
      BookHas(t.slots, k);
      BookRemove(t.slots, k);
      var id := t.slots[k].id;
      assert id in m && m[id].sockfd == r.sockfd && Book(Clear(t, k).slots) == m - {id};
    } else {
      forall id | id in m ensures m[id].sockfd != r.sockfd {
        var i := BookFrom(t.slots, id);
        assert !OnSocket(r.sockfd)(t.slots[i]);
      }
    }
  }

  /** Every request does to the slots exactly what it does to the map, and returns the same. */
  lemma ServeRefines(t: Table, r: Request)
    requires Valid(t)
    ensures var (t', reply) := Serve(t, r); BookStep(Book(t.slots), t.next, r, reply, Book(t'.slots), t'.next)
    ensures Serve(t, r).0.running <==> t.running && !r.Stop?
    ensures r.Poll? ==> Serve(t, r).1 == Polled(t.running)
  {
    match r
    case Add(_, _, _, _) => AddRefines(t, r);
    case Disconnect(id) =>
      FirstIsLookup(t.slots, id);
      var k := First(Named(id), t.slots);
      if k < |t.slots| { BookRemove(t.slots, k); }
    case HangUp(_) => HangUpRefines(t, r);
    case Send(id) => FirstIsLookup(t.slots, id);
    case List => RowsAreTheBook(t.slots); BookSize(t.slots);
    case Poll =>
    case Stop =>
    case Sweep => SweepRefines(t);
  }

  lemma {:induction false} RunValid(run: seq<Request>)
    ensures Valid(Exec(SetUp(), run))
  {
    if run == [] {
    } else {
      RunValid(run[..|run| - 1]);
      ServeValid(Exec(SetUp(), run[..|run| - 1]), run[|run| - 1]);
    }
  }

  /** The whole run refines a run of the map, from the empty map on, and the map never outgrows MAX_PEERS. */
  lemma RunRefines(run: seq<Request>, k: nat)
    requires k < |run|
    ensures Book(SetUp().slots) == map[]
    ensures
      var t, t' := Exec(SetUp(), run[..k]), Exec(SetUp(), run[..k + 1]);
      && |Book(t.slots)| <= MAX_PEERS
      && BookStep(Book(t.slots), t.next, run[k], ReplyTo(SetUp(), run, k), Book(t'.slots), t'.next)
  {
    BookEmpty(SetUp().slots);
    RunValid(run[..k]);
    FullMeansNoFreeSlot(Exec(SetUp(), run[..k]));
    ServeRefines(Exec(SetUp(), run[..k]), run[k]);
    assert run[..k + 1][..k] == run[..k];
  }

  /** The application runs until the first Stop, and for ever after it every poll of the listener says so. */
  lemma {:induction false} RunningUntilStop(run: seq<Request>)
    ensures Exec(SetUp(), run).running <==> Stop !in run
    ensures forall k :: 0 <= k < |run| && run[k].Poll? ==> ReplyTo(SetUp(), run, k) == Polled(Stop !in run[..k])
  {
    if run == [] {
    } else {
      var n := |run| - 1;
      RunningUntilStop(run[..n]);
      RunValid(run[..n]);
      ServeRefines(Exec(SetUp(), run[..n]), run[n]);
      assert run == run[..n] + [run[n]];
      forall k | 0 <= k < n && run[k].Poll? ensures ReplyTo(SetUp(), run, k) == Polled(Stop !in run[..k]) {
        assert run[..n][..k] == run[..k];
        assert ReplyTo(SetUp(), run[..n], k) == ReplyTo(SetUp(), run, k);
      }
    }
  }

  // ---- ids ----

  lemma ExecAppend(t: Table, run: seq<Request>, r: Request)
    ensures Exec(t, run + [r]) == Serve(Exec(t, run), r).0
  {
    assert (run + [r])[..|run|] == run;
  }

  /** The ids returned by successful adds, in order. */
  function AddedIds(t: Table, run: seq<Request>): seq<int> {
    if run == [] then []
    else
      var n := |run| - 1;
      AddedIds(t, run[..n])
      + (match Serve(Exec(t, run[..n]), run[n]).1 case Added(id) => [id] case _ => [])
  }

  lemma ServeCounts(t: Table, r: Request)
    ensures
      var (t', reply) := Serve(t, r);
      t'.next == t.next + (if reply.Added? then 1 else 0) && (reply.Added? ==> reply.id == t.next)
  {
  }

  /** The k-th successful add of a run returns k, and the counter never passes INT_MAX. */
  lemma {:induction false} IdsInOrder(run: seq<Request>)
    ensures
      var ids := AddedIds(SetUp(), run);
      && Exec(SetUp(), run).next == |ids| + 1 <= INT_MAX
      && forall k :: 0 <= k < |ids| ==> ids[k] == k + 1
  {
    RunValid(run);
    if run == [] {
    } else {
      var n := |run| - 1;
      IdsInOrder(run[..n]);
      ServeCounts(Exec(SetUp(), run[..n]), run[n]);
    }
  }

  lemma ServeKeepsGone(t: Table, r: Request, id: int)
    requires Valid(t) && id < t.next && id !in Book(t.slots)
    ensures id !in Book(Serve(t, r).0.slots) && id < Serve(t, r).0.next
  {
    ServeRefines(t, r);
  }

  lemma {:induction false} GoneStaysGone(run: seq<Request>, more: seq<Request>, id: int)
    requires id < Exec(SetUp(), run).next && id !in Book(Exec(SetUp(), run).slots)
    ensures id !in Book(Exec(SetUp(), run + more).slots) && id < Exec(SetUp(), run + more).next
  {
    if more == [] {
      assert run + more == run;
    } else {
      var n := |more| - 1;
      assert run + more == run + more[..n] + [more[n]];
      ExecAppend(SetUp(), run + more[..n], more[n]);
      GoneStaysGone(run, more[..n], id);
      RunValid(run + more[..n]);
      ServeKeepsGone(Exec(SetUp(), run + more[..n]), more[n], id);
    }
  }

  /** An id that was handed out and is gone never names another peer: no later request finds it. */
  lemma IdsNeverReused(run: seq<Request>, more: seq<Request>, id: int)
    requires 1 <= id < Exec(SetUp(), run).next && id !in Book(Exec(SetUp(), run).slots)
    ensures
      var t := Exec(SetUp(), run + more);
      && id !in Book(t.slots)
      && Serve(t, Send(id)).1 == NotFound && Serve(t, Disconnect(id)).1 == NotFound
  {
    GoneStaysGone(run, more, id);
    RunValid(run + more);
    FirstIsLookup(Exec(SetUp(), run + more).slots, id);
  }

  // ---- conservation ----

  function Ended(r: Reply): nat {
    match r
    case Disconnected(_, _) => 1
    case HungUp(found) => if found then 1 else 0
    case Swept(closed) => |closed|
    case _ => 0
  }

  function Deactivations(t: Table, run: seq<Request>): nat {
    if run == [] then 0
    else var n := |run| - 1; Deactivations(t, run[..n]) + Ended(Serve(Exec(t, run[..n]), run[n]).1)
  }

  lemma RemoveSize(m: map<int, Conn>, id: int)
    ensures |m - {id}| + (if id in m then 1 else 0) == |m|
  {
    var m' := m - {id};
    assert m'.Keys == m.Keys - {id};
    assert |m'| == |m'.Keys| && |m| == |m.Keys|;
  }

  lemma InsertSize(m: map<int, Conn>, id: int, c: Conn)
    requires id !in m
    ensures |m[id := c]| == |m| + 1
  {
    assert m[id := c] - {id} == m;
    RemoveSize(m[id := c], id);
  }

  lemma AddConserves(m: map<int, Conn>, next: int, r: Request, reply: Reply, m': map<int, Conn>, next': int)
    requires r.Add? && BookStep(m, next, r, reply, m', next')
    ensures |m'| + Ended(reply) == |m| + (if reply.Added? then 1 else 0)
  {
    if reply.Added? { InsertSize(m, next, Conn(r.sockfd, Clip(r.ip), r.port, r.tid)); }
  }

  lemma DisconnectConserves(
    m: map<int, Conn>, next: int, r: Request, reply: Reply, m': map<int, Conn>, next': int)
    requires r.Disconnect? && BookStep(m, next, r, reply, m', next')
    ensures !reply.Added? && |m'| + Ended(reply) == |m|
  {
    RemoveSize(m, r.id);
  }

  lemma OneGone(m: map<int, Conn>, m': map<int, Conn>, fd: int)
    requires exists id :: id in m && m[id].sockfd == fd && m' == m - {id}
    ensures |m'| + 1 == |m|
  {
    var id :| id in m && m[id].sockfd == fd && m' == m - {id};
    RemoveSize(m, id);
  }

  lemma HangUpConserves(m: map<int, Conn>, next: int, r: Request, reply: Reply, m': map<int, Conn>, next': int)
    requires r.HangUp? && BookStep(m, next, r, reply, m', next')
    ensures |m'| + Ended(reply) == |m|
  {
    if reply == HungUp(true) { OneGone(m, m', r.sockfd); }
  }

  lemma StepConserves(m: map<int, Conn>, next: int, r: Request, reply: Reply, m': map<int, Conn>, next': int)
    requires BookStep(m, next, r, reply, m', next')
    ensures |m'| + Ended(reply) == |m| + (if reply.Added? then 1 else 0)
  {
    if r.Add? {
      AddConserves(m, next, r, reply, m', next');
    } else if r.Disconnect? {
      DisconnectConserves(m, next, r, reply, m', next');
    } else if r.HangUp? {
      HangUpConserves(m, next, r, reply, m', next');
    }
  }

  lemma ServeConserves(t: Table, r: Request)
    requires Valid(t)
    ensures
      var (t', reply) := Serve(t, r);
      |Book(t'.slots)| + Ended(reply) == |Book(t.slots)| + (if reply.Added? then 1 else 0)
  {
    var (t', reply) := Serve(t, r);
    ServeRefines(t, r);
    StepConserves(Book(t.slots), t.next, r, reply, Book(t'.slots), t'.next);
  }

  /** Connections added, less connections ended, are the connections in the book. */
  lemma {:induction false} Conservation(run: seq<Request>)
    ensures |AddedIds(SetUp(), run)| == Deactivations(SetUp(), run) + |Book(Exec(SetUp(), run).slots)|
  {
    if run == [] {
      BookEmpty(SetUp().slots);
    } else {
      var n := |run| - 1;
      Conservation(run[..n]);
      RunValid(run[..n]);
      ServeConserves(Exec(SetUp(), run[..n]), run[n]);
    }
  }

  // ---- sockets ----

  ghost predicate DistinctSockets(xs: seq<Entry>) {
    forall i, j :: 0 <= i < j < |xs| && xs[i].active && xs[j].active ==> xs[i].sockfd != xs[j].sockfd
  }

  predicate SocketFree(xs: seq<Entry>, fd: int) { First(OnSocket(fd), xs) == |xs| }

  /**
    Every accepted add names a socket that no active entry has.  The kernel does not promise this: an entry
    registered after its handler has already hung up stays active on a closed descriptor, and the number can
    be handed out again.
  */
  ghost predicate FreshSockets(t: Table, run: seq<Request>) {
    run != [] ==>
      var before, r := run[..|run| - 1], run[|run| - 1];
      && FreshSockets(t, before)
      && (r.Add? && Serve(Exec(t, before), r).1.Added? ==> SocketFree(Exec(t, before).slots, r.sockfd))
  }

  /** After every prefix of the run the active sockets are pairwise distinct. */
  ghost predicate AlwaysDistinct(t: Table, run: seq<Request>) {
    && DistinctSockets(Exec(t, run).slots)
    && (run != [] ==> AlwaysDistinct(t, run[..|run| - 1]))
  }

  lemma FreeMeansUnused(xs: seq<Entry>, fd: int)
    ensures SocketFree(xs, fd) <==> forall i :: 0 <= i < |xs| && xs[i].active ==> xs[i].sockfd != fd
  {
    assert forall i :: 0 <= i < |xs| ==> (OnSocket(fd)(xs[i]) <==> xs[i].active && xs[i].sockfd == fd);
  }

  /** One request keeps the active sockets distinct exactly if it is no accepted add on a socket in use. */
  lemma ServeKeepsSockets(t: Table, r: Request)
    requires DistinctSockets(t.slots)
    ensures
      var (t', reply) := Serve(t, r);
      DistinctSockets(t'.slots) <==> (r.Add? && reply.Added? ==> SocketFree(t.slots, r.sockfd))
  {
    var (t', reply) := Serve(t, r);
    if r.Add? && reply.Added? {
      FreeMeansUnused(t.slots, r.sockfd);
      var k := First(Free(), t.slots);
      assert t'.slots[k].active && t'.slots[k].sockfd == r.sockfd;
      assert forall i :: 0 <= i < |t.slots| && i != k ==> t'.slots[i] == t.slots[i];
    }
  }

  /** The active sockets are distinct throughout a run exactly if every accepted add found its socket unused. */
  lemma {:induction false} SocketsStayDistinct(run: seq<Request>)
    ensures AlwaysDistinct(SetUp(), run) <==> FreshSockets(SetUp(), run)
  {
    if run == [] {
      assert DistinctSockets(SetUp().slots);
    } else {
      var before := run[..|run| - 1];
      SocketsStayDistinct(before);
      if AlwaysDistinct(SetUp(), before) { ServeKeepsSockets(Exec(SetUp(), before), run[|run| - 1]); }
    }
  }

  lemma TwoAdds(t: Table, a: Request, b: Request)
    requires Valid(t) && t.next == 1 && Book(t.slots) == map[] && a.Add? && b.Add? && a.sockfd == b.sockfd
    requires forall i :: 0 <= i < |t.slots| ==> !t.slots[i].active
    ensures
      var t2 := Serve(Serve(t, a).0, b).0;
      var second := Conn(b.sockfd, Clip(b.ip), b.port, b.tid);
      && Book(t2.slots) == map[1 := Conn(a.sockfd, Clip(a.ip), a.port, a.tid), 2 := second]
      && !DistinctSockets(t2.slots)
      && Book(Serve(t2, HangUp(a.sockfd)).0.slots) == map[2 := second]
  {
    var t1 := Serve(t, a).0;
    var t2 := Serve(t1, b).0;
    ServeValid(t, a);
    ServeValid(t1, b);
    assert Free()(t.slots[0]);
    assert t1.slots == t.slots[0 := Entry(1, a.sockfd, Clip(a.ip), a.port, a.tid, true)] && t1.next == 2;
    assert Free()(t1.slots[1]) && !Free()(t1.slots[0]);
    assert t2.slots == t1.slots[1 := Entry(2, b.sockfd, Clip(b.ip), b.port, b.tid, true)];
    BookInsert(t.slots, 0, t1.slots[0]);
    BookInsert(t1.slots, 1, t2.slots[1]);
    assert OnSocket(a.sockfd)(t2.slots[0]);
    BookRemove(t2.slots, 0);
  }

  lemma ExecThree(t: Table, a: Request, b: Request, c: Request)
    ensures Exec(t, [a, b, c]) == Serve(Serve(Serve(t, a).0, b).0, c).0
  {
    assert [a, b, c][..2] == [a, b] && [a, b][..1] == [a] && [a][..0] == [];
    assert Exec(t, [a]) == Serve(t, a).0;
    assert Exec(t, [a, b]) == Serve(Exec(t, [a]), b).0;
  }

  /**
    A run in which two active entries share a socket.  The first peer has hung up before it is registered, so
    its entry stays; its descriptor is used again for the second peer.  When the second handler hangs up it
    ends the first peer's entry and leaves its own.
  */
  lemma StaleEntry(fd: int, ip: string, port: int, tid: int, ip': string, port': int, tid': int)
    ensures
      var t := Exec(SetUp(), [HangUp(fd), Add(fd, ip, port, tid), Add(fd, ip', port', tid')]);
      && Book(t.slots) == map[1 := Conn(fd, Clip(ip), port, tid), 2 := Conn(fd, Clip(ip'), port', tid')]
      && !DistinctSockets(t.slots)
      && Book(Serve(t, HangUp(fd)).0.slots) == map[2 := Conn(fd, Clip(ip'), port', tid')]
  {
    ExecThree(SetUp(), HangUp(fd), Add(fd, ip, port, tid), Add(fd, ip', port', tid'));
    RunValid([]);
    FreeMeansUnused(SetUp().slots, fd);
    assert Serve(SetUp(), HangUp(fd)).0 == SetUp();
    BookEmpty(SetUp().slots);
    TwoAdds(SetUp(), Add(fd, ip, port, tid), Add(fd, ip', port', tid'));
  }

  /** Only entry `id` can be active on socket fd. */
  ghost predicate OnlyOn(xs: seq<Entry>, fd: int, id: int) {
    forall i :: 0 <= i < |xs| && xs[i].active && xs[i].sockfd == fd ==> xs[i].id == id
  }

  lemma ServeKeepsOwner(t: Table, r: Request, fd: int, id: int)
    requires OnlyOn(t.slots, fd, id) && (r.Add? ==> r.sockfd != fd)
    ensures OnlyOn(Serve(t, r).0.slots, fd, id)
  {
    var xs, ys := t.slots, Serve(t, r).0.slots;
    assert |ys| == |xs|;
    assert forall i :: 0 <= i < |xs| ==>
      ys[i].active && ys[i].sockfd == fd ==> xs[i].active && xs[i].sockfd == fd && ys[i].id == xs[i].id;
  }

  lemma {:induction false} SocketKeepsOwner(run: seq<Request>, more: seq<Request>, fd: int, id: int)
    requires OnlyOn(Exec(SetUp(), run).slots, fd, id)
    requires forall k :: 0 <= k < |more| && more[k].Add? ==> more[k].sockfd != fd
    ensures OnlyOn(Exec(SetUp(), run + more).slots, fd, id)
  {
    if more == [] {
      assert run + more == run;
    } else {
      var n := |more| - 1;
      assert run + more == run + more[..n] + [more[n]];
      ExecAppend(SetUp(), run + more[..n], more[n]);
      SocketKeepsOwner(run, more[..n], fd, id);
      ServeKeepsOwner(Exec(SetUp(), run + more[..n]), more[n], fd, id);
    }
  }

  /**
    What a handler's critical section does to its own entry `id` on socket fd, with no assumption on the other
    entries.  It removes exactly that entry if and only if no lower slot is active on fd; when the entry is
    gone it does nothing if and only if no slot is active on fd.
  */
  lemma HangUpExact(t: Table, fd: int, id: int)
    requires Valid(t)
    requires id in Book(t.slots) ==> Book(t.slots)[id].sockfd == fd
    ensures
      var t' := Serve(t, HangUp(fd)).0;
      && (id in Book(t.slots) ==>
            (Book(t'.slots) == Book(t.slots) - {id} <==> SocketFree(t.slots[..First(Named(id), t.slots)], fd)))
      && (id !in Book(t.slots) ==> (t' == t <==> SocketFree(t.slots, fd)))
  {
    var f, k := First(OnSocket(fd), t.slots), First(Named(id), t.slots);
    FirstIsLookup(t.slots, id);
    FreeMeansUnused(t.slots, fd);
    FreeMeansUnused(t.slots[..k], fd);
    if f < |t.slots| {
      BookHas(t.slots, f);
      BookRemove(t.slots, f);
      assert Serve(t, HangUp(fd)).0.slots[f] != t.slots[f];
    }
    if id in Book(t.slots) {
      assert OnSocket(fd)(t.slots[k]);
      assert f <= k;
      if f < k {
        assert t.slots[..k][f] == t.slots[f];
        assert t.slots[f].id != id;
        assert t.slots[f].id in Book(t.slots) - {id};
      }
    }
  }

  /**
    The same over runs: the entry was added as `id` by `add`, anything has happened since, and now its handler
    hangs up.
  */
  lemma HandlerEndsItsOwnEntry(run: seq<Request>, add: Request, more: seq<Request>, id: int)
    requires add.Add? && Serve(Exec(SetUp(), run), add).1 == Added(id)
    ensures
      var t := Exec(SetUp(), run + [add] + more);
      var (t', reply) := Serve(t, HangUp(add.sockfd));
      && (id in Book(t.slots) ==>
            && Book(t.slots)[id] == Conn(add.sockfd, Clip(add.ip), add.port, add.tid)
            && reply == HungUp(true)
            && (Book(t'.slots) == Book(t.slots) - {id} <==>
                  SocketFree(t.slots[..First(Named(id), t.slots)], add.sockfd)))
      && (id !in Book(t.slots) ==> (t' == t <==> SocketFree(t.slots, add.sockfd)))
  {
    var t := Exec(SetUp(), run + [add] + more);
    AddedEntry(run, add, id);
    EntryKept(run + [add], more, id);
    RunValid(run + [add] + more);
    HangUpExact(t, add.sockfd, id);
    if id in Book(t.slots) {
      var i := BookFrom(t.slots, id);
      assert OnSocket(add.sockfd)(t.slots[i]);
    }
  }

  lemma AddedEntry(run: seq<Request>, add: Request, id: int)
    requires add.Add? && Serve(Exec(SetUp(), run), add).1 == Added(id)
    ensures
      var m := Book(Exec(SetUp(), run + [add]).slots);
      id in m && m[id] == Conn(add.sockfd, Clip(add.ip), add.port, add.tid)
  {
    assert (run + [add])[..|run + [add]| - 1] == run;
    RunValid(run);
    ServeRefines(Exec(SetUp(), run), add);
  }

  /**
    A sufficient condition that the handler can rely on: its socket was unused when its entry was added and has
    not been added again.  Then it ends its own entry and no other, or nothing if the entry is gone.
  */
  lemma HandlerWithOwnSocket(run: seq<Request>, add: Request, more: seq<Request>, id: int)
    requires add.Add? && Serve(Exec(SetUp(), run), add).1 == Added(id)
    requires SocketFree(Exec(SetUp(), run).slots, add.sockfd)
    requires forall k :: 0 <= k < |more| && more[k].Add? ==> more[k].sockfd != add.sockfd
    ensures
      var t := Exec(SetUp(), run + [add] + more);
      var (t', reply) := Serve(t, HangUp(add.sockfd));
      Book(t'.slots) == Book(t.slots) - {id} && reply == HungUp(id in Book(t.slots))
  {
    var begun := run + [add];
    assert begun[..|begun| - 1] == run;
    FreeMeansUnused(Exec(SetUp(), run).slots, add.sockfd);
    assert OnlyOn(Exec(SetUp(), begun).slots, add.sockfd, id);
    SocketKeepsOwner(begun, more, add.sockfd, id);
    RunValid(begun + more);
    AddedEntry(run, add, id);
    EntryKept(begun, more, id);
    HangUpOwn(Exec(SetUp(), begun + more), add.sockfd, id);
  }

  /** While an id is in the book, its connection does not change. */
  lemma {:induction false} EntryKept(run: seq<Request>, more: seq<Request>, id: int)
    requires id in Book(Exec(SetUp(), run).slots)
    ensures
      var m, m' := Book(Exec(SetUp(), run).slots), Book(Exec(SetUp(), run + more).slots);
      id in m' ==> m'[id] == m[id]
  {
    if more == [] {
      assert run + more == run;
    } else {
      var n := |more| - 1;
      assert run + more == run + more[..n] + [more[n]];
      ExecAppend(SetUp(), run + more[..n], more[n]);
      EntryKept(run, more[..n], id);
      RunValid(run + more[..n]);
      RunValid(run + more);
      ServeRefines(Exec(SetUp(), run + more[..n]), more[n]);
      RunValid(run);
      var i := BookFrom(Exec(SetUp(), run).slots, id);
      if id !in Book(Exec(SetUp(), run + more[..n]).slots) {
        NextGrows(run, more[..n]);
      }
    }
  }

  lemma {:induction false} NextGrows(run: seq<Request>, more: seq<Request>)
    ensures Exec(SetUp(), run).next <= Exec(SetUp(), run + more).next
  {
    if more == [] {
      assert run + more == run;
    } else {
      var n := |more| - 1;
      assert run + more == run + more[..n] + [more[n]];
      ExecAppend(SetUp(), run + more[..n], more[n]);
      NextGrows(run, more[..n]);
      ServeCounts(Exec(SetUp(), run + more[..n]), more[n]);
    }
  }

  lemma HangUpOwn(t: Table, fd: int, id: int)
    requires Valid(t) && OnlyOn(t.slots, fd, id)
    requires id in Book(t.slots) ==> Book(t.slots)[id].sockfd == fd
    ensures
      var (t', reply) := Serve(t, HangUp(fd));
      Book(t'.slots) == Book(t.slots) - {id} && reply == HungUp(id in Book(t.slots))
  {
    var k := First(OnSocket(fd), t.slots);
    if k < |t.slots| {
      BookHas(t.slots, k);
      BookRemove(t.slots, k);
    } else {
      assert forall j :: 0 <= j < |t.slots| ==> !OnSocket(fd)(t.slots[j]);
      if id in Book(t.slots) {
        var i := BookFrom(t.slots, id);
        assert false;
      }
    }
  }
}
