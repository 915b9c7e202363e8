/**
  The chat application's peer table as values: an array of slots searched first match first, and the
  abstract book it stands for, a map from ids to connections.  Every access to the table after set-up runs
  under one mutex, so a run is a sequence of whole requests, in whatever order the threads get the mutex.
*/
module PeerTables {

  const MAX_PEERS: nat := 10
  const INT_MAX: int := 0x7fff_ffff
  const INET_ADDRSTRLEN: nat := 16

  datatype Entry = Entry(id: int, sockfd: int, ip: string, port: int, tid: int, active: bool)

  datatype Table = Table(slots: seq<Entry>, next: int, running: bool)

  /**
    The critical sections.  A handler whose socket ends asks for HangUp; the listener asks by Poll whether to go
    on; shutting down is Stop, then Sweep.
  */
  datatype Request =
    | Add(sockfd: int, ip: string, port: int, tid: int)
    | Disconnect(id: int)
    | HangUp(sockfd: int)
    | Send(id: int)
    | List
    | Poll
    | Stop
    | Sweep

  datatype Row = Row(id: int, ip: string, port: int)

  /** A socket that is closed together with the thread that is cancelled. */
  datatype Closed = Closed(sockfd: int, tid: int)

  /** What a critical section returns or does to the outside. */
  datatype Reply =
    | Added(id: int)
    | Refused
    | Disconnected(sockfd: int, tid: int)
    | SentTo(sockfd: int)
    | NotFound
    | HungUp(found: bool)
    | Listing(rows: seq<Row>)
    | Polled(running: bool)
    | Stopped
    | Swept(closed: seq<Closed>)

  const VACANT := Entry(0, -1, "", 0, 0, false)

  /** The ip field holds INET_ADDRSTRLEN bytes, the last of them a terminator. */
  function Clip(ip: string): (r: string)
    ensures r <= ip && |r| == if |ip| <= 15 then |ip| else 15
  {
    if |ip| < INET_ADDRSTRLEN then ip else ip[..INET_ADDRSTRLEN - 1]
  }

  function SetUp(): Table { Table(seq(MAX_PEERS, _ => VACANT), 1, true) }

  function Free(): Entry -> bool { (e: Entry) => !e.active }
  function Named(id: int): Entry -> bool { (e: Entry) => e.active && e.id == id }
  function OnSocket(fd: int): Entry -> bool { (e: Entry) => e.active && e.sockfd == fd }

  /** The index of the first entry that satisfies p, or |xs|. */
  function First(p: Entry -> bool, xs: seq<Entry>): (k: nat)
    ensures k <= |xs|
    ensures k < |xs| ==> p(xs[k])
    ensures forall j :: 0 <= j < k ==> !p(xs[j])
  {
    if xs == [] || p(xs[0]) then 0 else 1 + First(p, xs[1..])
  }

  function Rows(xs: seq<Entry>): seq<Row> {
    if xs == [] then []
    else
      var e := xs[|xs| - 1];
      Rows(xs[..|xs| - 1]) + (if e.active then [Row(e.id, e.ip, e.port)] else [])
  }

  function Closings(xs: seq<Entry>): seq<Closed> {
    if xs == [] then []
    else
      var e := xs[|xs| - 1];
      Closings(xs[..|xs| - 1]) + (if e.active then [Closed(e.sockfd, e.tid)] else [])
  }

  function Clear(t: Table, k: nat): Table
    requires k < |t.slots|
  {
    t.(slots := t.slots[k := t.slots[k].(active := false)])
  }

  function ClearAll(xs: seq<Entry>): seq<Entry> {
    seq(|xs|, i requires 0 <= i < |xs| => xs[i].(active := false))
  }

  /** The slots when the first k of them have been cleared. */
  function Cleared(xs: seq<Entry>, k: nat): (r: seq<Entry>)
    requires k <= |xs|
    ensures |r| == |xs| && forall i :: k <= i < |xs| ==> r[i] == xs[i]
    ensures forall i :: 0 <= i < k ==> r[i] == xs[i].(active := false)
  {
    if k == 0 then xs else Cleared(xs, k - 1)[k - 1 := xs[k - 1].(active := false)]
  }

  function Serve(t: Table, r: Request): (Table, Reply) {
    match r
    case Add(fd, ip, port, tid) =>
      if t.next > INT_MAX - 1 then (t, Refused)
      else
        var k := First(Free(), t.slots);
        if k < |t.slots| then
          (t.(slots := t.slots[k := Entry(t.next, fd, Clip(ip), port, tid, true)], next := t.next + 1), Added(t.next))
        else (t, Refused)
    case Disconnect(id) =>
      var k := First(Named(id), t.slots);
      if k < |t.slots| then (Clear(t, k), Disconnected(t.slots[k].sockfd, t.slots[k].tid)) else (t, NotFound)
    case HangUp(fd) =>
      var k := First(OnSocket(fd), t.slots);
      if k < |t.slots| then (Clear(t, k), HungUp(true)) else (t, HungUp(false))
    case Send(id) =>
      var k := First(Named(id), t.slots);
      if k < |t.slots| then (t, SentTo(t.slots[k].sockfd)) else (t, NotFound)
    case List => (t, Listing(Rows(t.slots)))
    case Poll => (t, Polled(t.running))
    case Stop => (t.(running := false), Stopped)
    case Sweep => (t.(slots := ClearAll(t.slots)), Swept(Closings(t.slots)))
  }

  function Exec(t: Table, run: seq<Request>): Table {
    if run == [] then t else Serve(Exec(t, run[..|run| - 1]), run[|run| - 1]).0
  }

  function ReplyTo(t: Table, run: seq<Request>, k: nat): Reply
    requires k < |run|
  {
    Serve(Exec(t, run[..k]), run[k]).1
  }

  // ---- the abstract book ----

  datatype Conn = Conn(sockfd: int, ip: string, port: int, tid: int)

  function ConnOf(e: Entry): Conn { Conn(e.sockfd, e.ip, e.port, e.tid) }

  /** The map the slots stand for. */
  function Book(xs: seq<Entry>): map<int, Conn> {
    if xs == [] then map[]
    else
      var e := xs[|xs| - 1];
      if e.active then Book(xs[..|xs| - 1])[e.id := ConnOf(e)] else Book(xs[..|xs| - 1])
  }

  ghost predicate DistinctIds(xs: seq<Entry>) {
    forall i, j :: 0 <= i < j < |xs| && xs[i].active && xs[j].active ==> xs[i].id != xs[j].id
  }

  ghost predicate Valid(t: Table) {
    && |t.slots| == MAX_PEERS
    && DistinctIds(t.slots)
    && 1 <= t.next <= INT_MAX
    && forall i :: 0 <= i < |t.slots| && t.slots[i].active ==> 1 <= t.slots[i].id < t.next
  }

  /** The ids whose connection has this socket and this thread. */
  ghost function Having(m: map<int, Conn>, c: Closed): set<int> {
    set id | id in m && m[id].sockfd == c.sockfd && m[id].tid == c.tid
  }

  /** What each request does to a bounded map from ids to connections. */
  ghost predicate BookStep(
    m: map<int, Conn>, next: int, r: Request, reply: Reply, m': map<int, Conn>, next': int)
  {
    match r
    case Add(fd, ip, port, tid) =>
      if |m| >= MAX_PEERS || next >= INT_MAX then reply == Refused && m' == m && next' == next
      else
        && reply == Added(next) && next' == next + 1
        && next !in m && m' == m[next := Conn(fd, Clip(ip), port, tid)]
    case Disconnect(id) =>
      && next' == next && m' == m - {id}
      && reply == (if id in m then Disconnected(m[id].sockfd, m[id].tid) else NotFound)
    case HangUp(fd) =>
      && next' == next
      && (reply == HungUp(false) ==> m' == m && forall id :: id in m ==> m[id].sockfd != fd)
      && (reply != HungUp(false) ==>
            reply == HungUp(true) && exists id :: id in m && m[id].sockfd == fd && m' == m - {id})
    case Send(id) =>
      next' == next && m' == m && reply == (if id in m then SentTo(m[id].sockfd) else NotFound)
    case List =>
      && next' == next && m' == m && reply.Listing? && |reply.rows| == |m|
      && (forall id :: id in m ==> Row(id, m[id].ip, m[id].port) in reply.rows)
    case Poll => next' == next && m' == m && reply.Polled?
    case Stop => next' == next && m' == m && reply == Stopped
    case Sweep =>
      && next' == next && m' == map[] && reply.Swept? && |reply.closed| == |m|
      && (forall c :: multiset(reply.closed)[c] == |Having(m, c)|)
  }

  function Active(): Entry -> nat { (e: Entry) => if e.active then 1 else 0 }
}
