/** The chat application's table as code: Peer records in an array, scanned and updated in place. */
module ChatApps {
  import opened PeerTables

  class Peer {
    var id: int
    var sockfd: int
    var ip: string
    var port: int
    var threadId: int
    var active: bool

    function View(): Entry
      reads this
    {
      Entry(id, sockfd, ip, port, threadId, active)
    }

    constructor ()
      ensures View() == VACANT
    {
      new;
      Init();
    }

    method Init()
      modifies this
      ensures View() == VACANT == Entry(0, -1, "", 0, 0, false)
    {
      id, sockfd, port, threadId, active, ip := 0, -1, 0, 0, false, "";
    }

    method Set(id: int, sockfd: int, ip: string, port: int, tid: int)
      modifies this
      ensures View() == Entry(id, sockfd, Clip(ip), port, tid, true)
      ensures this.ip == if |ip| <= 15 then ip else ip[..15]
    {
      this.id, this.sockfd, this.port, threadId, active := id, sockfd, port, tid, true;
      // strncpy into INET_ADDRSTRLEN bytes, then the last byte becomes the terminator.
      this.ip := if |ip| < INET_ADDRSTRLEN then ip else ip[..INET_ADDRSTRLEN - 1];
    }
  }

  function Views(ps: seq<Peer>): (r: seq<Entry>)
    reads ps
    ensures |r| == |ps| && forall i :: 0 <= i < |ps| ==> r[i] == ps[i].View()
  {
    if ps == [] then [] else Views(ps[..|ps| - 1]) + [ps[|ps| - 1].View()]
  }

  lemma AllVacant(xs: seq<Entry>)
    requires |xs| == MAX_PEERS && forall i :: 0 <= i < MAX_PEERS ==> xs[i] == VACANT
    ensures Table(xs, 1, true) == SetUp()
  {
    assert xs == SetUp().slots;
  }

  function Occupied(t: Table, i: nat, sockfd: int, ip: string, port: int, tid: int): Table
    requires i < |t.slots|
  {
    t.(slots := t.slots[i := Entry(t.next, sockfd, Clip(ip), port, tid, true)], next := t.next + 1)
  }

  class ChatApp {
    const peers: array<Peer>
    var nextPeerId: int
    var running: bool

    ghost predicate Valid()
      reads this, peers
    {
      peers.Length == MAX_PEERS && forall i, j :: 0 <= i < j < MAX_PEERS ==> peers[i] != peers[j]
    }

    ghost function View(): Table
      reads this, peers, peers[..]
    {
      Table(Views(peers[..]), nextPeerId, running)
    }

    constructor ()
      ensures Valid() && View() == SetUp()
      ensures fresh(peers) && forall i :: 0 <= i < MAX_PEERS ==> fresh(peers[i])
    {
      var first := new Peer();
      peers := new Peer[MAX_PEERS](_ => first);
      nextPeerId, running := 1, true;
      new;
      for i := 1 to MAX_PEERS
        invariant peers.Length == MAX_PEERS
        invariant forall j :: 0 <= j < MAX_PEERS ==> fresh(peers[j]) && peers[j].View() == VACANT
        invariant forall j, k :: 0 <= j < k < i ==> peers[j] != peers[k]
        invariant nextPeerId == 1 && running
      {
        var p := new Peer();
        peers[i] := p;
      }
      AllVacant(Views(peers[..]));
    }

    method AddPeer(sockfd: int, ip: string, port: int, tid: int) returns (result: int)
      requires Valid()
      modifies this, peers[..]
      ensures Valid()
      ensures View() == Serve(old(View()), Add(sockfd, ip, port, tid)).0
      ensures
        var reply := Serve(old(View()), Add(sockfd, ip, port, tid)).1;
        result == if reply.Added? then reply.id else -1
    {
      ghost var was := View();
      if nextPeerId > INT_MAX - 1 {
        AddRefused(was, sockfd, ip, port, tid);
        return -1;
      }
      for i := 0 to MAX_PEERS
        invariant View() == was
        invariant First(Free(), was.slots) >= i
      {
        assert was.slots[i] == peers[i].View();
        if !peers[i].active {
          AddAt(was, i, sockfd, ip, port, tid);
          result := Occupy(i, sockfd, ip, port, tid);
          return;
        }
        Skipped(Free(), was.slots, i);
      }
      AddRefused(was, sockfd, ip, port, tid);
      return -1;
    }

    /** peer_set for slot i with the next id, and the id that is next after it. */
    method Occupy(i: nat, sockfd: int, ip: string, port: int, tid: int) returns (id: int)
      requires Valid() && i < MAX_PEERS
      modifies `nextPeerId, peers[i]
      ensures View() == Occupied(old(View()), i, sockfd, ip, port, tid)
      ensures id == old(nextPeerId)
    {
      id := nextPeerId;
      peers[i].Set(id, sockfd, ip, port, tid);
      nextPeerId := nextPeerId + 1;
      assert View().slots == Occupied(old(View()), i, sockfd, ip, port, tid).slots;
    }

    /** The assignment active = 0 for slot i. */
    method Deactivate(i: nat)
      requires Valid() && i < MAX_PEERS
      modifies peers[i]
      ensures Views(peers[..]) == old(Views(peers[..]))[i := old(peers[i].View()).(active := false)]
    {
      peers[i].active := false;
    }

    /** chatapp_disconnect_peer: 0 with the socket to close and the thread to cancel, or -1. */
    method DisconnectPeer(id: int) returns (result: int, closed: int, cancelled: int)
      requires Valid()
      modifies this, peers[..]
      ensures Valid()
      ensures
        var (t, reply) := Serve(old(View()), Disconnect(id));
        && View() == t
        && (result == 0 ==> reply == Disconnected(closed, cancelled))
        && (result != 0 ==> result == -1 && reply == NotFound)
    {
      ghost var was := View();
      for i := 0 to MAX_PEERS
        invariant View() == was
        invariant First(Named(id), was.slots) >= i
      {
        assert was.slots[i] == peers[i].View();
        if peers[i].active && peers[i].id == id {
          closed, cancelled := peers[i].sockfd, peers[i].threadId;
          Deactivate(i);
          return 0, closed, cancelled;
        }
        Skipped(Named(id), was.slots, i);
      }
      return -1, 0, 0;
    }

    /** The critical section of a handler whose socket has ended. */
    method HangUpPeer(sockfd: int) returns (found: bool)
      requires Valid()
      modifies this, peers[..]
      ensures Valid()
      ensures (View(), PeerTables.HungUp(found)) == Serve(old(View()), HangUp(sockfd))
    {
      ghost var was := View();
      for i := 0 to MAX_PEERS
        invariant View() == was
        invariant First(OnSocket(sockfd), was.slots) >= i
      {
        assert was.slots[i] == peers[i].View();
        if peers[i].active && peers[i].sockfd == sockfd {
          Deactivate(i);
          return true;
        }
        Skipped(OnSocket(sockfd), was.slots, i);
      }
      return false;
    }

    /** chatapp_send_message: 0 with the socket written to, or -1. */
    method SendMessage(id: int) returns (result: int, to: int)
      requires Valid()
      ensures
        var reply := Serve(View(), Send(id)).1;
        && (result == 0 ==> reply == SentTo(to))
        && (result != 0 ==> result == -1 && reply == NotFound)
    {
      ghost var was := View();
      for i := 0 to MAX_PEERS
        invariant First(Named(id), was.slots) >= i
      {
        assert was.slots[i] == peers[i].View();
        if peers[i].active && peers[i].id == id { return 0, peers[i].sockfd; }
        Skipped(Named(id), was.slots, i);
      }
      return -1, 0;
    }

    method ListPeers() returns (rows: seq<Row>)
      requires Valid()
      ensures Serve(View(), List).1 == Listing(rows)
    {
      ghost var was := View();
      rows := [];
      for i := 0 to MAX_PEERS
        invariant rows == Rows(was.slots[..i])
      {
        assert was.slots[i] == peers[i].View() && was.slots[..i + 1][..i] == was.slots[..i];
        if peers[i].active { rows := rows + [Row(peers[i].id, peers[i].ip, peers[i].port)]; }
      }
      assert was.slots[..MAX_PEERS] == was.slots;
    }

    /** The listener's look at the flag before it accepts. */
    method KeepRunning() returns (keepRunning: bool)
      requires Valid()
      ensures Serve(View(), Poll) == (View(), Polled(keepRunning)) && keepRunning == running
    {
      keepRunning := running;
    }

    /** The first critical section of chatapp_shutdown. */
    method StopRunning()
      requires Valid()
      modifies this
      ensures Valid() && View() == Serve(old(View()), Stop).0
      ensures !running && Views(peers[..]) == old(Views(peers[..])) && nextPeerId == old(nextPeerId)
    {
      running := false;
    }

    method SweepOne(i: nat) returns (closed: seq<Closed>)
      requires Valid() && i < MAX_PEERS
      modifies peers[i]
      ensures
        var e := old(Views(peers[..]))[i];
        && closed == (if e.active then [Closed(e.sockfd, e.tid)] else [])
        && Views(peers[..]) == old(Views(peers[..]))[i := e.(active := false)]
    {
      closed := [];
      assert !peers[i].active ==> peers[i].View().(active := false) == peers[i].View();
      if peers[i].active {
        closed := [Closed(peers[i].sockfd, peers[i].threadId)];
        Deactivate(i);
      }
    }

    /** The second: every active entry is closed, cancelled and deactivated. */
    method SweepPeers() returns (closed: seq<Closed>)
      requires Valid()
      modifies this, peers[..]
      ensures Valid()
      ensures (View(), Swept(closed)) == Serve(old(View()), Sweep)
    {
      ghost var was := View();
      closed := [];
      for i := 0 to MAX_PEERS
        invariant nextPeerId == was.next && running == was.running
        invariant closed == Closings(was.slots[..i])
        invariant Views(peers[..]) == Cleared(was.slots, i)
      {
        ClosingsStep(was.slots, i);
        var one := SweepOne(i);
        closed := closed + one;
      }
      SweepIs(was);
    }
  }

  lemma AddAt(t: Table, i: nat, sockfd: int, ip: string, port: int, tid: int)
    requires i < |t.slots| && First(Free(), t.slots) >= i && !t.slots[i].active && t.next <= INT_MAX - 1
    ensures Serve(t, Add(sockfd, ip, port, tid))
            == (Occupied(t, i, sockfd, ip, port, tid), Added(t.next))
  {
    assert Free()(t.slots[i]);
  }

  lemma AddRefused(t: Table, sockfd: int, ip: string, port: int, tid: int)
    requires t.next > INT_MAX - 1 || First(Free(), t.slots) >= |t.slots|
    ensures Serve(t, Add(sockfd, ip, port, tid)) == (t, Refused)
  {
  }

  lemma SweepIs(t: Table)
    ensures Serve(t, Sweep) == (t.(slots := Cleared(t.slots, |t.slots|)), Swept(Closings(t.slots[..|t.slots|])))
  {
    assert t.slots[..|t.slots|] == t.slots;
    assert Cleared(t.slots, |t.slots|) == ClearAll(t.slots);
  }

  lemma ClosingsStep(xs: seq<Entry>, i: nat)
    requires i < |xs|
    ensures Closings(xs[..i + 1])
            == Closings(xs[..i]) + (if xs[i].active then [Closed(xs[i].sockfd, xs[i].tid)] else [])
  {
    assert xs[..i + 1][..i] == xs[..i];
  }

  lemma Skipped(p: Entry -> bool, xs: seq<Entry>, i: nat)
    requires i < |xs| && First(p, xs) >= i && !p(xs[i])
    ensures First(p, xs) >= i + 1
  {
  }
}
