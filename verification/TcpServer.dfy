/**
  The server's registry of connections under descriptor reuse (net/TcpServer.cpp, and the destructor and
  `onClose` of net/TcpConnection.cpp).  A connection lives as long as something refers to it, and its
  descriptor is open exactly that long.
 */
module TcpServers {
  import opened Arith

  /** `held` counts references outside the server and its loops. */
  datatype Connection = Connection(fd: nat, closed: bool, held: nat, alive: bool)

  /** `removals` and `destroys` are the queued functors, each holding a reference: `removeConnection` in the
      server's loop, `destroyInLoop` in the connection's.  `everQueued` is a history. */
  datatype Server = Server(
    all: seq<Connection>, connections: map<nat, nat>, removals: seq<(nat, nat)>, destroys: seq<nat>,
    everQueued: seq<nat>, indexLoop: nat, loopCount: nat)

  datatype Step =
    | Accept(fd: nat)     // the kernel hands out a descriptor
    | Hold(id: nat)       // user code copies a reference
    | Release(id: nat)
    | Close(id: nat)      // TcpConnection::onClose
    | RemoveNext          // the server's loop runs removeConnection
    | DestroyNext         // a connection's loop runs destroyInLoop

  predicate InMap(s: Server, id: nat)
    requires id < |s.all|
  {
    s.all[id].fd in s.connections && s.connections[s.all[id].fd] == id
  }

  predicate ToRemove(s: Server, id: nat) {
    exists i :: 0 <= i < |s.removals| && s.removals[i].1 == id
  }

  /** Some reference is left. */
  predicate Referenced(s: Server, id: nat)
    requires id < |s.all|
  {
    InMap(s, id) || ToRemove(s, id) || id in s.destroys || s.all[id].held > 0
  }

  /** The last reference gone, the destructor closes the descriptor. */
  function Reap(s: Server, id: nat): Server
    requires id < |s.all|
  {
    if Referenced(s, id) then s else s.(all := s.all[id := s.all[id].(alive := false)])
  }

  /** The kernel never hands out an open descriptor. */
  predicate Open(s: Server, fd: nat) {
    exists id :: 0 <= id < |s.all| && s.all[id].alive && s.all[id].fd == fd
  }

  ghost predicate IdsOk(s: Server) {
    && (forall i :: 0 <= i < |s.removals| ==> s.removals[i].1 < |s.all|)
    && (forall i :: 0 <= i < |s.destroys| ==> s.destroys[i] < |s.all|)
  }

  /** `onAccept`, with the choice of a loop. */
  function OnAccept(s: Server, fd: nat): Server {
    s.(all := s.all + [Connection(fd, false, 0, true)], connections := s.connections[fd := |s.all|],
       indexLoop := if s.loopCount > 0 then (s.indexLoop + 1) % s.loopCount else s.indexLoop)
  }

  /** `onClose` of a connection, which queues its removal the first time. */
  function OnClose(s: Server, id: nat): Server
    requires id < |s.all|
  {
    if s.all[id].closed then s
    else
      s.(all := s.all[id := s.all[id].(closed := true)],
         removals := s.removals + [(s.all[id].fd, id)], everQueued := s.everQueued + [id])
  }

  function RemoveConnection(s: Server): Server
    requires s.removals != []
  {
    s.(connections := s.connections - {s.removals[0].0}, removals := s.removals[1..],
       destroys := s.destroys + [s.removals[0].1])
  }

  function Next(s: Server, step: Step): Server
    requires IdsOk(s)
  {
    match step
    case Accept(fd) => if Open(s, fd) then s else OnAccept(s, fd)
    case Hold(id) =>
      if id < |s.all| && s.all[id].alive then s.(all := s.all[id := s.all[id].(held := s.all[id].held + 1)]) else s
    case Release(id) =>
      if id < |s.all| && s.all[id].held > 0 then
        Reap(s.(all := s.all[id := s.all[id].(held := s.all[id].held - 1)]), id)
      else s
    case Close(id) => if id < |s.all| && s.all[id].alive then OnClose(s, id) else s
    case RemoveNext => if s.removals == [] then s else RemoveConnection(s)
    case DestroyNext =>
      if s.destroys == [] then s else Reap(s.(destroys := s.destroys[1..]), s.destroys[0])
  }

  ghost predicate Inv(s: Server) {
    && IdsOk(s)
    && (forall fd :: fd in s.connections ==> s.connections[fd] < |s.all| && s.all[s.connections[fd]].fd == fd)
    && (forall id :: 0 <= id < |s.all| ==> (s.all[id].alive <==> Referenced(s, id)))
    && (forall i, j :: 0 <= i < j < |s.all| && s.all[i].alive && s.all[j].alive ==> s.all[i].fd != s.all[j].fd)
    && (forall i :: 0 <= i < |s.removals| ==>
          var (fd, id) := s.removals[i]; s.all[id].fd == fd && s.all[id].closed && InMap(s, id))
    && (forall i, j :: 0 <= i < j < |s.removals| ==> s.removals[i].1 != s.removals[j].1)
    && (forall id :: 0 <= id < |s.all| && !s.all[id].closed ==> InMap(s, id))
    && (forall id :: 0 <= id < |s.all| && s.all[id].closed && InMap(s, id) ==> ToRemove(s, id))
    && (forall id :: id in s.everQueued <==> 0 <= id < |s.all| && s.all[id].closed)
    && (forall i, j :: 0 <= i < j < |s.everQueued| ==> s.everQueued[i] != s.everQueued[j])
  }

  lemma RegisteredIsOpen(s: Server, fd: nat)
    requires Inv(s)
    ensures fd in s.connections ==> Open(s, fd)
  {
    if fd in s.connections {
      assert Referenced(s, s.connections[fd]);
      assert s.all[s.connections[fd]].alive;
    }
  }

  /** A queued removal finds exactly its own connection. */
  lemma RemovalFindsItsOwn(s: Server)
    requires Inv(s) && s.removals != []
    ensures var (fd, id) := s.removals[0]; fd in s.connections && s.connections[fd] == id
  {
  }

  lemma AcceptKeepsInv(s: Server, fd: nat)
    requires Inv(s) && !Open(s, fd)
    ensures Inv(OnAccept(s, fd))
  {
    RegisteredIsOpen(s, fd);
    var t, n := OnAccept(s, fd), |s.all|;
    assert forall id :: 0 <= id < n ==>
             t.all[id] == s.all[id] && (InMap(t, id) <==> InMap(s, id)) && ToRemove(t, id) == ToRemove(s, id);
    assert InMap(t, n);
  }

  lemma HoldKeepsInv(s: Server, id: nat)
    requires Inv(s)
    ensures Inv(Next(s, Hold(id)))
  {
    var t := Next(s, Hold(id));
    assert forall i :: 0 <= i < |s.all| ==> (InMap(t, i) <==> InMap(s, i)) && ToRemove(t, i) == ToRemove(s, i);
  }

  /** `t` is `s` with one reference less to `id`, a held one or that of a queued destruction. */
  ghost predicate Dropped(s: Server, t: Server, id: nat) {
    && |t.all| == |s.all| && id < |s.all| && t.all == s.all[id := s.all[id].(held := t.all[id].held)]
    && t.connections == s.connections && t.removals == s.removals && t.everQueued == s.everQueued
    && IdsOk(t) && forall i :: 0 <= i < |s.all| && i != id ==> (i in t.destroys <==> i in s.destroys)
  }

  lemma ReapFrame(s: Server, t: Server, id: nat)
    requires Dropped(s, t, id)
    ensures var r := Reap(t, id);
            && (forall i :: 0 <= i < |s.all| ==> (InMap(r, i) <==> InMap(s, i)) && ToRemove(r, i) == ToRemove(s, i))
            && (forall i :: 0 <= i < |s.all| && i != id ==> (Referenced(r, i) <==> Referenced(s, i)))
            && (Referenced(r, id) <==> Referenced(t, id))
  {
  }

  /** Dropping a reference and reaping, wherever the reference was. */
  lemma ReapKeepsInv(s: Server, t: Server, id: nat)
    requires Inv(s) && Dropped(s, t, id) && s.all[id].alive
    ensures Inv(Reap(t, id))
  {
    hide InMap, ToRemove, Referenced;
    ReapFrame(s, t, id);
  }

  lemma ReleaseKeepsInv(s: Server, id: nat)
    requires Inv(s)
    ensures Inv(Next(s, Release(id)))
  {
    if id < |s.all| && s.all[id].held > 0 {
      assert Referenced(s, id);
      ReapKeepsInv(s, s.(all := s.all[id := s.all[id].(held := s.all[id].held - 1)]), id);
    }
  }

  lemma DestroyKeepsInv(s: Server)
    requires Inv(s)
    ensures Inv(Next(s, DestroyNext))
  {
    if s.destroys != [] {
      var id := s.destroys[0];
      assert forall i :: i in s.destroys <==> i == id || i in s.destroys[1..];
      assert Referenced(s, id);
      ReapKeepsInv(s, s.(destroys := s.destroys[1..]), id);
    }
  }

  lemma CloseFrame(s: Server, id: nat)
    requires id < |s.all| && !s.all[id].closed
    ensures var t := OnClose(s, id);
            && (forall i :: 0 <= i < |s.all| ==> (InMap(t, i) <==> InMap(s, i)))
            && (forall i :: ToRemove(t, i) <==> ToRemove(s, i) || i == id)
  {
    var t := OnClose(s, id);
    assert t.removals[|s.removals|].1 == id;
    assert forall i :: 0 <= i < |s.removals| ==> t.removals[i] == s.removals[i];
  }

  lemma CloseKeepsInv(s: Server, id: nat)
    requires Inv(s) && id < |s.all| && s.all[id].alive
    ensures Inv(OnClose(s, id))
  {
    hide InMap, ToRemove;
    if !s.all[id].closed {
      NotYetQueued(s, id);
      CloseFrame(s, id);
    }
  }

  lemma NotYetQueued(s: Server, id: nat)
    requires Inv(s) && id < |s.all| && !s.all[id].closed
    ensures InMap(s, id) && id !in s.everQueued
    ensures forall i :: 0 <= i < |s.removals| ==> s.removals[i].1 != id
  {
  }

  lemma RemoveFrame(s: Server)
    requires Inv(s) && s.removals != []
    ensures var t, id := RemoveConnection(s), s.removals[0].1;
            && (forall i :: 0 <= i < |s.all| ==> (InMap(t, i) <==> InMap(s, i) && i != id))
            && (forall i :: ToRemove(t, i) <==> ToRemove(s, i) && i != id)
            && (forall i :: i in t.destroys <==> i in s.destroys || i == id)
  {
    var t, id := RemoveConnection(s), s.removals[0].1;
    assert forall i :: 0 <= i < |t.removals| ==> t.removals[i] == s.removals[i + 1];
    forall i | ToRemove(s, i) && i != id
      ensures ToRemove(t, i)
    {
      var k :| 0 <= k < |s.removals| && s.removals[k].1 == i;
      assert t.removals[k - 1].1 == i;
    }
  }

  lemma RemoveKeepsInv(s: Server)
    requires Inv(s) && s.removals != []
    ensures Inv(RemoveConnection(s))
  {
    hide InMap, ToRemove;
    RemoveFrame(s);
    assert forall i :: 0 <= i < |s.removals| - 1 ==> RemoveConnection(s).removals[i] == s.removals[i + 1];
    assert forall i :: 0 < i < |s.removals| ==> s.removals[i].1 != s.removals[0].1;
  }

  lemma NextKeepsInv(s: Server, step: Step)
    requires Inv(s)
    ensures IdsOk(s) && Inv(Next(s, step))
  {
    assert IdsOk(s);
    match step
    case Accept(fd) => if !Open(s, fd) { AcceptKeepsInv(s, fd); }
    case Hold(id) => HoldKeepsInv(s, id);
    case Release(id) => ReleaseKeepsInv(s, id);
    case Close(id) => if id < |s.all| && s.all[id].alive { CloseKeepsInv(s, id); }
    case RemoveNext => if s.removals != [] { RemoveKeepsInv(s); }
    case DestroyNext => DestroyKeepsInv(s);
  }

  // ---------- whole runs ----------

  function Run(s: Server, steps: seq<Step>): (t: Server)
    requires Inv(s)
    ensures Inv(t)
    decreases |steps|
  {
    if steps == [] then s
    else NextKeepsInv(s, steps[0]); Run(Next(s, steps[0]), steps[1..])
  }

  function NewServer(loopCount: nat): Server {
    Server([], map[], [], [], [], 0, loopCount)
  }

  /** Descriptor uniqueness over whole runs, from a server without connections: the descriptor that `accept`
      returns is never registered already, a queued removal erases exactly its own connection's entry, and
      no connection's removal is queued twice. */
  lemma DescriptorsUnique(loopCount: nat, steps: seq<Step>, fd: nat)
    ensures var s := NewServer(loopCount);
            && Inv(s)
            && var t := Run(s, steps);
            && (!Open(t, fd) ==> fd !in t.connections)
            && (t.removals != [] ==> var (d, id) := t.removals[0]; d in t.connections && t.connections[d] == id)
            && (forall i, j :: 0 <= i < j < |t.everQueued| ==> t.everQueued[i] != t.everQueued[j])
  {
    hide Open, Run;
    var s := NewServer(loopCount);
    assert Inv(s);
    var t := Run(s, steps);
    RegisteredIsOpen(t, fd);
    if t.removals != [] { RemovalFindsItsOwn(t); }
  }

  /** The connections are dealt to the loops in turn: the next one goes to the loop after that of the last. */
  lemma {:induction false} InTurn(s: Server, steps: seq<Step>)
    requires Inv(s) && s.loopCount > 0 && s.indexLoop == |s.all| % s.loopCount
    ensures var t := Run(s, steps); t.loopCount == s.loopCount && t.indexLoop == |t.all| % s.loopCount
    decreases |steps|
  {
    hide Inv, Next, Run;
    if steps == [] {
      RunNone(s);
    } else {
      NextKeepsInv(s, steps[0]);
      NextInTurn(s, steps[0]);
      InTurn(Next(s, steps[0]), steps[1..]);
      RunOne(s, steps);
    }
  }

  lemma RunNone(s: Server)
    requires Inv(s)
    ensures Run(s, []) == s
  {
  }

  lemma RunOne(s: Server, steps: seq<Step>)
    requires Inv(s) && steps != []
    ensures IdsOk(s) && Inv(Next(s, steps[0])) && Run(s, steps) == Run(Next(s, steps[0]), steps[1..])
  {
    NextKeepsInv(s, steps[0]);
  }

  lemma NextInTurn(s: Server, step: Step)
    requires IdsOk(s) && s.loopCount > 0 && s.indexLoop == |s.all| % s.loopCount
    ensures var t := Next(s, step); t.loopCount == s.loopCount && t.indexLoop == |t.all| % s.loopCount
  {
    hide Open, Referenced;
    TurnOver(|s.all|, s.loopCount);
  }

  lemma TurnOver(n: nat, count: nat)
    requires count > 0
    ensures (n % count + 1) % count == (n + 1) % count
  {
    var q, r := n / count, n % count;
    assert n == q * count + r;
    if r + 1 < count {
      ModUnique(n + 1, count, q, r + 1);
      ModUnique(r + 1, count, 0, r + 1);
    } else {
      assert n + 1 == (q + 1) * count + 0;
      ModUnique(n + 1, count, q + 1, 0);
      ModUnique(r + 1, count, 1, 0);
    }
  }

  /** Which loop serves the connection accepted as the `k`-th, from a new server on. */
  lemma DealtInTurn(loopCount: nat, steps: seq<Step>)
    requires loopCount > 0
    ensures var s := NewServer(loopCount); Inv(s) && Run(s, steps).indexLoop == |Run(s, steps).all| % loopCount
  {
    hide Run;
    var s := NewServer(loopCount);
    assert Inv(s);
    InTurn(s, steps);
  }

  // ---------- closing for good ----------

  /** No connection comes, opens again or changes its descriptor or the references that users hold. */
  ghost predicate OnlyDies(s: Server, t: Server) {
    |t.all| == |s.all| && forall i :: 0 <= i < |s.all| ==>
      t.all[i].fd == s.all[i].fd && t.all[i].closed == s.all[i].closed && t.all[i].held == s.all[i].held
      && (t.all[i].alive ==> s.all[i].alive)
  }

  lemma {:induction false} DestroysDrain(s: Server)
    requires Inv(s) && s.removals == []
    ensures var t := Run(s, seq(|s.destroys|, _ => DestroyNext));
            t.removals == [] && t.destroys == [] && OnlyDies(s, t)
    decreases |s.destroys|
  {
    hide Inv, Run;
    if s.destroys == [] {
      RunNone(s);
    } else {
      var steps := seq(|s.destroys|, _ => DestroyNext);
      RunOne(s, steps);
      var t := Next(s, DestroyNext);
      DestroyShrinks(s);
      assert steps[1..] == seq(|t.destroys|, _ => DestroyNext);
      DestroysDrain(t);
    }
  }

  lemma DestroyShrinks(s: Server)
    requires IdsOk(s) && s.destroys != []
    ensures var t := Next(s, DestroyNext);
            |t.destroys| == |s.destroys| - 1 && t.removals == s.removals && OnlyDies(s, t)
  {
    hide Referenced;
  }

  /** The steps by which the loops work off what is queued. */
  function Backlog(s: Server): seq<Step> {
    seq(|s.removals|, _ => RemoveNext) + seq(|s.removals| + |s.destroys|, _ => DestroyNext)
  }

  lemma {:induction false} QueuesDrain(s: Server)
    requires Inv(s)
    ensures var t := Run(s, Backlog(s)); t.removals == [] && t.destroys == [] && OnlyDies(s, t)
    decreases |s.removals|
  {
    hide Inv, Run;
    if s.removals == [] {
      assert Backlog(s) == seq(|s.destroys|, _ => DestroyNext);
      DestroysDrain(s);
    } else {
      RunOne(s, Backlog(s));
      var t := Next(s, RemoveNext);
      assert |t.removals| == |s.removals| - 1 && |t.destroys| == |s.destroys| + 1;
      assert Backlog(s)[1..] == Backlog(t);
      QueuesDrain(t);
    }
  }

  /** With nothing queued, a connection is registered exactly as long as it is not closed, and lives exactly as
      long as it is registered or held. */
  lemma NothingQueued(s: Server, id: nat)
    requires Inv(s) && s.removals == [] && s.destroys == [] && id < |s.all|
    ensures InMap(s, id) <==> !s.all[id].closed
    ensures s.all[id].alive <==> !s.all[id].closed || s.all[id].held > 0
  {
    assert !ToRemove(s, id);
    assert s.all[id].alive <==> Referenced(s, id);
  }

  /** Closing works: once the loops have worked off their queues, a connection that was closed and that nobody
      holds is gone from the registry and dead, and `accept` may return its descriptor again. */
  lemma ClosingReleases(s: Server, id: nat)
    requires Inv(s) && id < |s.all| && s.all[id].alive && s.all[id].held == 0
    ensures IdsOk(s) && Inv(Next(s, Close(id)))
    ensures var c := Next(s, Close(id)); var t := Run(c, Backlog(c));
            |t.all| == |s.all| && !InMap(t, id) && !t.all[id].alive && !Open(t, s.all[id].fd)
  {
    hide Run, Backlog, Referenced;
    NextKeepsInv(s, Close(id));
    var c := Next(s, Close(id));
    QueuesDrain(c);
    var t := Run(c, Backlog(c));
    NothingQueued(t, id);
    forall i | 0 <= i < |t.all| && t.all[i].alive
      ensures t.all[i].fd != s.all[id].fd
    {
      assert s.all[i].alive && i != id;
      assert s.all[if i < id then i else id].fd != s.all[if i < id then id else i].fd;
    }
  }

  /** References that users take and drop are counted, and the last one of a connection that nothing else
      refers to closes it. */
  lemma HoldAndRelease(s: Server, id: nat)
    requires Inv(s) && id < |s.all|
    ensures IdsOk(s) && |Next(s, Hold(id)).all| == |Next(s, Release(id)).all| == |s.all|
    ensures Next(s, Hold(id)).all[id].held == s.all[id].held + (if s.all[id].alive then 1 else 0)
    ensures var t := Next(s, Release(id));
            && t.all[id].held == s.all[id].held - (if s.all[id].held > 0 then 1 else 0)
            && (s.all[id].held == 1 ==>
                  (t.all[id].alive <==> InMap(s, id) || ToRemove(s, id) || id in s.destroys))
  {
    hide InMap, ToRemove;
    if s.all[id].held > 0 {
      var t := s.(all := s.all[id := s.all[id].(held := s.all[id].held - 1)]);
      ReapFrame(s, t, id);
      assert Referenced(s, id);
    }
  }

  // ---------- closing too early ----------

  /** A kernel that takes a descriptor back when its connection closes, while references are left. */
  predicate OpenUntilClose(s: Server, fd: nat) {
    exists id :: 0 <= id < |s.all| && s.all[id].alive && !s.all[id].closed && s.all[id].fd == fd
  }

  function NextClosingEarly(s: Server, step: Step): (t: Server)
    requires IdsOk(s)
    ensures IdsOk(t)
  {
    if step.Accept? then (if OpenUntilClose(s, step.fd) then s else OnAccept(s, step.fd)) else Next(s, step)
  }

  function RunClosingEarly(s: Server, steps: seq<Step>): (t: Server)
    requires IdsOk(s)
    ensures IdsOk(t)
    decreases |steps|
  {
    if steps == [] then s else RunClosingEarly(NextClosingEarly(s, steps[0]), steps[1..])
  }

  lemma EarlyFirst(s: Server, step: Step, rest: seq<Step>)
    requires IdsOk(s)
    ensures RunClosingEarly(s, [step] + rest) == RunClosingEarly(NextClosingEarly(s, step), rest)
    ensures RunClosingEarly(s, []) == s
  {
    assert ([step] + rest)[1..] == rest;
  }

  /** A connection opens and closes; its removal is queued, its entry still there. */
  lemma OpenAndClose(loopCount: nat, fd: nat)
    ensures IdsOk(NewServer(loopCount))
    ensures var t := NextClosingEarly(NextClosingEarly(NewServer(loopCount), Accept(fd)), Close(0));
            t.all == [Connection(fd, true, 0, true)] && t.removals == [(fd, 0)]
  {
    var s := NextClosingEarly(NewServer(loopCount), Accept(fd));
    assert s.all == [Connection(fd, false, 0, true)];
  }

  /** The next connection gets the descriptor, and the old removal takes its entry. */
  lemma ReopenAndRemove(s: Server, fd: nat)
    requires IdsOk(s) && s.all == [Connection(fd, true, 0, true)] && s.removals == [(fd, 0)]
    ensures var t := NextClosingEarly(NextClosingEarly(s, Accept(fd)), RemoveNext);
            |t.all| == 2 && t.all[1] == Connection(fd, false, 0, true) && fd !in t.connections
  {
    assert NextClosingEarly(s, Accept(fd)) == OnAccept(s, fd);
  }

  lemma OpenIsRegistered(loopCount: nat, steps: seq<Step>, id: nat)
    ensures Inv(NewServer(loopCount))
    ensures var t := Run(NewServer(loopCount), steps);
            id < |t.all| && !t.all[id].closed ==> InMap(t, id)
  {
    hide Run;
    assert Inv(NewServer(loopCount));
    assert Inv(Run(NewServer(loopCount), steps));
  }

  /** With such a kernel four steps from a server without connections lose a live connection: its descriptor
      was still registered for the one before it, whose removal then takes the entry away.  With a descriptor
      that stays open until the last reference goes, every connection that is not closed is registered. */
  lemma EarlyCloseLosesAnEntry(loopCount: nat, fd: nat)
    ensures IdsOk(NewServer(loopCount)) && Inv(NewServer(loopCount))
    ensures var t := RunClosingEarly(NewServer(loopCount), [Accept(fd), Close(0), Accept(fd), RemoveNext]);
            |t.all| == 2 && t.all[1].alive && !t.all[1].closed && t.all[1].fd == fd && fd !in t.connections
    ensures forall steps, id ::
              0 <= id < |Run(NewServer(loopCount), steps).all| && !Run(NewServer(loopCount), steps).all[id].closed
              ==> InMap(Run(NewServer(loopCount), steps), id)
  {
    hide NextClosingEarly, RunClosingEarly, Run, Inv, InMap, IdsOk;
    OpenIsRegistered(loopCount, [], 0);
    OpenAndClose(loopCount, fd);
    var s := NewServer(loopCount);
    var s1 := NextClosingEarly(s, Accept(fd));
    var s2 := NextClosingEarly(s1, Close(0));
    var s3 := NextClosingEarly(s2, Accept(fd));
    ReopenAndRemove(s2, fd);
    EarlyFirst(s3, RemoveNext, []);
    EarlyFirst(NextClosingEarly(s3, RemoveNext), RemoveNext, []);
    EarlyFirst(s2, Accept(fd), [RemoveNext]);
    EarlyFirst(s1, Close(0), [Accept(fd), RemoveNext]);
    EarlyFirst(s, Accept(fd), [Close(0), Accept(fd), RemoveNext]);
    assert [RemoveNext] + [] == [RemoveNext] && [Accept(fd)] + [RemoveNext] == [Accept(fd), RemoveNext];
    assert [Close(0)] + [Accept(fd), RemoveNext] == [Close(0), Accept(fd), RemoveNext];
    assert [Accept(fd)] + [Close(0), Accept(fd), RemoveNext] == [Accept(fd), Close(0), Accept(fd), RemoveNext];
    forall steps, id: nat
      ensures id < |Run(s, steps).all| && !Run(s, steps).all[id].closed ==> InMap(Run(s, steps), id)
    {
      OpenIsRegistered(loopCount, steps, id);
    }
  }

  // ---------- the object ----------

  class TcpServer {
    var connections: map<nat, nat>
    var removals: seq<(nat, nat)>
    var destroys: seq<nat>
    var indexLoop: nat
    const loopCount: nat

    /** The fields are those of `s`. */
    ghost predicate Represents(s: Server)
      reads this
    {
      connections == s.connections && removals == s.removals && destroys == s.destroys
      && indexLoop == s.indexLoop && loopCount == s.loopCount
    }

    constructor (loopCount: nat)
      ensures Represents(NewServer(loopCount))
    {
      this.loopCount := loopCount;
      connections, removals, destroys, indexLoop := map[], [], [], 0;
    }

    /** The new connection gets the number `id`; the loop that serves it is returned.  Of a descriptor that
        is not open no entry is overwritten. */
    method AcceptConnection(fd: nat, id: nat, ghost s: Server) returns (loop: nat)
      requires Represents(s) && id == |s.all|
      modifies this
      ensures Represents(OnAccept(s, fd)) && (loopCount > 0 ==> loop == indexLoop < loopCount)
      ensures Inv(s) && !Open(s, fd) ==> Inv(OnAccept(s, fd)) && fd !in old(connections)
    {
      if loopCount > 0 {
        indexLoop := indexLoop + 1;
        indexLoop := indexLoop % loopCount;
      }
      loop := indexLoop;
      connections := connections[fd := id];
      if Inv(s) && !Open(s, fd) {
        AcceptKeepsInv(s, fd);
        RegisteredIsOpen(s, fd);
      }
    }

    /** Called back by a connection that closes for the first time: its removal is queued once, and until
        that runs the connection stays registered. */
    method CloseConnection(fd: nat, id: nat, ghost s: Server)
      requires Represents(s) && id < |s.all| && !s.all[id].closed && s.all[id].fd == fd
      modifies this
      ensures Represents(OnClose(s, id))
      ensures Inv(s) && s.all[id].alive ==>
        && Inv(OnClose(s, id)) && fd in connections && connections[fd] == id
        && (forall i :: 0 <= i < |removals| ==> (removals[i].1 == id <==> i == |removals| - 1))
    {
      removals := removals + [(fd, id)];
      if Inv(s) && s.all[id].alive {
        CloseKeepsInv(s, id);
        NotYetQueued(s, id);
      }
    }

    /** The oldest queued removal: exactly its own connection's entry goes, no other. */
    method Remove(ghost s: Server)
      requires Represents(s) && removals != []
      modifies this
      ensures Represents(RemoveConnection(s))
      ensures Inv(s) ==>
        && Inv(RemoveConnection(s)) && old(removals[0].0) !in connections
        && old(connections) == connections[old(removals[0].0) := old(removals[0].1)]
    {
      var (fd, id) := removals[0];
      if Inv(s) {
        RemoveKeepsInv(s);
        RemovalFindsItsOwn(s);
      }
      removals := removals[1..];
      connections := connections - {fd};
      destroys := destroys + [id];
    }
  }
}
