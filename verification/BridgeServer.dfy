/** The bridge as it runs: sockets whose fields the handlers change, and the map of listeners. Each
    handler does exactly one step of the state machine. */
module BridgeServers {
  import opened Options
  import opened AssocMaps
  import opened Bridges

  datatype Mode = RelayMode | ListenMode

  class HnSock {
    const mode: Mode
    var life: Life
    var next: Option<SockId>
    var isWaiting: bool
    var listenId: ListenId
    var otp: Otp
    var waiting: map<Otp, SockId>

    /** hn_sockInit. */
    constructor (mode: Mode)
      ensures this.mode == mode
      ensures AsRec() == if mode.RelayMode? then Relay(Alive, None, false, "", "") else Listen(Alive, "", map[])
    {
      this.mode := mode;
      life := Alive;
      next := None;
      isWaiting := false;
      listenId := "";
      otp := "";
      waiting := map[];
    }

    function AsRec(): Rec
      reads this
    {
      if mode.RelayMode? then Relay(life, next, isWaiting, listenId, otp) else Listen(life, listenId, waiting)
    }
  }

  class Bridge {
    var socks: map<SockId, HnSock>
    const listening: AssocMap<SockId>
    var nextId: SockId
    ghost var trace: seq<Event>

    /** No two identities share a socket. */
    ghost predicate Valid()
      reads this`socks, listening
    {
      listening.Valid() && forall i <- socks, j <- socks :: socks[i] == socks[j] ==> i == j
    }

    ghost function Recs(): map<SockId, Rec>
      reads this`socks, socks.Values
      ensures Recs().Keys == socks.Keys
    {
      map i | i in socks :: socks[i].AsRec()
    }

    ghost function Model(): State
      reads this, listening, socks.Values
    {
      State(Recs(), listening.Contents(), nextId, trace)
    }

    constructor ()
      ensures Valid() && fresh(listening) && Model() == INIT && socks == map[]
    {
      socks := map[];
      listening := new AssocMap();
      nextId := 0;
      trace := [];
      new;
      assert Recs() == map[];
    }

    method SendMsg(i: SockId, message: Message)
      requires Valid()
      modifies this`trace
      ensures Valid() && Model() == Send(old(Model()), i, message)
    {
      if i in socks && socks[i].life != Dead {
        trace := trace + [Sent(i, message)];
      }
    }

    /** sock_done. */
    method SockDone(i: SockId, drained: set<SockId>)
      requires Valid()
      modifies socks.Values
      ensures Valid() && Model() == old(Model()).(recs := DoneAll(old(Model()).recs, {i}, drained))
    {
      if i in socks && socks[i].life != Dead {
        socks[i].life := WillDie;
        if i in drained {
          socks[i].life := Dead;
        }
      }
      assert Recs() == DoneAll(old(Recs()), {i}, drained);
    }

    /** getListeningSock, and its test of the mode. */
    method GetListener(id: ListenId) returns (l: Option<SockId>)
      requires Valid()
      ensures l == Listener(Model(), id)
    {
      l := listening.Get(id);
      if l.None? || l.value !in socks || !socks[l.value].mode.ListenMode? {
        l := None;
      }
    }

    /** getWaitingSocket. */
    method GetWaiting(id: ListenId, otp: Otp) returns (c: Option<SockId>)
      requires Valid()
      ensures c == Waiter(Model(), id, otp)
    {
      var l := GetListener(id);
      if l.Some? && otp in socks[l.value].waiting {
        return Some(socks[l.value].waiting[otp]);
      }
      return None;
    }

    /** removeWaitingSocket. */
    method DropWaiting(id: ListenId, otp: Otp)
      requires Valid()
      modifies socks.Values
      ensures Valid() && Model() == RemoveWaiting(old(Model()), id, otp)
    {
      var l := GetListener(id);
      if l.Some? {
        socks[l.value].waiting := socks[l.value].waiting - {otp};
        assert Recs() == RemoveWaiting(old(Model()), id, otp).recs;
      }
    }

    /** addWaitingSock. */
    method PutWaiting(id: ListenId, otp: Otp, caller: SockId)
      requires Valid()
      modifies socks.Values
      ensures Valid() && Model() == AddWaiting(old(Model()), id, otp, caller)
    {
      var l := GetListener(id);
      if l.Some? && otp !in socks[l.value].waiting {
        socks[l.value].waiting := socks[l.value].waiting[otp := caller];
        assert Recs() == AddWaiting(old(Model()), id, otp, caller).recs;
      }
    }

    /** A socket that was accepted or made, with its hn_Socket. */
    method Register(i: SockId, sock: HnSock)
      requires Valid() && i !in socks && sock !in socks.Values
      modifies this`socks
      ensures Valid() && socks == old(socks)[i := sock]
      ensures Model() == old(Model()).(recs := old(Model()).recs[i := sock.AsRec()])
    {
      socks := socks[i := sock];
      assert Recs() == old(Recs())[i := sock.AsRec()];
    }

    /* ---- handleNew ---- */

    /** A new relay, whose partner is `next`. */
    method AddRelay(i: SockId, next: SockId)
      requires Valid() && i !in socks
      modifies this`socks
      ensures Valid() && fresh(socks.Values - old(socks.Values)) && socks.Keys == old(socks.Keys) + {i}
      ensures Recs() == old(Recs())[i := NEW_RELAY.(next := Some(next))]
    {
      hide Recs, Valid;
      var hnSock := new HnSock(RelayMode);
      hnSock.next := Some(next);
      Register(i, hnSock);
    }

    /** Two new relays, linked to each other. */
    method Link(sock: SockId, nextSock: SockId)
      requires Valid() && sock !in socks && nextSock !in socks && sock != nextSock
      modifies this`socks
      ensures Valid() && fresh(socks.Values - old(socks.Values))
      ensures var one, other := NEW_RELAY.(next := Some(nextSock)), NEW_RELAY.(next := Some(sock));
              Recs() == old(Recs())[sock := one][nextSock := other]
    {
      hide Recs, Valid;
      AddRelay(sock, nextSock);
      AddRelay(nextSock, sock);
    }

    /** A new relay that waits. */
    method Park(sock: SockId, id: ListenId, otp: Otp)
      requires Valid() && sock !in socks
      modifies this`socks
      ensures Valid() && fresh(socks.Values - old(socks.Values))
      ensures Recs() == old(Recs())[sock := Relay(Alive, None, true, id, otp)]
    {
      hide Recs, Valid;
      var hnSock := new HnSock(RelayMode);
      hnSock.listenId := id;
      hnSock.otp := otp;
      hnSock.isWaiting := true;
      Register(sock, hnSock);
    }

    /** The part of initializeConnect that asks a listener to call back. */
    method AskListener(sock: SockId, id: ListenId, otp: Otp)
      requires Valid() && sock !in socks
      modifies this`socks, this`trace, socks.Values
      ensures Valid() && fresh(socks.Values - old(socks.Values))
      ensures match Listener(old(Model()), id)
              case None => Model() == old(Model())
              case Some(l) =>
                var u := Send(old(Model()), l, ListenOtp(otp));
                Model() == AddWaiting(u.(recs := u.recs[sock := Relay(Alive, None, true, id, otp)],
                                         trace := u.trace + [Issued(sock, id, otp)]), id, otp, sock)
    {
      hide AddWaiting, Listener, Recs, Valid;
      var l := GetListener(id);
      if l.Some? {
        SendMsg(l.value, ListenOtp(otp));
        Park(sock, id, otp);
        trace := trace + [Issued(sock, id, otp)];
        PutWaiting(id, otp, sock);
      }
    }

    /** CONNECT, with createRelay. */
    method HandleConnect(dial: Dial)
      requires Valid() && Inv(Model())
      modifies this, socks.Values
      ensures Valid() && Inv(Model()) && fresh(socks.Values - old(socks.Values))
      ensures Model() == ConnectStep(old(Model()), dial)
    {
      hide Inv, Send, AddWaiting, Listener, Recs, Valid;
      ghost var was := Model();
      NewIds(was);
      ConnectKeeps(was, dial);
      var sock, nextSock := nextId, nextId + 1;
      nextId := nextId + 2;
      assert sock !in Recs();
      match dial {
        case Rejected =>
        case Address(reached) =>
          if reached {
            Link(sock, nextSock);
            SendMsg(sock, Connected(1));
          }
        case Named(id, otp) =>
          SameListener(Model(), was, id);
          AskListener(sock, id, otp);
      }
    }

    /** A new listener is registered under its id. */
    method Admit(sock: SockId, id: ListenId)
      requires Valid() && sock !in socks
      modifies this`socks, listening
      ensures Valid() && fresh(socks.Values - old(socks.Values))
      ensures var was := old(Model());
              Model() == was.(recs := was.recs[sock := Listen(Alive, id, map[])],
                              listening := was.listening[id := sock])
    {
      hide Recs;
      var hnSock := new HnSock(ListenMode);
      hnSock.listenId := id;
      Register(sock, hnSock);
      listening.Set(id, sock);
    }

    /** LISTEN_NOTIFY: an id that is in the map already now leads to the new listener. */
    method HandleListenNotify(id: ListenId, admitted: bool)
      requires Valid() && Inv(Model())
      modifies this, listening, socks.Values
      ensures Valid() && Inv(Model()) && fresh(socks.Values - old(socks.Values))
      ensures Model() == ListenNotifyStep(old(Model()), id, admitted)
    {
      hide Inv, Send, Recs, Valid;
      ghost var was := Model();
      NewIds(was);
      ListenNotifyKeeps(was, id, admitted);
      var sock := nextId;
      nextId := nextId + 1;
      if admitted {
        Admit(sock, id);
        SendMsg(sock, Listening(id));
      }
    }

    /** The caller stops waiting and is linked to `sock`. */
    method LinkCaller(c: SockId, sock: SockId)
      requires Valid() && c in socks && Recs()[c].Relay?
      modifies socks.Values
      ensures Valid() && Recs() == old(Recs())[c := old(Recs())[c].(next := Some(sock), isWaiting := false)]
    {
      socks[c].next := Some(sock);
      socks[c].isWaiting := false;
      assert Recs() == old(Recs())[c := old(Recs())[c].(next := Some(sock), isWaiting := false)];
    }

    /** A new relay is linked to the caller, and the caller to it. */
    method Meet(sock: SockId, c: SockId)
      requires Valid() && sock !in socks && c in socks && Recs()[c].Relay?
      modifies this`socks, socks.Values
      ensures Valid() && fresh(socks.Values - old(socks.Values))
      ensures Recs() == old(Recs())[sock := NEW_RELAY.(next := Some(c))]
                                   [c := old(Recs())[c].(next := Some(sock), isWaiting := false)]
    {
      hide Recs, Valid;
      AddRelay(sock, c);
      LinkCaller(c, sock);
    }

    /** Both ends are linked, and both are told. */
    method Join(sock: SockId, c: SockId, id: ListenId, otp: Otp)
      requires Valid() && sock !in socks && c in socks && Recs()[c].Relay?
      modifies this`socks, this`trace, socks.Values
      ensures Valid() && fresh(socks.Values - old(socks.Values))
      ensures Model() == JoinedState(old(Model()), sock, c, id, otp)
    {
      hide Recs, Valid, Send;
      Meet(sock, c);
      trace := trace + [Joined(sock, c, id, otp)];
      SendMsg(sock, Connected(1));
      SendMsg(c, Connected(2));
    }

    /** LISTEN_CONNECT: the caller is taken out of the map, both ends are linked, and both are told. */
    method HandleListenConnect(id: ListenId, otp: Otp)
      requires Valid() && Inv(Model())
      modifies this, socks.Values
      ensures Valid() && Inv(Model()) && fresh(socks.Values - old(socks.Values))
      ensures Model() == ListenConnectStep(old(Model()), id, otp)
    {
      hide Inv, JoinedState, RemoveWaiting, Waiter, Recs, Valid, ListenConnectStep;
      ghost var was := Model();
      NewIds(was);
      ListenConnectKeeps(was, id, otp);
      var c := GetWaiting(id, otp);
      ListenConnectIs(was, id, otp);
      var sock := nextId;
      nextId := nextId + 1;
      if c.Some? {
        DropWaiting(id, otp);
        assert sock !in Recs() && c.value in Recs();
        Join(sock, c.value, id, otp);
      }
    }

    /* ---- handleRead and handleClose ---- */

    /** One chunk of data, or a ping. The partner is looked at only while this end is alive. */
    method HandleRead(i: SockId, ping: bool, drained: set<SockId>)
      requires Valid() && Inv(Model()) && i in socks
      modifies this`trace, socks.Values
      ensures Valid() && Inv(Model()) && Model() == ReadStep(old(Model()), i, ping, drained)
    {
      hide Inv, DoneAll, Send;
      ghost var was := Model();
      ReadKeeps(was, i, ping, drained);
      AlivePartner(was, i);
      var sock := socks[i];
      if sock.mode.RelayMode? {
        if sock.isWaiting || sock.next.None? {
          SockDone(i, drained);
        } else if sock.life == Alive {
          assert sock.next.value in Recs();
          if socks[sock.next.value].life == Alive {
            SendMsg(sock.next.value, Data);
          }
        }
      } else if ping {
        SendMsg(i, Pong);
      }
    }

    /** The connection breaks, or what was left to write is written. */
    method HandleDrop(i: SockId)
      requires Valid() && Inv(Model()) && i in socks
      modifies socks.Values
      ensures Valid() && Inv(Model()) && Model() == DropStep(old(Model()), i)
    {
      hide Inv;
      ghost var was := Model();
      DropKeeps(was, i);
      socks[i].life := Dead;
      assert Recs() == DropStep(was, i).recs;
    }

    /** Closes each of the callers that wait for a listener. */
    method CloseWaiting(callers: set<SockId>, drained: set<SockId>)
      requires Valid()
      modifies socks.Values
      ensures Valid() && Model() == old(Model()).(recs := DoneAll(old(Model()).recs, callers, drained))
    {
      var todo := callers;
      assert Recs() == DoneAll(Recs(), {}, drained);
      hide DoneAll, Recs, Valid;
      assert callers - todo == {};
      while todo != {}
        invariant Valid() && todo <= callers
        invariant Model() == old(Model()).(recs := DoneAll(old(Model()).recs, callers - todo, drained))
        decreases |todo|
      {
        var c :| c in todo;
        SockDone(c, drained);
        DoneOneMore(old(Recs()), callers - todo, c, drained);
        assert callers - (todo - {c}) == callers - todo + {c};
        todo := todo - {c};
      }
      assert callers - todo == callers;
    }

    /** hn_sockCleanup. */
    method SockCleanup(i: SockId, drained: set<SockId>)
      requires Valid() && i in socks
      modifies listening, socks.Values
      ensures Valid() && Model() == Cleanup(old(Model()), i, drained)
    {
      var sock := socks[i];
      assert Recs()[i] == sock.AsRec();
      hide DoneAll, RemoveWaiting, Recs, Valid;
      if sock.mode.RelayMode? {
        var isWaiting, id, otp := sock.isWaiting, sock.listenId, sock.otp;
        if sock.next.Some? {
          SockDone(sock.next.value, drained);
        }
        if isWaiting {
          DropWaiting(id, otp);
        }
      } else {
        var id := sock.listenId;
        CloseWaiting(sock.waiting.Values, drained);
        var _ := listening.Delete(id);
      }
    }

    method Unregister(i: SockId)
      requires Valid()
      modifies this`socks
      ensures Valid() && socks.Values <= old(socks.Values)
      ensures Recs() == old(Recs()) - {i}
    {
      socks := socks - {i};
      assert Recs() == old(Recs()) - {i};
    }

    /** handleClose, for a dead socket that the loop has met. */
    method HandleClose(i: SockId, drained: set<SockId>)
      requires Valid() && Inv(Model()) && i in socks && Recs()[i].life == Dead
      modifies this, listening, socks.Values
      ensures Valid() && Inv(Model()) && socks.Values <= old(socks.Values)
      ensures Model() == CloseStep(old(Model()), i, drained)
    {
      hide Inv, Cleanup, Recs, Valid;
      CloseKeeps(Model(), i, drained);
      SockCleanup(i, drained);
      Unregister(i);
    }
  }

  lemma NewIds(s: State)
    requires Inv(s)
    ensures forall i <- s.recs :: i < s.nextId
  {
  }

  lemma SameListener(s: State, t: State, id: ListenId)
    requires s.recs == t.recs && s.listening == t.listening
    ensures Listener(s, id) == Listener(t, id)
  {
  }

  /** Caller `c` is linked to the new relay `n`, and both are told. */
  function JoinedState(u: State, n: SockId, c: SockId, id: ListenId, otp: Otp): State
    requires c in u.recs && u.recs[c].Relay?
  {
    var caller := u.recs[c].(next := Some(n), isWaiting := false);
    var linked := u.recs[n := NEW_RELAY.(next := Some(c))][c := caller];
    Send(Send(u.(recs := linked, trace := u.trace + [Joined(n, c, id, otp)]), n, Connected(1)), c, Connected(2))
  }

  /** The caller that is found is a relay, and stays one when it is taken out of the map. */
  lemma ListenConnectIs(s: State, id: ListenId, otp: Otp)
    requires Inv(s)
    ensures match Waiter(s, id, otp)
            case None => ListenConnectStep(s, id, otp) == s.(nextId := s.nextId + 1)
            case Some(c) =>
              var n, u := s.nextId, RemoveWaiting(s.(nextId := s.nextId + 1), id, otp);
              && u.recs.Keys == s.recs.Keys && c in u.recs && u.recs[c].Relay?
              && ListenConnectStep(s, id, otp) == JoinedState(u, n, c, id, otp)
  {
    hide Send, Symmetric, NotLeftBehind, Known;
    if Waiter(s, id, otp).Some? {
      assert WaitsUnder(s, Waiter(s, id, otp).value, id, otp);
    }
  }

  lemma DoneOneMore(recs: map<SockId, Rec>, done: set<SockId>, c: SockId, drained: set<SockId>)
    ensures DoneAll(DoneAll(recs, done, drained), {c}, drained) == DoneAll(recs, done + {c}, drained)
  {
  }
}
