/** When the cleanup of a socket meets one that was removed before. The bridge frees a removed socket
    and keeps the pointers to it; the model passes it over. */
module BridgeCloses {
  import opened Options
  import opened Bridges
  import opened BridgeStrands

  /** The sockets that the cleanup of `i` ends. */
  function Touched(s: State, i: SockId): set<SockId>
    requires i in s.recs
  {
    match s.recs[i]
    case Relay(_, next, _, _, _) => if next.Some? then {next.value} else {}
    case Listen(_, _, waiting) => waiting.Values
  }

  predicate MeetsRemoved(s: State, i: SockId) {
    i in s.recs && exists c <- Touched(s, i) :: c !in s.recs
  }

  function After(s: State, actions: seq<Action>): State {
    if actions == [] then s
    else Step(After(s, actions[..|actions| - 1]), actions[|actions| - 1])
  }

  lemma {:induction false} AfterKeeps(s: State, actions: seq<Action>)
    requires Inv(s)
    ensures Inv(After(s, actions))
    decreases |actions|
  {
    if actions != [] {
      var most := actions[..|actions| - 1];
      AfterKeeps(s, most);
      StepKeeps(After(s, most), actions[|actions| - 1]);
    }
  }

  /** Identities are given out once, and a link is kept as long as its socket. */
  ghost predicate Onward(s: State, t: State) {
    && s.nextId <= t.nextId
    && (forall i <- t.recs :: i in s.recs || s.nextId <= i)
    && forall i <- t.recs | i in s.recs && s.recs[i].Relay? && s.recs[i].next.Some? ::
         t.recs[i].Relay? && t.recs[i].next == s.recs[i].next
  }

  lemma ListenConnectOnward(s: State, id: ListenId, otp: Otp)
    requires Inv(s)
    ensures Onward(s, ListenConnectStep(s, id, otp))
  {
    if Waiter(s, id, otp).Some? {
      assert WaitsUnder(s, Waiter(s, id, otp).value, id, otp);
    }
  }

  lemma ConnectOnward(s: State, dial: Dial)
    requires Known(s)
    ensures Onward(s, ConnectStep(s, dial))
  {
  }

  lemma CloseOnward(s: State, i: SockId, drained: set<SockId>)
    ensures Onward(s, CloseStep(s, i, drained))
  {
  }

  lemma StepOnward(s: State, a: Action)
    requires Inv(s)
    ensures Onward(s, Step(s, a))
  {
    hide Rendezvous, Symmetric, NotLeftBehind, ConnectStep, ListenConnectStep, CloseStep;
    match a
    case Connect(dial) => ConnectOnward(s, dial);
    case ListenConnect(id, otp) => ListenConnectOnward(s, id, otp);
    case Close(i, drained) => CloseOnward(s, i, drained);
    case _ =>
  }

  lemma OnwardJoins(s: State, u: State, t: State)
    requires Known(s) && Onward(s, u) && Onward(u, t)
    ensures Onward(s, t)
  {
  }

  lemma {:induction false} AfterOnward(s: State, actions: seq<Action>)
    requires Inv(s)
    ensures Onward(s, After(s, actions))
    decreases |actions|
  {
    hide Rendezvous, Symmetric, NotLeftBehind, Known, Step, Onward;
    if actions != [] {
      var most := actions[..|actions| - 1];
      AfterOnward(s, most);
      AfterKeeps(s, most);
      StepOnward(After(s, most), actions[|actions| - 1]);
      OnwardJoins(s, After(s, most), After(s, actions));
    } else {
      OnwardRests(s);
    }
  }

  lemma OnwardRests(s: State)
    ensures Onward(s, s)
  {
  }

  /** Of two linked sockets, the first to be closed meets its partner, and from then on, whatever
      happens, the close of the other meets a removed one. */
  lemma SecondCloseMeets(s: State, i: SockId, drained: set<SockId>, later: seq<Action>)
    requires Inv(s) && i in s.recs && s.recs[i].Relay? && s.recs[i].life == Dead
    requires s.recs[i].next.Some? && s.recs[i].next.value in s.recs
    ensures !MeetsRemoved(s, i)
    ensures var j, t := s.recs[i].next.value, After(CloseStep(s, i, drained), later);
            j in t.recs ==> t.recs[j].Relay? && MeetsRemoved(t, j)
  {
    var j, u := s.recs[i].next.value, CloseStep(s, i, drained);
    var t := After(u, later);
    CloseKeeps(s, i, drained);
    AfterOnward(u, later);
    if j in t.recs {
      assert u.recs[j].Relay? && u.recs[j].next == Some(i);
      assert i in Touched(t, j);
    }
  }

  /** The close of a listener that is registered under its own id never meets a removed socket. */
  lemma RegisteredNeverMeets(s: State, i: SockId)
    requires Inv(s) && i in s.recs && s.recs[i].Listen?
    requires s.recs[i].listenId in s.listening && s.listening[s.recs[i].listenId] == i
    ensures !MeetsRemoved(s, i)
  {
    forall c <- Touched(s, i) ensures c in s.recs {
      var otp :| otp in s.recs[i].waiting && s.recs[i].waiting[otp] == c;
      assert WaitsUnder(s, s.recs[i].waiting[otp], s.recs[i].listenId, otp);
    }
  }

  /** So without takeovers no listener's close meets one. */
  lemma OwnIdsNeverMeet(s: State, i: SockId)
    requires Inv(s) && OwnIds(s) && i in s.recs && s.recs[i].Listen?
    ensures !MeetsRemoved(s, i)
  {
    RegisteredNeverMeets(s, i);
  }

  /** With a takeover it can: the caller was waiting for the listener that lost its id, and when it
      left, its entry was looked for in the other one. */
  lemma TakenOverMeets()
    ensures var taken := [ListenNotify("L", true), Connect(Named("L", "1")), ListenNotify("L", true)];
            MeetsRemoved(Run(taken + [Drop(1), Close(1, {})]), 0)
  {
    var a, b, c := ListenNotify("L", true), Connect(Named("L", "1")), ListenNotify("L", true);
    var d, e := Drop(1), Close(1, {});
    var all := [a, b, c] + [d, e];
    var four := all[..4];
    assert four == [a, b, c] + [d];
    assert four[..3] == [a, b, c];
    assert [a, b, c][..2] == [a, b];
    OneWaitsReached();
    var taken := ListenNotifyStep(ONE_WAITS, "L", true);
    assert Run([a, b, c]) == taken;
    var dropped := DropStep(taken, 1);
    assert Run(four) == dropped;
    assert Run(all) == CloseStep(dropped, 1, {});
    LeftBehind(taken);
  }

  lemma LeftBehind(taken: State)
    requires taken == ListenNotifyStep(ONE_WAITS, "L", true)
    ensures MeetsRemoved(CloseStep(DropStep(taken, 1), 1, {}), 0)
  {
    var dropped := DropStep(taken, 1);
    var t := CloseStep(dropped, 1, {});
    assert dropped.recs[1] == Relay(Dead, None, true, "L", "1") && dropped.recs[3] == Listen(Alive, "L", map[]);
    assert Listener(dropped, "L") == Some(3);
    assert t.recs[0] == ONE_WAITS.recs[0] && 1 !in t.recs;
    assert ONE_WAITS.recs[0].waiting["1"] == 1;
    assert 1 in Touched(t, 0);
  }
}
