/** Exactly which steps of the bridge strand a caller: leave one that waits and is alive where its
    listener's answer does not look for it. */
module BridgeStrands {
  import opened Options
  import opened Bridges

  predicate WaitsAlive(s: State, c: SockId) {
    c in s.recs && s.recs[c].Relay? && s.recs[c].isWaiting && s.recs[c].life == Alive
  }

  ghost predicate NoneWaits(s: State, id: ListenId) {
    forall c <- s.recs | WaitsAlive(s, c) :: s.recs[c].listenId != id
  }

  /** A takeover strands exactly the callers that are alive and wait under the id. */
  lemma TakeoverStrands(s: State, id: ListenId)
    requires Inv(s) && NoOrphans(s)
    ensures NoOrphans(ListenNotifyStep(s, id, true)) <==>
            NoneWaits(s, id)
  {
    hide Symmetric, NotLeftBehind, NoOrphans;
    var t := ListenNotifyStep(s, id, true);
    assert forall c <- s.recs :: t.recs[c] == s.recs[c];
    Retaken(s, t, id, s.nextId);
  }

  lemma Retaken(s: State, t: State, id: ListenId, l: SockId)
    requires NoOrphans(s) && l !in s.recs && t.listening == s.listening[id := l]
    requires t.recs.Keys == s.recs.Keys + {l} && t.recs[l] == Listen(Alive, id, map[])
    requires forall c <- s.recs :: t.recs[c] == s.recs[c]
    ensures NoOrphans(t) <==>
            NoneWaits(s, id)
  {
  }

  /** An OTP that is handed out again strands the new caller exactly when someone waits with it. */
  lemma DuplicateStrands(s: State, id: ListenId, otp: Otp)
    requires Inv(s) && NoOrphans(s) && Listener(s, id).Some?
    ensures NoOrphans(ConnectStep(s, Named(id, otp))) <==> Waiter(s, id, otp).None?
  {
    var t, l := ConnectStep(s, Named(id, otp)), Listener(s, id).value;
    if otp in s.recs[l].waiting {
      TakenIsKept(s, id, otp);
    } else {
      ConnectAdopts(s, id, otp, l);
      AdoptedNoOrphans(s, t, l, s.nextId, id, otp);
    }
  }

  lemma TakenIsKept(s: State, id: ListenId, otp: Otp)
    requires Inv(s) && Waiter(s, id, otp).Some?
    ensures !NoOrphans(ConnectStep(s, Named(id, otp)))
  {
    var t, l := ConnectStep(s, Named(id, otp)), Listener(s, id).value;
    assert WaitsUnder(s, s.recs[l].waiting[otp], id, otp);
    assert t.recs[s.nextId] == Relay(Alive, None, true, id, otp) && t.recs[l] == s.recs[l];
    assert Waiter(t, id, otp) == Waiter(s, id, otp) != Some(s.nextId);
  }

  /* ---- Other requests ---- */

  lemma FadedNoOrphans(s: State, t: State)
    requires NoOrphans(s) && Faded(s, t)
    ensures NoOrphans(t)
  {
    forall c <- t.recs | t.recs[c].Relay? && t.recs[c].isWaiting && t.recs[c].life == Alive
      ensures Waiter(t, t.recs[c].listenId, t.recs[c].otp) == Some(c)
    {
      assert WaitsAlive(s, c);
    }
  }

  /** New sockets that do not wait strand no one. */
  lemma MoreNoOrphans(s: State, t: State)
    requires NoOrphans(s) && t.listening == s.listening && s.recs.Keys <= t.recs.Keys
    requires forall a <- s.recs :: t.recs[a] == s.recs[a]
    requires forall a <- t.recs | a !in s.recs :: t.recs[a].Relay? && !t.recs[a].isWaiting
    ensures NoOrphans(t)
  {
  }

  lemma ConnectIff(s: State, dial: Dial)
    requires Inv(s) && NoOrphans(s)
    ensures NoOrphans(ConnectStep(s, dial)) <==>
            (dial.Named? && Listener(s, dial.id).Some? ==> Waiter(s, dial.id, dial.otp).None?)
  {
    hide NoOrphans, Waiter, Rendezvous, Symmetric, NotLeftBehind;
    if dial.Named? && Listener(s, dial.id).Some? {
      DuplicateStrands(s, dial.id, dial.otp);
    } else {
      MoreNoOrphans(s, ConnectStep(s, dial));
    }
  }

  lemma ListenNotifyIff(s: State, id: ListenId, admitted: bool)
    requires Inv(s) && NoOrphans(s)
    ensures NoOrphans(ListenNotifyStep(s, id, admitted)) <==> (admitted ==> NoneWaits(s, id))
  {
    hide NoOrphans, NoneWaits, Inv;
    if admitted {
      TakeoverStrands(s, id);
    } else {
      MoreNoOrphans(s, ListenNotifyStep(s, id, admitted));
    }
  }

  lemma ListenConnectSpares(s: State, id: ListenId, otp: Otp)
    requires Inv(s) && NoOrphans(s)
    ensures NoOrphans(ListenConnectStep(s, id, otp))
  {
    hide NoOrphans, Met, Inv, RemoveWaiting;
    var t := ListenConnectStep(s, id, otp);
    if Waiter(s, id, otp).Some? {
      var c, l := Waiter(s, id, otp).value, Listener(s, id).value;
      ListenConnectMeets(s, id, otp, c);
      MetNoOrphans(s, t, l, c, s.nextId, id, otp);
    } else {
      MoreNoOrphans(s, t);
    }
  }

  lemma ReadSpares(s: State, i: SockId, ping: bool, drained: set<SockId>)
    requires NoOrphans(s)
    ensures NoOrphans(ReadStep(s, i, ping, drained))
  {
    hide NoOrphans, DoneAll;
    DoneFades(s, s.(recs := DoneAll(s.recs, {i}, drained)), {i}, drained);
    FadedNoOrphans(s, s.(recs := DoneAll(s.recs, {i}, drained)));
    MoreNoOrphans(s, s.(trace := ReadStep(s, i, ping, drained).trace));
  }

  lemma DropSpares(s: State, i: SockId)
    requires NoOrphans(s)
    ensures NoOrphans(DropStep(s, i))
  {
    hide NoOrphans;
    FadedNoOrphans(s, DropStep(s, i));
  }

  /* ---- Closes ---- */

  /** No other caller waits under the keys of caller `i`. */
  ghost predicate KeysAreOwn(s: State, i: SockId)
    requires i in s.recs && s.recs[i].Relay?
  {
    forall c <- s.recs | WaitsAlive(s, c) :: s.recs[c].listenId != s.recs[i].listenId || s.recs[c].otp != s.recs[i].otp
  }

  /** A relay that does not wait. */
  lemma RelayGone(s: State, t: State, i: SockId)
    requires NoOrphans(s) && i in s.recs && s.recs[i].Relay? && t == s.(recs := s.recs - {i})
    ensures NoOrphans(t)
  {
    forall c <- t.recs | t.recs[c].Relay? && t.recs[c].isWaiting && t.recs[c].life == Alive
      ensures Waiter(t, t.recs[c].listenId, t.recs[c].otp) == Some(c)
    {
      assert Waiter(s, s.recs[c].listenId, s.recs[c].otp) == Some(c);
    }
  }

  lemma KeysGone(s: State, id: ListenId, otp: Otp)
    ensures Waiter(RemoveWaiting(s, id, otp), id, otp).None?
  {
  }

  /** The entry under these keys is taken out: strands exactly the other callers that wait under them. */
  lemma RemovedIff(s: State, u: State, i: SockId)
    requires Rendezvous(s) && NoOrphans(s) && i in s.recs && s.recs[i].Relay? && s.recs[i].life != Alive
    requires u == RemoveWaiting(s, s.recs[i].listenId, s.recs[i].otp)
    ensures NoOrphans(u) <==> KeysAreOwn(s, i)
  {
    hide Rendezvous, Waiter;
    var id, otp := s.recs[i].listenId, s.recs[i].otp;
    KeysGone(s, id, otp);
    forall c <- s.recs | WaitsAlive(s, c)
      ensures Waiter(u, s.recs[c].listenId, s.recs[c].otp) == Some(c) <==>
              s.recs[c].listenId != id || s.recs[c].otp != otp
    {
      if s.recs[c].listenId != id || s.recs[c].otp != otp {
        RemovedFound(s, id, otp, c, s.recs[c].listenId, s.recs[c].otp);
      }
    }
    assert forall c :: WaitsAlive(u, c) <==> WaitsAlive(s, c);
    if NoOrphans(u) {
      forall c <- s.recs | WaitsAlive(s, c) ensures s.recs[c].listenId != id || s.recs[c].otp != otp {
        assert WaitsAlive(u, c) && u.recs[c] == s.recs[c];
      }
    }
    if KeysAreOwn(s, i) {
      forall c <- u.recs | u.recs[c].Relay? && u.recs[c].isWaiting && u.recs[c].life == Alive
        ensures Waiter(u, u.recs[c].listenId, u.recs[c].otp) == Some(c)
      {
        assert WaitsAlive(s, c) && u.recs[c] == s.recs[c];
      }
    }
  }

  /** A relay that is gone and does not count as alive takes no one along and strands no one. */
  lemma RelayGoneIff(u: State, t: State, i: SockId)
    requires i in u.recs && u.recs[i].Relay? && u.recs[i].life != Alive && t == u.(recs := u.recs - {i})
    ensures NoOrphans(t) <==> NoOrphans(u)
  {
    if NoOrphans(u) {
      RelayGone(u, t, i);
    }
    if NoOrphans(t) {
      forall c <- u.recs | u.recs[c].Relay? && u.recs[c].isWaiting && u.recs[c].life == Alive
        ensures Waiter(u, u.recs[c].listenId, u.recs[c].otp) == Some(c)
      {
        assert Waiter(t, t.recs[c].listenId, t.recs[c].otp) == Some(c);
      }
    }
  }

  /** The close of a caller that waits strands exactly the others that wait under its keys. */
  lemma RelayCloseStrands(s: State, i: SockId, drained: set<SockId>)
    requires Inv(s) && NoOrphans(s) && i in s.recs && s.recs[i].Relay? && s.recs[i].life == Dead
    ensures NoOrphans(CloseStep(s, i, drained)) <==> (s.recs[i].isWaiting ==> KeysAreOwn(s, i))
  {
    assert s.recs[i].isWaiting ==> s.recs[i].next.None?;
    hide Rendezvous, Symmetric, NotLeftBehind, Known, NoOrphans, KeysAreOwn;
    var t := CloseStep(s, i, drained);
    if s.recs[i].isWaiting {
      var u := RemoveWaiting(s, s.recs[i].listenId, s.recs[i].otp);
      RemovedIff(s, u, i);
      RelayGoneIff(u, t, i);
    } else if s.recs[i].next.Some? {
      var u := s.(recs := DoneAll(s.recs, {s.recs[i].next.value}, drained));
      DoneFades(s, u, {s.recs[i].next.value}, drained);
      FadedNoOrphans(s, u);
      RelayGone(u, t, i);
    } else {
      RelayGone(s, t, i);
    }
  }

  /** Every caller that waits under the listener's id is in the listener's own map. */
  ghost predicate HoldsCallers(s: State, i: SockId)
    requires i in s.recs && s.recs[i].Listen?
  {
    forall c <- s.recs | WaitsAlive(s, c) && s.recs[c].listenId == s.recs[i].listenId :: c in s.recs[i].waiting.Values
  }

  lemma ListenerGoneIff(s: State, u: State, t: State, i: SockId, drained: set<SockId>)
    requires Rendezvous(s) && NoOrphans(s) && i in s.recs && s.recs[i].Listen?
    requires u == s.(recs := DoneAll(s.recs, s.recs[i].waiting.Values, drained)) && Left(u, t, i)
    ensures NoOrphans(t) <==> HoldsCallers(s, i)
  {
    var id := s.recs[i].listenId;
    DoneFades(s, u, s.recs[i].waiting.Values, drained);
    forall c <- t.recs | WaitsAlive(t, c) ensures WaitsAlive(s, c) && c !in s.recs[i].waiting.Values {
    }
    forall c <- s.recs | WaitsAlive(s, c) && c !in s.recs[i].waiting.Values ensures WaitsAlive(t, c) {
    }
    forall c <- s.recs | WaitsAlive(s, c) && s.recs[c].listenId == id && c !in s.recs[i].waiting.Values
      ensures !NoOrphans(t)
    {
      assert WaitsAlive(t, c) && Listener(t, id).None?;
    }
    if HoldsCallers(s, i) {
      forall c <- t.recs | t.recs[c].Relay? && t.recs[c].isWaiting && t.recs[c].life == Alive
        ensures Waiter(t, t.recs[c].listenId, t.recs[c].otp) == Some(c)
      {
        assert WaitsAlive(t, c);
        OtherListenerStays(s, u, t, i, c, drained);
      }
    }
  }

  lemma OtherListenerStays(s: State, u: State, t: State, i: SockId, c: SockId, drained: set<SockId>)
    requires Rendezvous(s) && NoOrphans(s) && i in s.recs && s.recs[i].Listen?
    requires u == s.(recs := DoneAll(s.recs, s.recs[i].waiting.Values, drained)) && Left(u, t, i)
    requires WaitsAlive(s, c) && s.recs[c].listenId != s.recs[i].listenId
    ensures Waiter(t, s.recs[c].listenId, s.recs[c].otp) == Some(c)
  {
    assert Waiter(s, s.recs[c].listenId, s.recs[c].otp) == Some(c);
    var l := Listener(s, s.recs[c].listenId).value;
    assert l != i;
  }

  /** The close of a listener strands exactly the callers that wait under its id and are not in its own
      map: the registration goes by id, whoever holds it. */
  lemma ListenerCloseStrands(s: State, i: SockId, drained: set<SockId>)
    requires Inv(s) && NoOrphans(s) && i in s.recs && s.recs[i].Listen? && s.recs[i].life == Dead
    ensures NoOrphans(CloseStep(s, i, drained)) <==> HoldsCallers(s, i)
  {
    hide Rendezvous, Symmetric, NotLeftBehind, Known, NoOrphans, HoldsCallers;
    ListenerGoneIff(s, s.(recs := DoneAll(s.recs, s.recs[i].waiting.Values, drained)), CloseStep(s, i, drained), i,
                    drained);
  }

  /* ---- Every step, and runs ---- */

  /** What a step must meet to strand no one. */
  ghost predicate Spares(s: State, a: Action) {
    match a
    case Connect(dial) => dial.Named? && Listener(s, dial.id).Some? ==> Waiter(s, dial.id, dial.otp).None?
    case ListenNotify(id, admitted) => admitted ==> NoneWaits(s, id)
    case ListenConnect(_, _) => true
    case Read(_, _, _) => true
    case Drop(_) => true
    case Close(i, _) =>
      i in s.recs && s.recs[i].life == Dead ==>
        if s.recs[i].Relay? then s.recs[i].isWaiting ==> KeysAreOwn(s, i) else HoldsCallers(s, i)
  }

  /** A step strands someone exactly when it does not meet its guard. */
  lemma StepStrandsIff(s: State, a: Action)
    requires Inv(s) && NoOrphans(s)
    ensures NoOrphans(Step(s, a)) <==> Spares(s, a)
  {
    hide Inv, NoOrphans, ConnectStep, ListenNotifyStep, ListenConnectStep, ReadStep, DropStep, Cleanup, NoneWaits,
         KeysAreOwn, HoldsCallers, Waiter;
    match a
    case Connect(dial) => ConnectIff(s, dial);
    case ListenNotify(id, admitted) => ListenNotifyIff(s, id, admitted);
    case ListenConnect(id, otp) => ListenConnectSpares(s, id, otp);
    case Read(i, ping, drained) => ReadSpares(s, i, ping, drained);
    case Drop(i) => DropSpares(s, i);
    case Close(i, drained) =>
      if i in s.recs && s.recs[i].life == Dead {
        if s.recs[i].Relay? {
          RelayCloseStrands(s, i, drained);
        } else {
          ListenerCloseStrands(s, i, drained);
        }
      }
  }

  /** Nobody is stranded at any point of the run up to its step `n`; each of these steps meets its guard. */
  ghost predicate NeverStranded(actions: seq<Action>, n: nat)
    requires n <= |actions|
  {
    forall k :: 0 <= k <= n ==> NoOrphans(Run(actions[..k]))
  }

  ghost predicate AllSpare(actions: seq<Action>, n: nat)
    requires n <= |actions|
  {
    forall k :: 0 <= k < n ==> Spares(Run(actions[..k]), actions[k])
  }

  lemma RunNext(actions: seq<Action>, k: nat)
    requires k < |actions|
    ensures Run(actions[..k + 1]) == Step(Run(actions[..k]), actions[k])
  {
    hide Step;
    assert actions[..k + 1][..k] == actions[..k];
  }

  /** Nobody is stranded at any point of a run exactly when every step of it meets its guard. */
  lemma {:induction false} RunStrandsIff(actions: seq<Action>, n: nat)
    requires n <= |actions|
    ensures NeverStranded(actions, n) <==> AllSpare(actions, n)
    decreases n
  {
    hide NoOrphans, Spares, Step, Run;
    if n == 0 {
      NothingStranded(actions);
    } else {
      var k := n - 1;
      RunStrandsIff(actions, k);
      RunNext(actions, k);
      if NeverStranded(actions, k) {
        RunKeeps(actions[..k]);
        StepStrandsIff(Run(actions[..k]), actions[k]);
      }
    }
  }

  lemma NothingStranded(actions: seq<Action>)
    ensures NoOrphans(Run(actions[..0]))
  {
  }

  /* ---- Runs that strand a caller ---- */

  /** The state in which "L" listens on socket 0 and socket 1 waits for it. */
  const ONE_WAITS := State(
    map[0 := Listen(Alive, "L", map["1" := 1]), 1 := Relay(Alive, None, true, "L", "1")],
    map["L" := 0], 3,
    [Sent(0, Listening("L")), Sent(0, ListenOtp("1")), Issued(1, "L", "1")])

  lemma OneWaitsReached()
    ensures Run([ListenNotify("L", true), Connect(Named("L", "1"))]) == ONE_WAITS
  {
    var a, b := ListenNotify("L", true), Connect(Named("L", "1"));
    assert [a, b][..1] == [a] && [a][..0] == [];
    var s := State(map[0 := Listen(Alive, "L", map[])], map["L" := 0], 1, [Sent(0, Listening("L"))]);
    assert Step(INIT, a) == s && Run([a]) == s;
    assert Step(s, b) == ONE_WAITS;
  }

  /** A run that strands a caller: it waits for a listener whose id is taken over. */
  lemma StrandedRun()
    ensures !NoOrphans(Run([ListenNotify("L", true), Connect(Named("L", "1")), ListenNotify("L", true)]))
  {
    hide NoOrphans;
    var a, b, c := ListenNotify("L", true), Connect(Named("L", "1")), ListenNotify("L", true);
    assert [a, b, c][..2] == [a, b];
    OneWaitsReached();
    OneWaitsStranded();
  }

  lemma OneWaitsStranded()
    ensures !NoOrphans(ListenNotifyStep(ONE_WAITS, "L", true))
  {
    var t := ListenNotifyStep(ONE_WAITS, "L", true);
    assert t.recs[3] == Listen(Alive, "L", map[]) && t.recs[1] == ONE_WAITS.recs[1];
    assert Waiter(t, "L", "1").None?;
  }

  /** A takeover that strands no one can do so later: when the listener that lost its id is closed, it
      takes the registration of the other along. */
  lemma LateStrandedRun()
    ensures var l := ListenNotify("L", true);
            var actions := [l, l, Connect(Named("L", "1")), Drop(0), Close(0, {})];
            NeverStranded(actions, 4) && !NoOrphans(Run(actions))
  {
    hide NoOrphans, Spares, Step;
    var l := ListenNotify("L", true);
    var actions := [l, l, Connect(Named("L", "1")), Drop(0), Close(0, {})];
    LateStates();
    LateSpares();
    assert Run(actions[..0]) == INIT;
    RunNext(actions, 0);
    RunNext(actions, 1);
    RunNext(actions, 2);
    RunNext(actions, 3);
    RunNext(actions, 4);
    assert AllSpare(actions, 4);
    RunStrandsIff(actions, 4);
    RunKeeps(actions[..4]);
    StepStrandsIff(LATE_DROPPED, actions[4]);
    assert actions[..5] == actions;
  }

  /** "L" has been taken over by socket 1; then socket 2 waits for it; and then socket 0 has died. */
  const LATE_FIRST := State(map[0 := Listen(Alive, "L", map[])], map["L" := 0], 1, [Sent(0, Listening("L"))])
  const LATE_TAKEN := State(
    map[0 := Listen(Alive, "L", map[]), 1 := Listen(Alive, "L", map[])], map["L" := 1], 2,
    [Sent(0, Listening("L")), Sent(1, Listening("L"))])
  const LATE_CALLER := Relay(Alive, None, true, "L", "1")
  const LATE_WAITS := State(
    map[0 := Listen(Alive, "L", map[]), 1 := Listen(Alive, "L", map["1" := 2]), 2 := LATE_CALLER], map["L" := 1], 4,
    [Sent(0, Listening("L")), Sent(1, Listening("L")), Sent(1, ListenOtp("1")), Issued(2, "L", "1")])
  const LATE_DROPPED := LATE_WAITS.(recs := LATE_WAITS.recs[0 := Listen(Dead, "L", map[])])

  lemma LateStates()
    ensures var l := ListenNotify("L", true);
            && Step(INIT, l) == LATE_FIRST && Step(LATE_FIRST, l) == LATE_TAKEN
            && Step(LATE_TAKEN, Connect(Named("L", "1"))) == LATE_WAITS
            && Step(LATE_WAITS, Drop(0)) == LATE_DROPPED
  {
  }

  lemma LateSpares()
    ensures var l := ListenNotify("L", true);
            && Spares(INIT, l) && Spares(LATE_FIRST, l) && Spares(LATE_TAKEN, Connect(Named("L", "1")))
            && Spares(LATE_WAITS, Drop(0)) && !Spares(LATE_DROPPED, Close(0, {}))
  {
    assert WaitsAlive(LATE_DROPPED, 2);
  }
}
