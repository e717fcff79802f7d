/** What whole runs of the bridge promise: callers are joined once, by the OTP they were given, and
    none is stranded while OTPs are distinct and no id is taken over. */
module BridgeRuns {
  import opened Options
  import opened Bridges

  /* ---- Events in order ---- */

  predicate JoinOf(e: Event, c: SockId) {
    e.Joined? && e.caller == c
  }

  /** A CONNECTED message to `c`. */
  predicate AckOf(e: Event, c: SockId) {
    e.Sent? && e.receiver == c && e.message.Connected?
  }

  predicate IssueOf(e: Event, c: SockId) {
    e.Issued? && e.caller == c
  }

  ghost predicate NoJoin(trace: seq<Event>, c: SockId) {
    forall e <- trace :: !JoinOf(e, c)
  }

  ghost predicate NoAck(trace: seq<Event>, c: SockId) {
    forall e <- trace :: !AckOf(e, c)
  }

  ghost predicate NoIssue(trace: seq<Event>, c: SockId) {
    forall e <- trace :: !IssueOf(e, c)
  }

  /** `e` may follow `trace`: an OTP is issued to a socket that was not told anything yet; a join
      answers an issue, once; a socket is told CONNECTED once, and a caller only after its join. */
  ghost predicate MayFollow(trace: seq<Event>, e: Event) {
    match e
    case Issued(c, _, _) => NoIssue(trace, c) && NoAck(trace, c)
    case Joined(_, c, id, otp) => Issued(c, id, otp) in trace && NoJoin(trace, c)
    case Sent(r, message) =>
      message.Connected? ==>
        && NoAck(trace, r)
        && (!NoIssue(trace, r) ==> !NoJoin(trace, r))
  }

  /** Every event may follow the ones before it. */
  ghost predicate InOrder(trace: seq<Event>) {
    forall i :: 0 <= i < |trace| ==> MayFollow(trace[..i], trace[i])
  }

  lemma InOrderMore(trace: seq<Event>, e: Event)
    requires InOrder(trace) && MayFollow(trace, e)
    ensures InOrder(trace + [e])
  {
    hide MayFollow;
    var t := trace + [e];
    forall i | 0 <= i < |t| ensures MayFollow(t[..i], t[i]) {
      if i < |trace| {
        assert t[..i] == trace[..i];
      } else {
        assert t[..i] == trace;
      }
    }
  }

  /* ---- The log of a state ---- */

  predicate Below(e: Event, n: SockId) {
    match e
    case Issued(c, _, _) => c < n
    case Joined(s, c, _, _) => s < n && c < n
    case Sent(r, _) => r < n
  }

  /** Events name sockets there have been; a caller that waits was issued its OTP, and has been
      neither joined nor told so. */
  ghost predicate Logged(s: State) {
    && (forall e <- s.trace :: Below(e, s.nextId))
    && (forall c <- s.recs | s.recs[c].Relay? && s.recs[c].isWaiting ::
          && Issued(c, s.recs[c].listenId, s.recs[c].otp) in s.trace
          && NoJoin(s.trace, c) && NoAck(s.trace, c))
    && InOrder(s.trace)
  }

  lemma FreshIsNew(s: State, c: SockId)
    requires Logged(s) && c >= s.nextId
    ensures NoJoin(s.trace, c) && NoAck(s.trace, c) && NoIssue(s.trace, c)
  {
  }

  lemma NothingMore(trace: seq<Event>, e: Event, c: SockId, f: Event)
    ensures NoJoin(trace, c) && !JoinOf(e, c) ==> NoJoin(trace + [e], c)
    ensures NoAck(trace, c) && !AckOf(e, c) ==> NoAck(trace + [e], c)
    ensures NoIssue(trace, c) && !IssueOf(e, c) ==> NoIssue(trace + [e], c)
    ensures f in trace || f == e ==> f in trace + [e]
  {
  }

  /** Sockets that wait were waiting before, and nothing happened to them. */
  lemma LoggedMore(s: State, t: State, e: Event)
    requires Logged(s) && t.trace == s.trace + [e] && s.nextId <= t.nextId
    requires Below(e, t.nextId) && MayFollow(s.trace, e)
    requires forall c <- t.recs | t.recs[c].Relay? && t.recs[c].isWaiting ::
               && !JoinOf(e, c) && !AckOf(e, c)
               && ((c in s.recs && s.recs[c].Relay? && s.recs[c].isWaiting
                    && s.recs[c].listenId == t.recs[c].listenId && s.recs[c].otp == t.recs[c].otp)
                   || (e == Issued(c, t.recs[c].listenId, t.recs[c].otp) && NoJoin(s.trace, c) && NoAck(s.trace, c)))
    ensures Logged(t)
  {
    hide MayFollow, InOrder, NoJoin, NoAck, JoinOf, AckOf;
    InOrderMore(s.trace, e);
    forall f <- t.trace ensures Below(f, t.nextId) {
      assert f in s.trace || f == e;
    }
    forall c <- t.recs | t.recs[c].Relay? && t.recs[c].isWaiting
      ensures Issued(c, t.recs[c].listenId, t.recs[c].otp) in t.trace && NoJoin(t.trace, c) && NoAck(t.trace, c)
    {
      NothingMore(s.trace, e, c, Issued(c, t.recs[c].listenId, t.recs[c].otp));
    }
  }

  lemma LoggedSame(s: State, t: State)
    requires Logged(s) && t.trace == s.trace && s.nextId <= t.nextId
    requires forall c <- t.recs | t.recs[c].Relay? && t.recs[c].isWaiting ::
               c in s.recs && s.recs[c].Relay? && s.recs[c].isWaiting
               && s.recs[c].listenId == t.recs[c].listenId && s.recs[c].otp == t.recs[c].otp
    ensures Logged(t)
  {
    hide InOrder;
    assert forall e <- s.trace :: Below(e, s.nextId) ==> Below(e, t.nextId);
  }

  /** A message other than CONNECTED, or CONNECTED to a socket that was neither told so before nor
      waits for it. */
  lemma LoggedSend(s: State, r: SockId, message: Message)
    requires Logged(s) && Known(s)
    requires message.Connected? ==>
               && NoAck(s.trace, r) && (!NoIssue(s.trace, r) ==> !NoJoin(s.trace, r))
               && (r in s.recs && s.recs[r].Relay? ==> !s.recs[r].isWaiting)
    ensures Logged(Send(s, r, message))
  {
    if Send(s, r, message) != s {
      LoggedMore(s, Send(s, r, message), Sent(r, message));
    }
  }

  lemma ConnectLogs(s: State, dial: Dial)
    requires Inv(s) && Logged(s)
    ensures Logged(ConnectStep(s, dial))
  {
    hide InOrder, NoIssue, NoAck, NoJoin, Rendezvous, Symmetric, NotLeftBehind, Below, AddWaiting;
    var t := s.(nextId := s.nextId + 2);
    LoggedSame(s, t);
    FreshIsNew(s, s.nextId);
    match dial
    case Rejected =>
    case Address(reached) =>
      if reached {
        PairLogs(t, s.nextId, s.nextId + 1);
      }
    case Named(id, otp) =>
      if Listener(s, id).Some? {
        IssueLogs(t, id, otp, s.nextId);
      }
  }

  lemma PairLogs(t: State, i: SockId, j: SockId)
    requires Known(t) && Logged(t) && i < t.nextId && j < t.nextId
    requires NoIssue(t.trace, i) && NoAck(t.trace, i)
    ensures var linked := t.recs[i := NEW_RELAY.(next := Some(j))][j := NEW_RELAY.(next := Some(i))];
            Logged(Send(t.(recs := linked), i, Connected(1)))
  {
    var u := t.(recs := t.recs[i := NEW_RELAY.(next := Some(j))][j := NEW_RELAY.(next := Some(i))]);
    LoggedSame(t, u);
    LoggedSend(u, i, Connected(1));
  }

  lemma IssueLogs(t: State, id: ListenId, otp: Otp, c: SockId)
    requires Known(t) && Logged(t) && Listener(t, id).Some? && c < t.nextId && c !in t.recs
    requires NoIssue(t.trace, c) && NoAck(t.trace, c) && NoJoin(t.trace, c)
    ensures var u := Send(t, Listener(t, id).value, ListenOtp(otp));
            Logged(AddWaiting(u.(recs := u.recs[c := Relay(Alive, None, true, id, otp)],
                                 trace := u.trace + [Issued(c, id, otp)]), id, otp, c))
  {
    hide Logged, InOrder, NoIssue, NoAck, NoJoin, Known;
    var u := Send(t, Listener(t, id).value, ListenOtp(otp));
    LoggedSend(t, Listener(t, id).value, ListenOtp(otp));
    OtpIsNone(t, Listener(t, id).value, otp, c);
    var v := u.(recs := u.recs[c := Relay(Alive, None, true, id, otp)], trace := u.trace + [Issued(c, id, otp)]);
    LoggedMore(u, v, Issued(c, id, otp));
    AddedSame(v, id, otp, c);
  }

  lemma AddedSame(v: State, id: ListenId, otp: Otp, c: SockId)
    requires Logged(v)
    ensures Logged(AddWaiting(v, id, otp, c))
  {
    hide Logged;
    LoggedSame(v, AddWaiting(v, id, otp, c));
  }

  /** To send an OTP is none of the three. */
  lemma OtpIsNone(t: State, l: SockId, otp: Otp, c: SockId)
    requires NoIssue(t.trace, c) && NoAck(t.trace, c) && NoJoin(t.trace, c)
    ensures var trace := Send(t, l, ListenOtp(otp)).trace;
            NoIssue(trace, c) && NoAck(trace, c) && NoJoin(trace, c)
  {
  }

  lemma ListenNotifyLogs(s: State, id: ListenId, admitted: bool)
    requires Inv(s) && Logged(s)
    ensures Logged(ListenNotifyStep(s, id, admitted))
  {
    var t := s.(nextId := s.nextId + 1);
    LoggedSame(s, t);
    if admitted {
      var u := t.(recs := t.recs[s.nextId := Listen(Alive, id, map[])], listening := t.listening[id := s.nextId]);
      LoggedSame(t, u);
      LoggedSend(u, s.nextId, Listening(id));
    }
  }

  lemma ListenConnectLogs(s: State, id: ListenId, otp: Otp)
    requires Inv(s) && Logged(s)
    ensures Logged(ListenConnectStep(s, id, otp))
  {
    hide InOrder, NoIssue, NoAck, NoJoin, Symmetric, NotLeftBehind, Below;
    var n, t := s.nextId, s.(nextId := s.nextId + 1);
    LoggedSame(s, t);
    FreshIsNew(s, n);
    if Waiter(s, id, otp).Some? {
      var c := Waiter(s, id, otp).value;
      assert WaitsUnder(s, c, id, otp);
      hide Rendezvous;
      var u := RemoveWaiting(t, id, otp);
      LoggedSame(t, u);
      var caller := u.recs[c].(next := Some(n), isWaiting := false);
      var v := u.(recs := u.recs[n := NEW_RELAY.(next := Some(c))][c := caller],
                  trace := u.trace + [Joined(n, c, id, otp)]);
      JoinLogs(u, v, n, c, id, otp);
    }
  }

  lemma JoinLogs(u: State, v: State, n: SockId, c: SockId, id: ListenId, otp: Otp)
    requires Known(u) && Logged(u) && n !in u.recs && n < u.nextId && v.nextId == u.nextId
    requires NoIssue(u.trace, n) && NoAck(u.trace, n) && WaitsUnder(u, c, id, otp)
    requires v.recs == u.recs[n := NEW_RELAY.(next := Some(c))][c := u.recs[c].(next := Some(n), isWaiting := false)]
    requires v.trace == u.trace + [Joined(n, c, id, otp)]
    ensures Logged(Send(Send(v, n, Connected(1)), c, Connected(2)))
  {
    hide Logged, NoIssue, NoAck, NoJoin, InOrder, MayFollow, Send;
    JoinLogged(u, v, n, c, id, otp);
    assert forall a <- v.recs | a != n && a != c :: v.recs[a] == u.recs[a];
    assert Known(v);
    JoinTold(v, n, c);
  }

  lemma JoinLogged(u: State, v: State, n: SockId, c: SockId, id: ListenId, otp: Otp)
    requires Logged(u) && WaitsUnder(u, c, id, otp) && n < u.nextId && c < u.nextId && v.nextId == u.nextId
    requires v.recs == u.recs[n := NEW_RELAY.(next := Some(c))][c := u.recs[c].(next := Some(n), isWaiting := false)]
    requires v.trace == u.trace + [Joined(n, c, id, otp)]
    requires NoIssue(u.trace, n) && NoAck(u.trace, n)
    ensures Logged(v) && NoIssue(v.trace, n) && NoAck(v.trace, n) && NoAck(v.trace, c) && !NoJoin(v.trace, c)
  {
    hide InOrder, NoAck, NoIssue;
    var e := Joined(n, c, id, otp);
    LoggedMore(u, v, e);
    NothingMore(u.trace, e, n, e);
    NothingMore(u.trace, e, c, e);
  }

  lemma JoinTold(v: State, n: SockId, c: SockId)
    requires Known(v) && Logged(v) && n in v.recs && c in v.recs && n != c
    requires v.recs[n].Relay? && v.recs[c].Relay? && !v.recs[n].isWaiting && !v.recs[c].isWaiting
    requires NoAck(v.trace, n) && NoIssue(v.trace, n) && NoAck(v.trace, c) && !NoJoin(v.trace, c)
    ensures Logged(Send(Send(v, n, Connected(1)), c, Connected(2)))
  {
    LoggedSend(v, n, Connected(1));
    var w := Send(v, n, Connected(1));
    assert NoAck(w.trace, c) && !NoJoin(w.trace, c);
    LoggedSend(w, c, Connected(2));
  }

  lemma CloseLogs(s: State, i: SockId, drained: set<SockId>)
    requires Inv(s) && Logged(s)
    ensures Logged(CloseStep(s, i, drained))
  {
    LoggedSame(s, CloseStep(s, i, drained));
  }

  lemma ReadLogs(s: State, i: SockId, ping: bool, drained: set<SockId>)
    requires Inv(s) && Logged(s)
    ensures Logged(ReadStep(s, i, ping, drained))
  {
    if i in s.recs {
      LoggedSame(s, s.(recs := DoneAll(s.recs, {i}, drained)));
      LoggedSend(s, i, Pong);
      if s.recs[i].Relay? && s.recs[i].next.Some? {
        LoggedSend(s, s.recs[i].next.value, Data);
      }
    }
  }

  lemma StepLogs(s: State, a: Action)
    requires Inv(s) && Logged(s)
    ensures Logged(Step(s, a))
  {
    hide Inv, Logged, ConnectStep, ListenNotifyStep, ListenConnectStep, ReadStep, CloseStep;
    match a
    case Connect(dial) => ConnectLogs(s, dial);
    case ListenNotify(id, admitted) => ListenNotifyLogs(s, id, admitted);
    case ListenConnect(id, otp) => ListenConnectLogs(s, id, otp);
    case Read(i, ping, drained) => ReadLogs(s, i, ping, drained);
    case Drop(i) => LoggedSame(s, Step(s, a)) by { assert Logged(s); }
    case Close(i, drained) => CloseLogs(s, i, drained);
  }

  /** Every reachable state. */
  lemma {:induction false} RunLogs(actions: seq<Action>)
    ensures Logged(Run(actions))
    decreases |actions|
  {
    if actions != [] {
      var before := actions[..|actions| - 1];
      RunKeeps(before);
      RunLogs(before);
      StepLogs(Run(before), actions[|actions| - 1]);
    }
  }

  /* ---- One-shot rendezvous ---- */

  /** No OTP of a listener is issued to two callers. */
  ghost predicate DistinctOtps(trace: seq<Event>) {
    forall c, d, id, otp :: Issued(c, id, otp) in trace && Issued(d, id, otp) in trace ==> c == d
  }

  lemma JoinAnswers(trace: seq<Event>, i: nat)
    requires InOrder(trace) && i < |trace| && trace[i].Joined?
    ensures exists k :: 0 <= k < i && trace[k] == Issued(trace[i].caller, trace[i].id, trace[i].otp)
    ensures forall j :: 0 <= j < i ==> !JoinOf(trace[j], trace[i].caller)
  {
    assert MayFollow(trace[..i], trace[i]);
    var e := Issued(trace[i].caller, trace[i].id, trace[i].otp);
    var k :| 0 <= k < i && trace[..i][k] == e;
    assert trace[k] == e;
    forall j | 0 <= j < i ensures !JoinOf(trace[j], trace[i].caller) {
      assert trace[..i][j] == trace[j];
    }
  }

  /** In any run, a join answers an OTP that was issued before to that very caller, and no caller is
      joined twice. When OTPs are distinct, no OTP is answered twice, and the caller that is joined
      is the only one it was issued to. */
  lemma OneShot(actions: seq<Action>, i: nat)
    requires i < |Run(actions).trace| && Run(actions).trace[i].Joined?
    ensures var t := Run(actions).trace;
            && (exists k :: 0 <= k < i && t[k] == Issued(t[i].caller, t[i].id, t[i].otp))
            && (forall j :: 0 <= j < i ==> !JoinOf(t[j], t[i].caller))
    ensures var t := Run(actions).trace;
            DistinctOtps(t) ==>
              && (forall c :: Issued(c, t[i].id, t[i].otp) in t ==> c == t[i].caller)
              && (forall j :: 0 <= j < i && t[j].Joined? ==> t[j].id != t[i].id || t[j].otp != t[i].otp)
  {
    var t := Run(actions).trace;
    RunLogs(actions);
    JoinAnswers(t, i);
    forall j | 0 <= j < i && t[j].Joined? && DistinctOtps(t) ensures t[j].id != t[i].id || t[j].otp != t[i].otp {
      JoinAnswers(t, j);
      assert Issued(t[j].caller, t[j].id, t[j].otp) in t && Issued(t[i].caller, t[i].id, t[i].otp) in t;
    }
  }

  /** In any run, no socket is sent CONNECTED twice, and a caller that was issued an OTP is sent it
      only after its join. */
  lemma ToldOnce(actions: seq<Action>, i: nat, c: SockId)
    requires i < |Run(actions).trace| && AckOf(Run(actions).trace[i], c)
    ensures var t := Run(actions).trace;
            && (forall j :: 0 <= j < |t| && AckOf(t[j], c) ==> j == i)
            && ((exists k :: 0 <= k < |t| && IssueOf(t[k], c)) ==> exists k :: 0 <= k < i && JoinOf(t[k], c))
  {
    var t := Run(actions).trace;
    RunLogs(actions);
    AckFollows(t, i, c);
    forall j | 0 <= j < |t| && AckOf(t[j], c) ensures j == i {
      AckFollows(t, j, c);
    }
    if k :| 0 <= k < |t| && IssueOf(t[k], c) {
      IssuedBeforeAck(t, i, k, c);
      assert t[..i][k] == t[k];
      assert !NoIssue(t[..i], c);
      var e :| e in t[..i] && JoinOf(e, c);
    }
  }

  lemma AckFollows(t: seq<Event>, i: nat, c: SockId)
    requires InOrder(t) && i < |t| && AckOf(t[i], c)
    ensures forall j :: 0 <= j < i ==> !AckOf(t[j], c)
    ensures !NoIssue(t[..i], c) ==> !NoJoin(t[..i], c)
  {
    assert MayFollow(t[..i], t[i]);
    forall j | 0 <= j < i ensures !AckOf(t[j], c) {
      assert t[..i][j] == t[j];
    }
  }

  lemma IssuedBeforeAck(t: seq<Event>, i: nat, k: nat, c: SockId)
    requires InOrder(t) && i < |t| && k < |t| && AckOf(t[i], c) && IssueOf(t[k], c)
    ensures k < i
  {
    assert MayFollow(t[..k], t[k]);
    assert forall j :: 0 <= j < k ==> t[j] in t[..k];
  }

  /** A CONNECT that is reached makes two live relays, linked to each other, and tells the first; one
      that is for a registered listener makes a live caller, which waits in the listener's map unless
      its OTP is taken there, and asks the listener. Any other only uses up two identities. */
  lemma ConnectTells(s: State, dial: Dial)
    requires Inv(s)
    ensures var t, n := ConnectStep(s, dial), s.nextId;
            match dial
            case Rejected => t == s.(nextId := n + 2)
            case Address(reached) =>
              if !reached then t == s.(nextId := n + 2)
              else
                && t.recs == s.recs[n := Relay(Alive, Some(n + 1), false, "", "")]
                                   [n + 1 := Relay(Alive, Some(n), false, "", "")]
                && t.listening == s.listening && t.nextId == n + 2
                && t.trace == s.trace + [Sent(n, Connected(1))]
            case Named(id, otp) =>
              if id !in s.listening then t == s.(nextId := n + 2)
              else
                var l := s.listening[id];
                && l in s.recs && l != n && s.recs[l].Listen?
                && var waiting := s.recs[l].waiting;
                && t.recs == s.recs[n := Relay(Alive, None, true, id, otp)]
                                   [l := Listen(s.recs[l].life, s.recs[l].listenId,
                                                if otp in waiting then waiting else waiting[otp := n])]
                && t.listening == s.listening && t.nextId == n + 2
                && t.trace == s.trace + (if s.recs[l].life == Dead then [] else [Sent(l, ListenOtp(otp))])
                              + [Issued(n, id, otp)]
  {
    hide Symmetric, NotLeftBehind, WaitsUnder;
  }

  /** A LISTEN_NOTIFY that is admitted registers a live listener without callers under the id, whoever
      had it, and tells it so. */
  lemma ListenNotifyTells(s: State, id: ListenId, admitted: bool)
    requires Inv(s)
    ensures var t, n := ListenNotifyStep(s, id, admitted), s.nextId;
            if !admitted then t == s.(nextId := n + 1)
            else
              && t == State(s.recs[n := Listen(Alive, id, map[])], s.listening[id := n], n + 1,
                            s.trace + [Sent(n, Listening(id))])
              && Listener(t, id) == Some(n)
  {
  }

  /** A LISTEN_CONNECT that is answered links a new live relay and the caller to each other, takes the
      caller out of the map, and only then tells the new one, and the caller unless it is dead. Any
      other only uses up an identity. */
  lemma ListenConnectTells(s: State, id: ListenId, otp: Otp)
    requires Inv(s)
    ensures var t, n := ListenConnectStep(s, id, otp), s.nextId;
            if id !in s.listening || otp !in s.recs[s.listening[id]].waiting then t == s.(nextId := n + 1)
            else
              var l := s.listening[id];
              var c := s.recs[l].waiting[otp];
              && c in s.recs && s.recs[c].Relay? && c != l && c != n && l != n
              && t.recs == s.recs[n := Relay(Alive, Some(c), false, "", "")]
                                 [c := Relay(s.recs[c].life, Some(n), false, s.recs[c].listenId, s.recs[c].otp)]
                                 [l := Listen(s.recs[l].life, s.recs[l].listenId, s.recs[l].waiting - {otp})]
              && t.listening == s.listening && t.nextId == n + 1
              && t.trace == s.trace + [Joined(n, c, id, otp), Sent(n, Connected(1))]
                            + (if s.recs[c].life == Dead then [] else [Sent(c, Connected(2))])
  {
    hide Symmetric, NotLeftBehind;
    if id in s.listening && otp in s.recs[s.listening[id]].waiting {
      assert WaitsUnder(s, s.recs[s.listening[id]].waiting[otp], id, otp);
    }
  }

  /** Data goes to the partner, and to no one else, while both ends are alive. A caller that talks
      before it is joined is ended, at once if nothing is left to write to it, and a ping is answered
      unless the listener is dead. Nothing else changes. */
  lemma ReadTells(s: State, i: SockId, ping: bool, drained: set<SockId>)
    requires Inv(s) && i in s.recs
    ensures var t := ReadStep(s, i, ping, drained);
            match s.recs[i]
            case Relay(life, next, isWaiting, id, otp) =>
              if next.None? then
                var ended := if life == Dead || i in drained then Dead else WillDie;
                t == s.(recs := s.recs[i := Relay(ended, None, isWaiting, id, otp)])
              else
                t == s.(trace := s.trace +
                          (if life == Alive && s.recs[next.value].life == Alive then [Sent(next.value, Data)] else []))
            case Listen(life, _, _) =>
              t == s.(trace := s.trace + (if ping && life != Dead then [Sent(i, Pong)] else []))
  {
    hide Rendezvous;
    AlivePartner(s, i);
    assert s.trace + [] == s.trace;
  }

  /** A dead socket is removed, and nothing happens to one that is not. Of the others, the partner, or
      each caller that waited, is dead if it was or if nothing is left to write to it, and otherwise
      dies when that is written; a listener loses the caller that waited for it; and no other changes. */
  lemma CloseTells(s: State, i: SockId, drained: set<SockId>)
    requires Inv(s) && i in s.recs
    ensures var t, r := CloseStep(s, i, drained), s.recs[i];
            if r.life != Dead then t == s
            else
              && t.recs.Keys == s.recs.Keys - {i} && t.nextId == s.nextId && t.trace == s.trace
              && t.listening == (if r.Relay? then s.listening else s.listening - {r.listenId})
              && forall j <- t.recs ::
                   t.recs[j] ==
                   if r.Relay? && r.isWaiting && r.listenId in s.listening && s.listening[r.listenId] == j then
                     Listen(s.recs[j].life, s.recs[j].listenId, s.recs[j].waiting - {r.otp})
                   else if (if r.Relay? then r.next == Some(j) else j in r.waiting.Values) then
                     s.recs[j].(life := if s.recs[j].life == Dead || j in drained then Dead else WillDie)
                   else s.recs[j]
  {
    hide NotLeftBehind, WaitsUnder;
  }

  /** A socket whose connection breaks is dead, so the next close removes it. */
  lemma DroppedCloses(s: State, i: SockId, drained: set<SockId>)
    requires i in s.recs
    ensures var t := Step(s, Drop(i));
            && t == s.(recs := s.recs[i := s.recs[i].(life := Dead)])
            && i !in Step(t, Close(i, drained)).recs
  {
  }

  /* ---- What is told is true ---- */

  /** After a reached CONNECT, data from either end goes to the other, and to no one else. */
  lemma ConnectRelays(s: State, ping: bool, drained: set<SockId>)
    requires Inv(s)
    ensures var t, n := Step(s, Connect(Address(true))), s.nextId;
            && Step(t, Read(n, ping, drained)) == t.(trace := t.trace + [Sent(n + 1, Data)])
            && Step(t, Read(n + 1, ping, drained)) == t.(trace := t.trace + [Sent(n, Data)])
  {
    hide Inv, ConnectStep, ReadStep;
    ConnectTells(s, Address(true));
    ConnectKeeps(s, Address(true));
    var t, n := ConnectStep(s, Address(true)), s.nextId;
    ReadTells(t, n, ping, drained);
    ReadTells(t, n + 1, ping, drained);
  }

  /** After a LISTEN_CONNECT that is answered, data goes between the new socket and the caller, both
      ways, exactly when the caller is still alive. */
  lemma ListenConnectRelays(s: State, id: ListenId, otp: Otp, c: SockId, ping: bool, drained: set<SockId>)
    requires Inv(s) && Waiter(s, id, otp) == Some(c)
    ensures var t, n := Step(s, ListenConnect(id, otp)), s.nextId;
            && Step(t, Read(n, ping, drained)) ==
               t.(trace := t.trace + (if s.recs[c].life == Alive then [Sent(c, Data)] else []))
            && Step(t, Read(c, ping, drained)) ==
               t.(trace := t.trace + (if s.recs[c].life == Alive then [Sent(n, Data)] else []))
  {
    hide Inv, ListenConnectStep, ReadStep;
    ListenConnectTells(s, id, otp);
    ListenConnectKeeps(s, id, otp);
    var t, n := ListenConnectStep(s, id, otp), s.nextId;
    ReadTells(t, n, ping, drained);
    ReadTells(t, c, ping, drained);
  }

  /* ---- No orphans ---- */

  lemma TraceGrows(s: State, a: Action)
    ensures s.trace <= Step(s, a).trace
  {
  }

  /** No LISTEN_NOTIFY takes over an id while its listener is registered. */
  ghost predicate NoTakeover(actions: seq<Action>)
    decreases |actions|
  {
    actions == [] ||
    var before, a := actions[..|actions| - 1], actions[|actions| - 1];
    NoTakeover(before) && (a.ListenNotify? && a.admitted ==> a.id !in Run(before).listening)
  }

  /** A fresh OTP is one that no one waits with. */
  lemma DistinctIsOrderly(s: State, dial: Dial)
    requires Inv(s) && Logged(s) && DistinctOtps(ConnectStep(s, dial).trace)
    ensures Orderly(s, Connect(dial))
  {
    if dial.Named? && Listener(s, dial.id).Some? {
      var t, e := ConnectStep(s, dial), Issued(s.nextId, dial.id, dial.otp);
      assert t.trace[|t.trace| - 1] == e;
      forall c <- s.recs | s.recs[c].Relay? && s.recs[c].isWaiting
        ensures s.recs[c].listenId != dial.id || s.recs[c].otp != dial.otp
      {
        TraceGrows(s, Connect(dial));
        assert Issued(c, s.recs[c].listenId, s.recs[c].otp) in t.trace;
      }
    }
  }

  /** In any run with distinct OTPs and no takeover, every caller that waits and is alive is found
      under its own keys. */
  lemma {:induction false} NoneStranded(actions: seq<Action>)
    requires DistinctOtps(Run(actions).trace) && NoTakeover(actions)
    ensures Tidy(Run(actions))
    decreases |actions|
  {
    if actions != [] {
      var before, a := actions[..|actions| - 1], actions[|actions| - 1];
      var s := Run(before);
      TraceGrows(s, a);
      NoneStranded(before);
      RunKeeps(before);
      RunLogs(before);
      if a.Connect? {
        DistinctIsOrderly(s, a.dial);
      }
      TidyStep(s, a);
    }
  }
}
