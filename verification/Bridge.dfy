/** The bridge's rendezvous and relay protocol as a state machine over its sockets, and what every
    run of it keeps. Socket identities are never reused. */
module Bridges {
  import opened Options

  type SockId = nat
  type ListenId = string
  type Otp = string

  datatype Life = Alive | WillDie | Dead

  /** A registered socket with its hn_Socket. A relay waits under the keys `listenId` and `otp`; a
      listener holds the callers that wait for it. */
  datatype Rec =
    | Relay(life: Life, next: Option<SockId>, isWaiting: bool, listenId: ListenId, otp: Otp)
    | Listen(life: Life, listenId: ListenId, waiting: map<Otp, SockId>)

  /** `Connected` counts the message terminators it was sent with. */
  datatype Message = Connected(ends: nat) | Listening(id: ListenId) | ListenOtp(otp: Otp) | Pong | Data

  datatype Event =
    | Issued(caller: SockId, id: ListenId, otp: Otp)
    | Joined(socket: SockId, caller: SockId, id: ListenId, otp: Otp)
    | Sent(receiver: SockId, message: Message)

  datatype State = State(
    recs: map<SockId, Rec>,
    listening: map<ListenId, SockId>,
    nextId: SockId,
    trace: seq<Event>)

  const INIT := State(map[], map[], 0, [])

  /** How a CONNECT request goes on the network: the first part of its URL cannot be parsed or fails
      to authenticate, is an address that is reached with all its hops or not, or is none. */
  datatype Dial = Rejected | Address(reached: bool) | Named(id: ListenId, otp: Otp)

  /** One event of the loop. `drained` are the sockets whose write buffer is empty. */
  datatype Action =
    | Connect(dial: Dial)
    | ListenNotify(id: ListenId, admitted: bool)
    | ListenConnect(id: ListenId, otp: Otp)
    | Read(socket: SockId, ping: bool, drained: set<SockId>)
    | Drop(socket: SockId)
    | Close(socket: SockId, drained: set<SockId>)

  /* ---- Steps ---- */

  /** hn_sendMsg: nothing leaves a dead socket. */
  function Send(s: State, i: SockId, message: Message): State {
    if i in s.recs && s.recs[i].life != Dead then s.(trace := s.trace + [Sent(i, message)]) else s
  }

  function DoneLife(life: Life, drained: bool): Life {
    if life == Dead || drained then Dead else WillDie
  }

  function SetLife(r: Rec, life: Life): Rec {
    r.(life := life)
  }

  /** sock_done for each of `socks`. A socket that was removed is passed over. */
  function DoneAll(recs: map<SockId, Rec>, socks: set<SockId>, drained: set<SockId>): map<SockId, Rec> {
    map i | i in recs :: if i in socks then SetLife(recs[i], DoneLife(recs[i].life, i in drained)) else recs[i]
  }

  /** The listener that is registered under `id`. */
  function Listener(s: State, id: ListenId): Option<SockId> {
    if id in s.listening && s.listening[id] in s.recs && s.recs[s.listening[id]].Listen? then Some(s.listening[id])
    else None
  }

  /** getWaitingSocket. */
  function Waiter(s: State, id: ListenId, otp: Otp): Option<SockId> {
    match Listener(s, id)
    case None => None
    case Some(l) => if otp in s.recs[l].waiting then Some(s.recs[l].waiting[otp]) else None
  }

  /** removeWaitingSocket. */
  function RemoveWaiting(s: State, id: ListenId, otp: Otp): State {
    match Listener(s, id)
    case None => s
    case Some(l) => s.(recs := s.recs[l := s.recs[l].(waiting := s.recs[l].waiting - {otp})])
  }

  /** addWaitingSock: an OTP that is taken is left as it is. */
  function AddWaiting(s: State, id: ListenId, otp: Otp, caller: SockId): State {
    match Listener(s, id)
    case None => s
    case Some(l) =>
      if otp in s.recs[l].waiting then s
      else s.(recs := s.recs[l := s.recs[l].(waiting := s.recs[l].waiting[otp := caller])])
  }

  const NEW_RELAY := Relay(Alive, None, false, "", "")

  /** The CONNECT branch of handleNew, with createRelay and initializeConnect. */
  function ConnectStep(s: State, dial: Dial): State {
    var sock, nextSock := s.nextId, s.nextId + 1;
    var t := s.(nextId := s.nextId + 2);
    match dial
    case Rejected => t
    case Address(reached) =>
      if !reached then t
      else
        var linked := t.recs[sock := NEW_RELAY.(next := Some(nextSock))][nextSock := NEW_RELAY.(next := Some(sock))];
        Send(t.(recs := linked), sock, Connected(1))
    case Named(id, otp) =>
      match Listener(s, id)
      case None => t
      case Some(l) =>
        var u := Send(t, l, ListenOtp(otp));
        var waiting := Relay(Alive, None, true, id, otp);
        AddWaiting(u.(recs := u.recs[sock := waiting], trace := u.trace + [Issued(sock, id, otp)]), id, otp, sock)
  }

  /** The LISTEN_NOTIFY branch: an id that is taken is taken over. */
  function ListenNotifyStep(s: State, id: ListenId, admitted: bool): State {
    var sock := s.nextId;
    var t := s.(nextId := s.nextId + 1);
    if !admitted then t
    else
      Send(t.(recs := t.recs[sock := Listen(Alive, id, map[])], listening := t.listening[id := sock]),
           sock, Listening(id))
  }

  /** The LISTEN_CONNECT branch. The second message is sent from the buffer of the first, which a
      terminator has been added to. */
  function ListenConnectStep(s: State, id: ListenId, otp: Otp): State {
    var sock := s.nextId;
    var t := s.(nextId := s.nextId + 1);
    match Waiter(s, id, otp)
    case None => t
    case Some(c) =>
      var u := RemoveWaiting(t, id, otp);
      if c !in u.recs || !u.recs[c].Relay? then t
      else
        var caller := u.recs[c].(next := Some(sock), isWaiting := false);
        var v := u.(recs := u.recs[sock := NEW_RELAY.(next := Some(c))][c := caller],
                    trace := u.trace + [Joined(sock, c, id, otp)]);
        Send(Send(v, sock, Connected(1)), c, Connected(2))
  }

  /** handleRead: a caller that talks too early is closed; a relay passes data on. */
  function ReadStep(s: State, i: SockId, ping: bool, drained: set<SockId>): State {
    if i !in s.recs then s
    else
      match s.recs[i]
      case Relay(life, next, isWaiting, _, _) =>
        if isWaiting || next.None? then s.(recs := DoneAll(s.recs, {i}, drained))
        else if life == Alive && next.value in s.recs && s.recs[next.value].life == Alive then
          Send(s, next.value, Data)
        else s
      case Listen(_, _, _) => if ping then Send(s, i, Pong) else s
  }

  function DropStep(s: State, i: SockId): State {
    if i in s.recs then s.(recs := s.recs[i := SetLife(s.recs[i], Dead)]) else s
  }

  /** What hn_sockCleanup does before the socket itself is removed. */
  function Cleanup(s: State, i: SockId, drained: set<SockId>): State
    requires i in s.recs
  {
    match s.recs[i]
    case Relay(_, next, isWaiting, id, otp) =>
      var t := if next.Some? then s.(recs := DoneAll(s.recs, {next.value}, drained)) else s;
      if isWaiting then RemoveWaiting(t, id, otp) else t
    case Listen(_, id, waiting) =>
      s.(recs := DoneAll(s.recs, waiting.Values, drained), listening := s.listening - {id})
  }

  /** handleClose, once the socket is dead. */
  function CloseStep(s: State, i: SockId, drained: set<SockId>): State {
    if i !in s.recs || s.recs[i].life != Dead then s
    else
      var t := Cleanup(s, i, drained);
      t.(recs := t.recs - {i})
  }

  function Step(s: State, a: Action): State {
    match a
    case Connect(dial) => ConnectStep(s, dial)
    case ListenNotify(id, admitted) => ListenNotifyStep(s, id, admitted)
    case ListenConnect(id, otp) => ListenConnectStep(s, id, otp)
    case Read(i, ping, drained) => ReadStep(s, i, ping, drained)
    case Drop(i) => DropStep(s, i)
    case Close(i, drained) => CloseStep(s, i, drained)
  }

  function Run(actions: seq<Action>): State {
    if actions == [] then INIT
    else Step(Run(actions[..|actions| - 1]), actions[|actions| - 1])
  }

  /* ---- Rendezvous ---- */

  ghost predicate Known(s: State) {
    && (forall i <- s.recs :: i < s.nextId)
    && (forall i <- s.recs :: s.recs[i].Relay? && s.recs[i].next.Some? ==> s.recs[i].next.value < s.nextId)
  }

  /** `c` waits, unlinked, under exactly these keys. */
  predicate WaitsUnder(s: State, c: SockId, id: ListenId, otp: Otp) {
    c in s.recs && s.recs[c].Relay? && s.recs[c].isWaiting && s.recs[c].next.None?
    && s.recs[c].listenId == id && s.recs[c].otp == otp
  }

  ghost predicate Rendezvous(s: State) {
    forall id <- s.listening ::
      var l := s.listening[id];
      && l in s.recs && s.recs[l].Listen? && s.recs[l].listenId == id
      && forall otp <- s.recs[l].waiting :: WaitsUnder(s, s.recs[l].waiting[otp], id, otp)
  }

  /* ---- Relays ---- */

  /** Links come in pairs, at most one leads to any socket, and a caller that waits has none. */
  ghost predicate Symmetric(s: State) {
    && (forall a <- s.recs | s.recs[a].Relay? && s.recs[a].next.Some? && s.recs[a].next.value in s.recs ::
          s.recs[s.recs[a].next.value].Relay? && s.recs[s.recs[a].next.value].next == Some(a))
    && (forall a <- s.recs, b <- s.recs |
          s.recs[a].Relay? && s.recs[b].Relay? && s.recs[a].next.Some? && s.recs[a].next == s.recs[b].next :: a == b)
    && (forall a <- s.recs | s.recs[a].Relay? && s.recs[a].isWaiting :: s.recs[a].next.None?)
  }

  /** A relay whose partner is gone is on its way out too. */
  ghost predicate NotLeftBehind(s: State) {
    forall a <- s.recs | s.recs[a].Relay? && s.recs[a].next.Some? && s.recs[a].next.value !in s.recs ::
      s.recs[a].life != Alive
  }

  ghost predicate Inv(s: State) {
    Known(s) && Rendezvous(s) && Symmetric(s) && NotLeftBehind(s)
  }

  /* ---- Every step keeps the invariant ---- */

  /** Sockets can only have started to die. */
  ghost predicate Faded(s: State, t: State) {
    && t.listening == s.listening && t.nextId == s.nextId && t.recs.Keys == s.recs.Keys
    && forall i <- s.recs ::
         && t.recs[i] == SetLife(s.recs[i], t.recs[i].life)
         && (s.recs[i].life != Alive ==> t.recs[i].life != Alive)
  }

  lemma FadedKeeps(s: State, t: State)
    requires Inv(s) && Faded(s, t)
    ensures Inv(t)
  {
  }

  lemma DoneFades(s: State, t: State, socks: set<SockId>, drained: set<SockId>)
    requires t == s.(recs := DoneAll(s.recs, socks, drained))
    ensures Faded(s, t)
    ensures forall i <- socks | i in t.recs :: t.recs[i].life != Alive
  {
  }

  /** Relays are as they were, but for new ones that are not linked. */
  ghost predicate RelaysKept(s: State, t: State) {
    && s.nextId <= t.nextId && s.recs.Keys <= t.recs.Keys
    && (forall a <- s.recs :: if s.recs[a].Relay? then t.recs[a] == s.recs[a] else t.recs[a].Listen?)
    && forall a <- t.recs | a !in s.recs :: s.nextId <= a < t.nextId && (t.recs[a].Relay? ==> t.recs[a].next.None?)
  }

  lemma RelaysFrame(s: State, t: State)
    requires Known(s) && Symmetric(s) && NotLeftBehind(s) && RelaysKept(s, t)
    ensures Known(t) && Symmetric(t) && NotLeftBehind(t)
  {
    assert Known(t) by { hide Symmetric, NotLeftBehind; }
    assert NotLeftBehind(t) by { hide Symmetric; }
    assert Symmetric(t) by { hide NotLeftBehind; }
  }

  /** Listener `l` holds other callers, all of them waiting for it. */
  lemma ChangedKeeps(s: State, t: State, l: SockId, id: ListenId, waiting: map<Otp, SockId>)
    requires Inv(s) && Listener(s, id) == Some(l)
    requires t == s.(recs := s.recs[l := s.recs[l].(waiting := waiting)])
    requires forall otp <- waiting :: WaitsUnder(s, waiting[otp], id, otp)
    ensures Inv(t)
  {
    RelaysFrame(s, t);
    ChangedRendezvous(s, t, l, id, waiting);
  }

  lemma ChangedRendezvous(s: State, t: State, l: SockId, id: ListenId, waiting: map<Otp, SockId>)
    requires Rendezvous(s) && Listener(s, id) == Some(l)
    requires t == s.(recs := s.recs[l := s.recs[l].(waiting := waiting)])
    requires forall otp <- waiting :: WaitsUnder(s, waiting[otp], id, otp)
    ensures Rendezvous(t)
  {
    forall d <- t.listening
      ensures var m := t.listening[d];
              && m in t.recs && t.recs[m].Listen? && t.recs[m].listenId == d
              && forall otp <- t.recs[m].waiting :: WaitsUnder(t, t.recs[m].waiting[otp], d, otp)
    {
      if d != id {
        assert s.listening[d] != l;
        assert forall otp <- s.recs[s.listening[d]].waiting ::
            WaitsUnder(s, s.recs[s.listening[d]].waiting[otp], d, otp);
      }
    }
  }

  /** A listener can lose callers that wait for it. */
  lemma RemovedKeeps(s: State, id: ListenId, otp: Otp)
    requires Inv(s)
    ensures Inv(RemoveWaiting(s, id, otp))
  {
    hide Known, Symmetric, NotLeftBehind, WaitsUnder;
    if Listener(s, id).Some? {
      var l := Listener(s, id).value;
      assert forall o <- s.recs[l].waiting :: WaitsUnder(s, s.recs[l].waiting[o], id, o);
      ChangedKeeps(s, RemoveWaiting(s, id, otp), l, id, s.recs[l].waiting - {otp});
    }
  }

  lemma AddedKeeps(s: State, id: ListenId, otp: Otp, caller: SockId)
    requires Inv(s) && WaitsUnder(s, caller, id, otp)
    ensures Inv(AddWaiting(s, id, otp, caller))
  {
    hide Known, Symmetric, NotLeftBehind, WaitsUnder;
    if Listener(s, id).Some? && otp !in s.recs[Listener(s, id).value].waiting {
      var l := Listener(s, id).value;
      assert forall o <- s.recs[l].waiting :: WaitsUnder(s, s.recs[l].waiting[o], id, o);
      ChangedKeeps(s, AddWaiting(s, id, otp, caller), l, id, s.recs[l].waiting[otp := caller]);
    }
  }

  /** A new relay that is not linked. */
  lemma NewKeeps(s: State, i: SockId, r: Rec, t: State)
    requires Inv(s) && i !in s.recs && s.nextId <= i < t.nextId
    requires r.Relay? && r.next.None? && t.recs == s.recs[i := r] && t.listening == s.listening
    ensures Inv(t)
  {
    hide Known, Rendezvous, Symmetric, NotLeftBehind;
    assert forall a <- t.recs | a != i :: t.recs[a] == s.recs[a];
    RelaysFrame(s, t);
    RendezvousFrame(s, t);
  }

  /** Listeners, and the callers that wait, are as they were. */
  lemma RendezvousFrame(s: State, t: State)
    requires Rendezvous(s) && t.listening == s.listening
    requires forall a <- s.recs | s.recs[a].Listen? || s.recs[a].isWaiting :: a in t.recs && t.recs[a] == s.recs[a]
    ensures Rendezvous(t)
  {
  }

  lemma NewPairKeeps(s: State, i: SockId, j: SockId, t: State)
    requires Inv(s) && s.nextId <= i < j < t.nextId && t.listening == s.listening
    requires t.recs == s.recs[i := NEW_RELAY.(next := Some(j))][j := NEW_RELAY.(next := Some(i))]
    ensures Inv(t)
  {
    assert forall a <- t.recs | a != i && a != j :: t.recs[a] == s.recs[a];
    RendezvousFrame(s, t);
    NewPairSymmetric(s, i, j, t);
  }

  lemma NewPairSymmetric(s: State, i: SockId, j: SockId, t: State)
    requires Known(s) && Symmetric(s) && NotLeftBehind(s) && s.nextId <= i < j < t.nextId
    requires t.recs.Keys == s.recs.Keys + {i, j} && forall a <- s.recs :: t.recs[a] == s.recs[a]
    requires t.recs[i] == NEW_RELAY.(next := Some(j)) && t.recs[j] == NEW_RELAY.(next := Some(i))
    ensures Known(t) && Symmetric(t) && NotLeftBehind(t)
  {
    NewPairPaired(s, i, j, t);
    hide Symmetric;
    assert Known(t) && NotLeftBehind(t);
  }

  lemma NewPairPaired(s: State, i: SockId, j: SockId, t: State)
    requires Known(s) && Symmetric(s) && s.nextId <= i < j
    requires t.recs.Keys == s.recs.Keys + {i, j} && forall a <- s.recs :: t.recs[a] == s.recs[a]
    requires t.recs[i] == NEW_RELAY.(next := Some(j)) && t.recs[j] == NEW_RELAY.(next := Some(i))
    ensures Symmetric(t)
  {
  }

  /** A caller that is no longer waited for is linked to a new relay. */
  lemma LinkKeeps(s: State, i: SockId, c: SockId, t: State)
    requires Inv(s) && s.nextId <= i < t.nextId && t.listening == s.listening
    requires c in s.recs && s.recs[c].Relay? && s.recs[c].next.None?
    requires forall id <- s.listening, otp <- s.recs[s.listening[id]].waiting ::
             s.recs[s.listening[id]].waiting[otp] != c
    requires t.recs == s.recs[i := NEW_RELAY.(next := Some(c))][c := s.recs[c].(next := Some(i), isWaiting := false)]
    ensures Inv(t)
  {
    assert forall a <- t.recs | a != i && a != c :: t.recs[a] == s.recs[a];
    assert Rendezvous(t) by { LinkRendezvous(s, i, c, t); }
    LinkSymmetric(s, i, c, t);
  }

  lemma LinkRendezvous(s: State, i: SockId, c: SockId, t: State)
    requires Known(s) && Rendezvous(s) && s.nextId <= i && t.listening == s.listening
    requires forall id <- s.listening, otp <- s.recs[s.listening[id]].waiting ::
             s.recs[s.listening[id]].waiting[otp] != c
    requires c in s.recs && s.recs[c].Relay?
    requires forall a <- s.recs | a != c :: a in t.recs && t.recs[a] == s.recs[a]
    ensures Rendezvous(t)
  {
  }

  lemma LinkSymmetric(s: State, i: SockId, c: SockId, t: State)
    requires Known(s) && Symmetric(s) && NotLeftBehind(s) && s.nextId <= i < t.nextId
    requires c in s.recs && s.recs[c].Relay? && s.recs[c].next.None?
    requires t.recs.Keys == s.recs.Keys + {i} && forall a <- s.recs | a != c :: t.recs[a] == s.recs[a]
    requires t.recs[i] == NEW_RELAY.(next := Some(c)) && t.recs[c] == s.recs[c].(next := Some(i), isWaiting := false)
    ensures Known(t) && Symmetric(t) && NotLeftBehind(t)
  {
    assert Symmetric(t) by { hide NotLeftBehind; }
    assert Known(t) by { hide Symmetric, NotLeftBehind; }
    assert NotLeftBehind(t) by { hide Symmetric; }
  }

  /** Identities can be used up without harm. */
  lemma FadedNothing(s: State, t: State)
    requires Inv(s) && t.recs == s.recs && t.listening == s.listening && s.nextId <= t.nextId
    ensures Inv(t)
  {
  }

  lemma ConnectKeeps(s: State, dial: Dial)
    requires Inv(s)
    ensures Inv(ConnectStep(s, dial))
  {
    hide Rendezvous, Symmetric, NotLeftBehind, AddWaiting;
    var t := s.(nextId := s.nextId + 2);
    assert Inv(t) by { FadedNothing(s, t); }
    match dial
    case Rejected =>
    case Address(reached) =>
      if reached {
        NewPairKeeps(s, s.nextId, s.nextId + 1, ConnectStep(s, dial));
      }
    case Named(id, otp) =>
      if Listener(s, id).Some? {
        var u := Send(t, Listener(s, id).value, ListenOtp(otp));
        var v := u.(recs := u.recs[s.nextId := Relay(Alive, None, true, id, otp)],
                    trace := u.trace + [Issued(s.nextId, id, otp)]);
        NewKeeps(s, s.nextId, Relay(Alive, None, true, id, otp), v);
        AddedKeeps(v, id, otp, s.nextId);
      }
  }

  lemma NewListenerRendezvous(s: State, id: ListenId, t: State)
    requires Known(s) && Rendezvous(s)
    requires forall a <- s.recs :: a in t.recs && t.recs[a] == s.recs[a]
    requires t.listening == s.listening ||
             (t.listening == s.listening[id := s.nextId] && s.nextId in t.recs
              && t.recs[s.nextId] == Listen(Alive, id, map[]))
    ensures Rendezvous(t)
  {
  }

  lemma ListenNotifyKeeps(s: State, id: ListenId, admitted: bool)
    requires Inv(s)
    ensures Inv(ListenNotifyStep(s, id, admitted))
  {
    assert s.nextId !in s.recs;
    hide Known, Rendezvous, Symmetric, NotLeftBehind;
    var t := ListenNotifyStep(s, id, admitted);
    assert forall a <- t.recs | a != s.nextId :: t.recs[a] == s.recs[a];
    NewListenerRendezvous(s, id, t);
    RelaysFrame(s, t);
  }

  /** After removal no one waits for the caller any more. */
  lemma RemovedIsGone(s: State, id: ListenId, otp: Otp, c: SockId)
    requires Inv(s) && Waiter(s, id, otp) == Some(c)
    ensures var t := RemoveWaiting(s, id, otp);
            forall d <- t.listening, o <- t.recs[t.listening[d]].waiting :: t.recs[t.listening[d]].waiting[o] != c
  {
    var t := RemoveWaiting(s, id, otp);
    forall d <- t.listening, o <- t.recs[t.listening[d]].waiting
      ensures t.recs[t.listening[d]].waiting[o] != c
    {
      assert WaitsUnder(s, c, id, otp) && WaitsUnder(s, s.recs[s.listening[d]].waiting[o], d, o);
    }
  }

  lemma ListenConnectKeeps(s: State, id: ListenId, otp: Otp)
    requires Inv(s)
    ensures Inv(ListenConnectStep(s, id, otp))
  {
    if Waiter(s, id, otp).Some? {
      var c := Waiter(s, id, otp).value;
      assert WaitsUnder(s, c, id, otp);
      RemovedKeeps(s, id, otp);
      RemovedIsGone(s, id, otp, c);
      LinkKeeps(RemoveWaiting(s, id, otp), s.nextId, c, ListenConnectStep(s, id, otp));
    }
  }

  lemma ReadKeeps(s: State, i: SockId, ping: bool, drained: set<SockId>)
    requires Inv(s)
    ensures Inv(ReadStep(s, i, ping, drained))
  {
    DoneFades(s, s.(recs := DoneAll(s.recs, {i}, drained)), {i}, drained);
    FadedKeeps(s, s.(recs := DoneAll(s.recs, {i}, drained)));
  }

  lemma DropKeeps(s: State, i: SockId)
    requires Inv(s)
    ensures Inv(DropStep(s, i))
  {
    FadedKeeps(s, DropStep(s, i));
  }

  /** A relay leaves: its partner is dying, and no listener holds it. */
  lemma RelayLeaves(s: State, i: SockId, t: State)
    requires Inv(s) && i in s.recs && s.recs[i].Relay?
    requires s.recs[i].next.Some? && s.recs[i].next.value in s.recs ==> s.recs[s.recs[i].next.value].life != Alive
    requires forall id <- s.listening, otp <- s.recs[s.listening[id]].waiting ::
             s.recs[s.listening[id]].waiting[otp] != i
    requires t == s.(recs := s.recs - {i})
    ensures Inv(t)
  {
    assert forall a <- t.recs :: t.recs[a] == s.recs[a];
    assert Known(t) by { hide Rendezvous, Symmetric, NotLeftBehind; }
    assert Rendezvous(t) by { hide Known, Symmetric, NotLeftBehind; }
    assert Symmetric(t) by { hide Known, Rendezvous, NotLeftBehind; }
    assert NotLeftBehind(t) by { hide Known, Rendezvous; }
  }

  /** A listener is gone, and perhaps its registration: relays are as they were. */
  lemma ListenerLeavesRelays(s: State, i: SockId, t: State)
    requires Known(s) && Symmetric(s) && NotLeftBehind(s) && i in s.recs && s.recs[i].Listen?
    requires t.nextId == s.nextId && t.recs == s.recs - {i}
    ensures Known(t) && Symmetric(t) && NotLeftBehind(t)
  {
    assert forall a <- t.recs :: t.recs[a] == s.recs[a];
    assert Known(t) by { hide Symmetric, NotLeftBehind; }
    assert Symmetric(t) by { hide Known, NotLeftBehind; }
    assert NotLeftBehind(t) by { hide Known; }
  }

  lemma ListenerLeavesRendezvous(s: State, i: SockId, t: State)
    requires Rendezvous(s) && i in s.recs && s.recs[i].Listen?
    requires t == s.(recs := s.recs - {i}, listening := s.listening - {s.recs[i].listenId})
    ensures Rendezvous(t)
  {
    assert forall a <- t.recs :: t.recs[a] == s.recs[a];
  }

  lemma ListenerLeaves(s: State, i: SockId, t: State)
    requires Inv(s) && i in s.recs && s.recs[i].Listen?
    requires t == s.(recs := s.recs - {i}, listening := s.listening - {s.recs[i].listenId})
    ensures Inv(t)
  {
    hide Known, Rendezvous, Symmetric, NotLeftBehind;
    ListenerLeavesRelays(s, i, t);
    ListenerLeavesRendezvous(s, i, t);
  }

  lemma CloseKeeps(s: State, i: SockId, drained: set<SockId>)
    requires Inv(s)
    ensures Inv(CloseStep(s, i, drained))
  {
    if i in s.recs && s.recs[i].life == Dead {
      match s.recs[i]
      case Relay(_, next, isWaiting, id, otp) =>
        var t := if next.Some? then s.(recs := DoneAll(s.recs, {next.value}, drained)) else s;
        if next.Some? {
          DoneFades(s, t, {next.value}, drained);
        }
        FadedKeeps(s, t);
        var u := if isWaiting then RemoveWaiting(t, id, otp) else t;
        RemovedKeeps(t, id, otp);
        NobodyWaitsFor(t, i);
        RelayLeaves(u, i, CloseStep(s, i, drained));
      case Listen(_, id, waiting) =>
        var t := s.(recs := DoneAll(s.recs, waiting.Values, drained));
        DoneFades(s, t, waiting.Values, drained);
        FadedKeeps(s, t);
        ListenerLeaves(t, i, CloseStep(s, i, drained));
    }
  }

  /** A registered listener can hold a relay only under the relay's own keys. */
  lemma NobodyWaitsFor(s: State, i: SockId)
    requires Inv(s) && i in s.recs && s.recs[i].Relay?
    ensures var u := if s.recs[i].isWaiting then RemoveWaiting(s, s.recs[i].listenId, s.recs[i].otp) else s;
            forall id <- u.listening, otp <- u.recs[u.listening[id]].waiting ::
              u.recs[u.listening[id]].waiting[otp] != i
  {
    var u := if s.recs[i].isWaiting then RemoveWaiting(s, s.recs[i].listenId, s.recs[i].otp) else s;
    RemovedKeeps(s, s.recs[i].listenId, s.recs[i].otp);
    forall id <- u.listening, otp <- u.recs[u.listening[id]].waiting
      ensures u.recs[u.listening[id]].waiting[otp] != i
    {
      assert WaitsUnder(s, s.recs[s.listening[id]].waiting[otp], id, otp);
    }
  }

  lemma StepKeeps(s: State, a: Action)
    requires Inv(s)
    ensures Inv(Step(s, a))
  {
    match a
    case Connect(dial) => ConnectKeeps(s, dial);
    case ListenNotify(id, admitted) => ListenNotifyKeeps(s, id, admitted);
    case ListenConnect(id, otp) => ListenConnectKeeps(s, id, otp);
    case Read(i, ping, drained) => ReadKeeps(s, i, ping, drained);
    case Drop(i) => DropKeeps(s, i);
    case Close(i, drained) => CloseKeeps(s, i, drained);
  }

  /** Every reachable state. */
  lemma {:induction false} RunKeeps(actions: seq<Action>)
    ensures Inv(Run(actions))
    decreases |actions|
  {
    if actions != [] {
      RunKeeps(actions[..|actions| - 1]);
      StepKeeps(Run(actions[..|actions| - 1]), actions[|actions| - 1]);
    }
  }

  /** A linked relay that is alive has its partner, so passing data on never meets a removed one. */
  lemma AlivePartner(s: State, i: SockId)
    requires Inv(s)
    ensures i in s.recs && s.recs[i].Relay? && s.recs[i].life == Alive && s.recs[i].next.Some? ==>
              s.recs[i].next.value in s.recs && s.recs[s.recs[i].next.value].Relay?
              && s.recs[s.recs[i].next.value].next == Some(i)
  {
  }

  /** After a close the partner, or every caller that waited, is dying or dead. */
  lemma CloseEnds(s: State, i: SockId, drained: set<SockId>)
    requires i in s.recs && s.recs[i].life == Dead
    ensures var t := CloseStep(s, i, drained);
            && i !in t.recs
            && (s.recs[i].Relay? && s.recs[i].next.Some? && s.recs[i].next.value in t.recs ==>
                  t.recs[s.recs[i].next.value].life != Alive)
            && (s.recs[i].Listen? ==>
                  && s.recs[i].listenId !in t.listening
                  && forall otp <- s.recs[i].waiting | s.recs[i].waiting[otp] in t.recs ::
                       t.recs[s.recs[i].waiting[otp]].life != Alive)
  {
    if s.recs[i].Listen? {
      forall otp <- s.recs[i].waiting ensures s.recs[i].waiting[otp] in s.recs[i].waiting.Values {
      }
    }
  }

  /* ---- No orphans ---- */

  /** A caller that waits and is alive is where its listener's answer will look for it. */
  ghost predicate NoOrphans(s: State) {
    forall c <- s.recs | s.recs[c].Relay? && s.recs[c].isWaiting && s.recs[c].life == Alive ::
      Waiter(s, s.recs[c].listenId, s.recs[c].otp) == Some(c)
  }

  ghost predicate DistinctKeys(s: State) {
    forall a <- s.recs, b <- s.recs |
      s.recs[a].Relay? && s.recs[b].Relay? && s.recs[a].isWaiting && s.recs[b].isWaiting
      && s.recs[a].listenId == s.recs[b].listenId && s.recs[a].otp == s.recs[b].otp :: a == b
  }

  /** Every listener is the one registered under its id. */
  ghost predicate OwnIds(s: State) {
    forall l <- s.recs | s.recs[l].Listen? :: s.recs[l].listenId in s.listening && s.listening[s.recs[l].listenId] == l
  }

  ghost predicate Tidy(s: State) {
    NoOrphans(s) && DistinctKeys(s) && OwnIds(s)
  }

  /** No caller waits under these keys. */
  ghost predicate FreeKeys(s: State, id: ListenId, otp: Otp) {
    forall c <- s.recs | s.recs[c].Relay? && s.recs[c].isWaiting :: s.recs[c].listenId != id || s.recs[c].otp != otp
  }

  /** An OTP is handed out only when no one waits with it, and no id is taken over. */
  ghost predicate Orderly(s: State, a: Action) {
    match a
    case Connect(dial) => dial.Named? && Listener(s, dial.id).Some? ==> FreeKeys(s, dial.id, dial.otp)
    case ListenNotify(id, admitted) => admitted ==> id !in s.listening
    case _ => true
  }

  lemma FadedTidy(s: State, t: State)
    requires Tidy(s) && Faded(s, t)
    ensures Tidy(t)
  {
    forall c <- t.recs | t.recs[c].Relay? && t.recs[c].isWaiting && t.recs[c].life == Alive
      ensures Waiter(t, t.recs[c].listenId, t.recs[c].otp) == Some(c)
    {
      assert s.recs[c].life == Alive;
    }
  }

  /** Caller `c` is new and waits for listener `l`. */
  ghost predicate Adopted(s: State, t: State, l: SockId, c: SockId, id: ListenId, otp: Otp) {
    && c !in s.recs && t.listening == s.listening && Listener(s, id) == Some(l) && otp !in s.recs[l].waiting
    && t.recs.Keys == s.recs.Keys + {c}
    && t.recs[c] == Relay(Alive, None, true, id, otp)
    && t.recs[l] == s.recs[l].(waiting := s.recs[l].waiting[otp := c])
    && forall a <- s.recs | a != l :: t.recs[a] == s.recs[a]
  }

  lemma ConnectAdopts(s: State, id: ListenId, otp: Otp, l: SockId)
    requires Inv(s) && Listener(s, id) == Some(l) && otp !in s.recs[l].waiting
    ensures Adopted(s, ConnectStep(s, Named(id, otp)), l, s.nextId, id, otp)
  {
  }

  /** Free keys are not in the listener's map. */
  lemma FreeIsAbsent(s: State, id: ListenId, otp: Otp, l: SockId)
    requires Inv(s) && Listener(s, id) == Some(l) && FreeKeys(s, id, otp)
    ensures otp !in s.recs[l].waiting
  {
    assert forall o <- s.recs[l].waiting :: WaitsUnder(s, s.recs[l].waiting[o], id, o);
  }

  lemma AdoptedNoOrphans(s: State, t: State, l: SockId, c: SockId, id: ListenId, otp: Otp)
    requires NoOrphans(s) && Adopted(s, t, l, c, id, otp)
    ensures NoOrphans(t)
  {
    forall d <- t.recs | t.recs[d].Relay? && t.recs[d].isWaiting && t.recs[d].life == Alive
      ensures Waiter(t, t.recs[d].listenId, t.recs[d].otp) == Some(d)
    {
    }
  }

  lemma AdoptedTidy(s: State, t: State, l: SockId, c: SockId, id: ListenId, otp: Otp)
    requires Tidy(s) && Adopted(s, t, l, c, id, otp) && FreeKeys(s, id, otp)
    ensures Tidy(t)
  {
    AdoptedNoOrphans(s, t, l, c, id, otp);
    assert DistinctKeys(t) by { hide NoOrphans, OwnIds; }
    assert OwnIds(t) by { hide NoOrphans, DistinctKeys, FreeKeys; }
  }

  lemma LinkedTidy(s: State, t: State)
    requires Tidy(s) && t.listening == s.listening && s.recs.Keys <= t.recs.Keys
    requires forall a <- s.recs :: t.recs[a] == s.recs[a]
    requires forall a <- t.recs | a !in s.recs :: t.recs[a].Relay? && !t.recs[a].isWaiting
    ensures Tidy(t)
  {
  }

  lemma ConnectTidy(s: State, dial: Dial)
    requires Inv(s) && Tidy(s) && Orderly(s, Connect(dial))
    ensures Tidy(ConnectStep(s, dial))
  {
    hide Tidy, Waiter, FreeKeys, AddWaiting, Adopted;
    var t := ConnectStep(s, dial);
    if dial.Named? && Listener(s, dial.id).Some? {
      var l := Listener(s, dial.id).value;
      FreeIsAbsent(s, dial.id, dial.otp, l);
      ConnectAdopts(s, dial.id, dial.otp, l);
      AdoptedTidy(s, t, l, s.nextId, dial.id, dial.otp);
    } else {
      LinkedTidy(s, t);
    }
  }

  lemma AdmittedTidy(s: State, t: State, id: ListenId, l: SockId)
    requires Tidy(s) && id !in s.listening && l !in s.recs
    requires t.listening == s.listening[id := l] && t.recs.Keys == s.recs.Keys + {l}
    requires t.recs[l] == Listen(Alive, id, map[]) && forall a <- s.recs :: t.recs[a] == s.recs[a]
    ensures Tidy(t)
  {
    assert NoOrphans(t) by { hide DistinctKeys, OwnIds; }
    assert DistinctKeys(t) by { hide NoOrphans, OwnIds; }
    assert OwnIds(t) by { hide NoOrphans, DistinctKeys; }
  }

  lemma ListenNotifyTidy(s: State, id: ListenId, admitted: bool)
    requires Inv(s) && Tidy(s) && Orderly(s, ListenNotify(id, admitted))
    ensures Tidy(ListenNotifyStep(s, id, admitted))
  {
    NextIsNew(s);
    hide Inv, Tidy, Rendezvous;
    if admitted {
      AdmittedTidy(s, ListenNotifyStep(s, id, admitted), id, s.nextId);
    }
  }

  /** Caller `c` has stopped waiting for listener `l`, and socket `n` is new. */
  ghost predicate Met(s: State, t: State, l: SockId, c: SockId, n: SockId, id: ListenId, otp: Otp) {
    && t.listening == s.listening && Listener(s, id) == Some(l) && l != c && n !in s.recs
    && otp in s.recs[l].waiting && s.recs[l].waiting[otp] == c
    && t.recs.Keys == s.recs.Keys + {n}
    && t.recs[n].Relay? && !t.recs[n].isWaiting
    && c in s.recs && s.recs[c].Relay? && t.recs[c].Relay? && !t.recs[c].isWaiting
    && t.recs[l] == s.recs[l].(waiting := s.recs[l].waiting - {otp})
    && forall a <- s.recs | a != l && a != c :: t.recs[a] == s.recs[a]
  }

  lemma RemoveWaitingRecs(s: State, id: ListenId, otp: Otp, l: SockId)
    requires Listener(s, id) == Some(l)
    ensures var u := RemoveWaiting(s.(nextId := s.nextId + 1), id, otp);
            u.listening == s.listening && u.recs == s.recs[l := s.recs[l].(waiting := s.recs[l].waiting - {otp})]
  {
  }

  lemma ListenConnectRecs(s: State, id: ListenId, otp: Otp, c: SockId, u: State)
    requires Waiter(s, id, otp) == Some(c) && u == RemoveWaiting(s.(nextId := s.nextId + 1), id, otp)
    requires c in u.recs && u.recs[c].Relay?
    ensures var t := ListenConnectStep(s, id, otp);
            && t.listening == u.listening
            && t.recs == u.recs[s.nextId := NEW_RELAY.(next := Some(c))]
                               [c := u.recs[c].(next := Some(s.nextId), isWaiting := false)]
  {
    hide RemoveWaiting, Waiter;
  }

  lemma WaiterWaits(s: State, id: ListenId, otp: Otp, c: SockId)
    requires Rendezvous(s) && Waiter(s, id, otp) == Some(c)
    ensures WaitsUnder(s, c, id, otp)
  {
  }

  lemma NextIsNew(s: State)
    requires Inv(s)
    ensures s.nextId !in s.recs && Rendezvous(s)
  {
  }

  lemma LinkedMeets(s: State, t: State, l: SockId, c: SockId, id: ListenId, otp: Otp)
    requires Listener(s, id) == Some(l) && Waiter(s, id, otp) == Some(c) && WaitsUnder(s, c, id, otp)
    requires s.nextId !in s.recs && t.listening == s.listening
    requires t.recs == s.recs[l := s.recs[l].(waiting := s.recs[l].waiting - {otp})]
                             [s.nextId := NEW_RELAY.(next := Some(c))]
                             [c := s.recs[c].(next := Some(s.nextId), isWaiting := false)]
    ensures Met(s, t, l, c, s.nextId, id, otp)
  {
  }

  lemma ListenConnectMeets(s: State, id: ListenId, otp: Otp, c: SockId)
    requires Inv(s) && Waiter(s, id, otp) == Some(c)
    ensures Met(s, ListenConnectStep(s, id, otp), Listener(s, id).value, c, s.nextId, id, otp)
  {
    var l, u := Listener(s, id).value, RemoveWaiting(s.(nextId := s.nextId + 1), id, otp);
    NextIsNew(s);
    hide Inv, Rendezvous, RemoveWaiting, ListenConnectStep, Met;
    WaiterWaits(s, id, otp, c);
    RemoveWaitingRecs(s, id, otp, l);
    ListenConnectRecs(s, id, otp, c, u);
    LinkedMeets(s, ListenConnectStep(s, id, otp), l, c, id, otp);
  }

  lemma MetNoOrphans(s: State, t: State, l: SockId, c: SockId, n: SockId, id: ListenId, otp: Otp)
    requires NoOrphans(s) && Met(s, t, l, c, n, id, otp)
    ensures NoOrphans(t)
  {
    forall d <- t.recs | t.recs[d].Relay? && t.recs[d].isWaiting && t.recs[d].life == Alive
      ensures Waiter(t, t.recs[d].listenId, t.recs[d].otp) == Some(d)
    {
      assert t.recs[d] == s.recs[d];
      assert Waiter(s, s.recs[d].listenId, s.recs[d].otp) == Some(d);
    }
  }

  lemma MetTidy(s: State, t: State, l: SockId, c: SockId, n: SockId, id: ListenId, otp: Otp)
    requires Tidy(s) && Met(s, t, l, c, n, id, otp)
    ensures Tidy(t)
  {
    assert NoOrphans(t) by {
      hide DistinctKeys, OwnIds, Met;
      MetNoOrphans(s, t, l, c, n, id, otp);
    }
    assert DistinctKeys(t) by { hide NoOrphans, OwnIds; }
    assert OwnIds(t) by { hide NoOrphans, DistinctKeys; }
  }

  lemma ListenConnectTidy(s: State, id: ListenId, otp: Otp)
    requires Inv(s) && Tidy(s)
    ensures Tidy(ListenConnectStep(s, id, otp))
  {
    hide Tidy, Met, Inv, RemoveWaiting;
    if Waiter(s, id, otp).Some? {
      var c, l := Waiter(s, id, otp).value, Listener(s, id).value;
      ListenConnectMeets(s, id, otp, c);
      MetTidy(s, ListenConnectStep(s, id, otp), l, c, s.nextId, id, otp);
    } else {
      LinkedTidy(s, ListenConnectStep(s, id, otp));
    }
  }

  /** The keys of a caller that waits are no one else's. */
  lemma OtherKeys(s: State, i: SockId, c: SockId)
    requires DistinctKeys(s) && i in s.recs && c in s.recs && i != c && s.recs[i].Relay? && s.recs[c].Relay?
    requires s.recs[i].isWaiting && s.recs[c].isWaiting
    ensures s.recs[c].listenId != s.recs[i].listenId || s.recs[c].otp != s.recs[i].otp
  {
  }

  lemma RemovedFound(s: State, id: ListenId, otp: Otp, c: SockId, d: ListenId, o: Otp)
    requires Waiter(s, d, o) == Some(c) && (d != id || o != otp) && Rendezvous(s)
    ensures Waiter(RemoveWaiting(s, id, otp), d, o) == Some(c)
  {
    if Listener(s, id).Some? && d != id {
      assert Listener(s, d).value != Listener(s, id).value;
    }
  }

  /** A relay may be gone; listeners may hold fewer callers. */
  ghost predicate Thinned(s: State, t: State) {
    && t.listening == s.listening && t.recs.Keys <= s.recs.Keys
    && (forall a <- s.recs | s.recs[a].Listen? ::
          a in t.recs && t.recs[a].Listen? && t.recs[a].listenId == s.recs[a].listenId)
    && forall a <- t.recs | s.recs[a].Relay? :: t.recs[a] == s.recs[a]
  }

  lemma RelayLeavesThins(s: State, i: SockId, t: State)
    requires i in s.recs && s.recs[i].Relay?
    requires var u := if s.recs[i].isWaiting then RemoveWaiting(s, s.recs[i].listenId, s.recs[i].otp) else s;
             t == u.(recs := u.recs - {i})
    ensures Thinned(s, t)
  {
  }

  lemma ThinnedDistinct(s: State, t: State)
    requires DistinctKeys(s) && Thinned(s, t)
    ensures DistinctKeys(t)
  {
  }

  lemma ThinnedOwnIds(s: State, t: State)
    requires OwnIds(s) && Thinned(s, t)
    ensures OwnIds(t)
  {
  }

  lemma GoneFound(u: State, i: SockId, id: ListenId, otp: Otp, c: SockId)
    requires i in u.recs && u.recs[i].Relay? && Waiter(u, id, otp) == Some(c)
    ensures Waiter(u.(recs := u.recs - {i}), id, otp) == Some(c)
  {
  }

  lemma RelayLeavesNoOrphans(s: State, i: SockId, u: State, t: State)
    requires Rendezvous(s) && NoOrphans(s) && DistinctKeys(s) && i in s.recs && s.recs[i].Relay? && Thinned(s, t)
    requires u == if s.recs[i].isWaiting then RemoveWaiting(s, s.recs[i].listenId, s.recs[i].otp) else s
    requires i in u.recs && u.recs[i].Relay? && t == u.(recs := u.recs - {i})
    ensures NoOrphans(t)
  {
    hide DistinctKeys, Rendezvous, Waiter, RemoveWaiting;
    forall c <- t.recs | t.recs[c].Relay? && t.recs[c].isWaiting && t.recs[c].life == Alive
      ensures Waiter(t, t.recs[c].listenId, t.recs[c].otp) == Some(c)
    {
      assert Waiter(s, s.recs[c].listenId, s.recs[c].otp) == Some(c);
      if s.recs[i].isWaiting {
        OtherKeys(s, i, c);
        RemovedFound(s, s.recs[i].listenId, s.recs[i].otp, c, s.recs[c].listenId, s.recs[c].otp);
      }
      GoneFound(u, i, s.recs[c].listenId, s.recs[c].otp, c);
    }
  }

  /** A caller that leaves takes no one else's entry along. */
  lemma RelayLeavesTidy(s: State, i: SockId, t: State)
    requires Inv(s) && Tidy(s) && i in s.recs && s.recs[i].Relay?
    requires var u := if s.recs[i].isWaiting then RemoveWaiting(s, s.recs[i].listenId, s.recs[i].otp) else s;
             t == u.(recs := u.recs - {i})
    ensures Tidy(t)
  {
    RelayLeavesThins(s, i, t);
    var u := if s.recs[i].isWaiting then RemoveWaiting(s, s.recs[i].listenId, s.recs[i].otp) else s;
    assert i in u.recs && u.recs[i].Relay?;
    hide Symmetric, NotLeftBehind, Known, Rendezvous, NoOrphans, OwnIds, DistinctKeys, Thinned, RemoveWaiting;
    RelayLeavesNoOrphans(s, i, u, t);
    ThinnedDistinct(s, t);
    ThinnedOwnIds(s, t);
  }

  /** Socket `i`, a listener, is gone, and so is its registration. */
  ghost predicate Left(s: State, t: State, i: SockId) {
    && i in s.recs && s.recs[i].Listen?
    && t == s.(recs := s.recs - {i}, listening := s.listening - {s.recs[i].listenId})
  }

  lemma ListenerLeavesFound(s: State, t: State, i: SockId, c: SockId)
    requires OwnIds(s) && Left(s, t, i) && c in s.recs && s.recs[c].Relay? && s.recs[c].life == Alive
    requires forall d <- s.recs[i].waiting.Values | d in s.recs :: s.recs[d].life != Alive
    requires Waiter(s, s.recs[c].listenId, s.recs[c].otp) == Some(c)
    ensures Waiter(t, s.recs[c].listenId, s.recs[c].otp) == Some(c)
  {
    hide OwnIds;
    var l := Listener(s, s.recs[c].listenId).value;
    assert s.recs[l].waiting[s.recs[c].otp] in s.recs[l].waiting.Values;
    assert l != i;
    if s.recs[c].listenId == s.recs[i].listenId {
      OwnListener(s, s.recs[c].listenId, i);
    }
    assert t.recs[l] == s.recs[l];
  }

  lemma OwnListener(s: State, id: ListenId, i: SockId)
    requires OwnIds(s) && i in s.recs && s.recs[i].Listen? && s.recs[i].listenId == id
    ensures Listener(s, id) == Some(i)
  {
  }

  /** A listener that leaves has had all its callers closed. */
  lemma ListenerLeavesTidy(s: State, t: State, i: SockId)
    requires Tidy(s) && Left(s, t, i)
    requires forall c <- s.recs[i].waiting.Values | c in s.recs :: s.recs[c].life != Alive
    ensures Tidy(t)
  {
    assert NoOrphans(t) by {
      hide OwnIds, DistinctKeys, Waiter;
      forall c <- t.recs | t.recs[c].Relay? && t.recs[c].isWaiting && t.recs[c].life == Alive
        ensures Waiter(t, t.recs[c].listenId, t.recs[c].otp) == Some(c)
      {
        assert Waiter(s, s.recs[c].listenId, s.recs[c].otp) == Some(c);
        ListenerLeavesFound(s, t, i, c);
      }
    }
    assert DistinctKeys(t) by { hide NoOrphans, OwnIds; }
    assert OwnIds(t) by { hide NoOrphans, DistinctKeys; }
  }

  lemma CloseTidy(s: State, i: SockId, drained: set<SockId>)
    requires Inv(s) && Tidy(s)
    ensures Tidy(CloseStep(s, i, drained))
  {
    if i in s.recs && s.recs[i].life == Dead {
      match s.recs[i]
      case Relay(_, next, isWaiting, id, otp) =>
        var t := if next.Some? then s.(recs := DoneAll(s.recs, {next.value}, drained)) else s;
        if next.Some? {
          DoneFades(s, t, {next.value}, drained);
        }
        FadedKeeps(s, t);
        FadedTidy(s, t);
        RelayLeavesTidy(t, i, CloseStep(s, i, drained));
      case Listen(_, id, waiting) =>
        var t := s.(recs := DoneAll(s.recs, waiting.Values, drained));
        DoneFades(s, t, waiting.Values, drained);
        FadedKeeps(s, t);
        FadedTidy(s, t);
        ListenerLeavesTidy(t, CloseStep(s, i, drained), i);
    }
  }

  lemma ReadTidy(s: State, i: SockId, ping: bool, drained: set<SockId>)
    requires Tidy(s)
    ensures Tidy(ReadStep(s, i, ping, drained))
  {
    hide Tidy, DoneAll;
    var t := s.(recs := DoneAll(s.recs, {i}, drained));
    DoneFades(s, t, {i}, drained);
    FadedTidy(s, t);
    assert Faded(s, s);
    FadedTidy(s, ReadStep(s, i, ping, drained).(recs := s.recs));
  }

  lemma DropTidy(s: State, i: SockId)
    requires Tidy(s)
    ensures Tidy(DropStep(s, i))
  {
    hide Tidy;
    FadedTidy(s, DropStep(s, i));
  }

  lemma TidyStep(s: State, a: Action)
    requires Inv(s) && Tidy(s) && Orderly(s, a)
    ensures Tidy(Step(s, a))
  {
    hide Inv, Tidy, ConnectStep, ListenNotifyStep, ListenConnectStep, ReadStep, DropStep, CloseStep, Orderly;
    match a
    case Connect(dial) => ConnectTidy(s, dial);
    case ListenNotify(id, admitted) => ListenNotifyTidy(s, id, admitted);
    case ListenConnect(id, otp) => ListenConnectTidy(s, id, otp);
    case Read(i, ping, drained) => ReadTidy(s, i, ping, drained);
    case Drop(i) => DropTidy(s, i);
    case Close(i, drained) => CloseTidy(s, i, drained);
  }
}
