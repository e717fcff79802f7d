/** When the bridge tries again to start its remote listener. */
module Backoff {

  /** getNextRetry. */
  function NextRetry(retries: nat, last: int): int {
    if retries < 2 then last
    else if retries < 5 then last + 60
    else if retries < 10 then last + 60 * 5
    else last + 60 * 30
  }

  /** An attempt: when the clock was read for it, and how many had failed in a row before. */
  datatype Attempt = Attempt(at: int, failures: nat)

  datatype State = State(active: bool, retries: nat, last: int, attempts: seq<Attempt>)

  const INIT := State(false, 0, 0, [])

  /** houseKeeping reads the clock twice when it tries: to decide, and to remember. */
  datatype Action = Tick(now: int, later: int, success: bool) | Closed

  /** houseKeeping with tryRLStart, and handleClose of the remote listener's socket. */
  function Step(s: State, a: Action): State {
    match a
    case Closed => s.(active := false, retries := 0)
    case Tick(now, later, success) =>
      if s.active || now < NextRetry(s.retries, s.last) then s
      else
        var t := s.(last := later, attempts := s.attempts + [Attempt(later, s.retries)]);
        if success then t.(active := true, retries := 0) else t.(retries := s.retries + 1)
  }

  function Run(actions: seq<Action>): State {
    if actions == [] then INIT
    else Step(Run(actions[..|actions| - 1]), actions[|actions| - 1])
  }

  /** A clock that does not run backwards between its two readings. */
  predicate Monotone(actions: seq<Action>) {
    forall i :: 0 <= i < |actions| && actions[i].Tick? ==> actions[i].now <= actions[i].later
  }

  /** Seconds that must pass between the first attempt and the one after `k` failures. */
  function Wait(k: nat): nat {
    if k == 0 then 0 else Wait(k - 1) + NextRetry(k, 0)
  }

  /** No wait before the second attempt, then one minute before each of three, five minutes before
      each of five, and half an hour before each further one. */
  lemma {:induction false} WaitGrows(k: nat)
    ensures k <= 1 ==> Wait(k) == 0
    ensures 1 <= k <= 4 ==> Wait(k) == 60 * (k - 1)
    ensures 4 <= k <= 9 ==> Wait(k) == 180 + 300 * (k - 4)
    ensures 9 <= k ==> Wait(k) == 1680 + 1800 * (k - 9)
  {
    if k > 0 {
      WaitGrows(k - 1);
    }
  }

  /** Each attempt but the first of a row follows one with one failure less, long enough after. */
  ghost predicate Spaced(attempts: seq<Attempt>) {
    forall i :: 0 <= i < |attempts| && attempts[i].failures > 0 ==>
      && i > 0
      && attempts[i - 1].failures == attempts[i].failures - 1
      && attempts[i].at >= NextRetry(attempts[i].failures, attempts[i - 1].at)
  }

  /** What is remembered is the last attempt, while its row goes on. */
  ghost predicate Inv(s: State) {
    && Spaced(s.attempts)
    && (s.retries > 0 ==> s.attempts != [] && s.attempts[|s.attempts| - 1] == Attempt(s.last, s.retries - 1))
    && (s.active ==> s.retries == 0)
  }

  lemma OneMoreSpaced(attempts: seq<Attempt>, a: Attempt)
    requires Spaced(attempts)
    requires a.failures > 0 ==>
               && attempts != [] && attempts[|attempts| - 1].failures == a.failures - 1
               && a.at >= NextRetry(a.failures, attempts[|attempts| - 1].at)
    ensures Spaced(attempts + [a])
  {
  }

  lemma StepKeeps(s: State, a: Action)
    requires Inv(s) && (a.Tick? ==> a.now <= a.later)
    ensures Inv(Step(s, a))
  {
    hide Spaced;
    if a.Tick? && !s.active && a.now >= NextRetry(s.retries, s.last) {
      OneMoreSpaced(s.attempts, Attempt(a.later, s.retries));
    }
  }

  lemma {:induction false} RunKeeps(actions: seq<Action>)
    requires Monotone(actions)
    ensures Inv(Run(actions))
    decreases |actions|
  {
    if actions != [] {
      RunKeeps(actions[..|actions| - 1]);
      StepKeeps(Run(actions[..|actions| - 1]), actions[|actions| - 1]);
    }
  }

  lemma {:induction false} RowIsSpaced(attempts: seq<Attempt>, i: nat)
    requires Spaced(attempts) && i < |attempts|
    ensures var k := attempts[i].failures;
            k <= i && attempts[i - k].failures == 0 && attempts[i].at >= attempts[i - k].at + Wait(k)
    decreases attempts[i].failures
  {
    if attempts[i].failures > 0 {
      RowIsSpaced(attempts, i - 1);
    }
  }

  /** In any run, how long after the first of its row an attempt after `k` failures comes at the least. */
  lemma BackoffBound(actions: seq<Action>, i: nat)
    requires Monotone(actions) && i < |Run(actions).attempts|
    ensures var t := Run(actions).attempts;
            var k := t[i].failures;
            && k <= i && t[i - k].failures == 0
            && t[i].at >= t[i - k].at + (if k == 0 then 0
                                         else if k <= 4 then 60 * (k - 1)
                                         else if k <= 9 then 180 + 300 * (k - 4)
                                         else 1680 + 1800 * (k - 9))
  {
    RunKeeps(actions);
    RowIsSpaced(Run(actions).attempts, i);
    WaitGrows(Run(actions).attempts[i].failures);
  }

  /* ---- When exactly ---- */

  /** The last of the actions made an attempt. */
  predicate Tried(actions: seq<Action>)
    requires actions != []
  {
    |Run(actions).attempts| > |Run(actions[..|actions| - 1]).attempts|
  }

  /** How many attempts have failed since one succeeded or a listener was closed. */
  function FailedInRow(actions: seq<Action>): nat
    decreases |actions|
  {
    if actions == [] then 0
    else
      match actions[|actions| - 1]
      case Closed => 0
      case Tick(_, _, success) =>
        if !Tried(actions) then FailedInRow(actions[..|actions| - 1])
        else if success then 0
        else FailedInRow(actions[..|actions| - 1]) + 1
  }

  /** An attempt succeeded, and its listener has not been closed since. */
  predicate Listening(actions: seq<Action>)
    decreases |actions|
  {
    actions != [] &&
    match actions[|actions| - 1]
    case Closed => false
    case Tick(_, _, success) => if Tried(actions) then success else Listening(actions[..|actions| - 1])
  }

  /** The fields stand for what has happened. */
  lemma {:induction false} FieldsTell(actions: seq<Action>)
    ensures var s := Run(actions);
            && s.retries == FailedInRow(actions) && s.active == Listening(actions)
            && s.last == if s.attempts == [] then 0 else s.attempts[|s.attempts| - 1].at
    decreases |actions|
  {
    if actions != [] {
      FieldsTell(actions[..|actions| - 1]);
    }
  }

  /** After any run, a tick makes an attempt exactly when no listener is active and, with `k` failures
      in a row, as long has passed since the last attempt as is due. */
  lemma AttemptExactly(actions: seq<Action>, now: int, later: int, success: bool)
    ensures var was, t := Run(actions).attempts, Run(actions + [Tick(now, later, success)]).attempts;
            var last := if was == [] then 0 else was[|was| - 1].at;
            var k := FailedInRow(actions);
            var due := if k < 2 then 0 else if k < 5 then 60 else if k < 10 then 300 else 1800;
            t == if !Listening(actions) && now >= last + due then was + [Attempt(later, k)] else was
  {
    hide Run, FailedInRow, Listening;
    FieldsTell(actions);
    OneMore(actions, Tick(now, later, success));
  }

  lemma OneMore(actions: seq<Action>, a: Action)
    ensures Run(actions + [a]) == Step(Run(actions), a)
  {
    var all := actions + [a];
    assert all[..|all| - 1] == actions;
  }

  /** An attempt is made exactly when no listener is active and the time has come. */
  lemma AttemptIff(s: State, a: Action)
    ensures Step(s, a).attempts != s.attempts <==> a.Tick? && !s.active && a.now >= NextRetry(s.retries, s.last)
    ensures s.attempts <= Step(s, a).attempts
  {
    if Step(s, a).attempts == s.attempts {
      assert |Step(s, a).attempts| == |s.attempts|;
    }
  }

  /** The bridge's fields for it. */
  class RemoteListener {
    var active: bool
    var retries: nat
    var last: int
    ghost var attempts: seq<Attempt>

    ghost function Model(): State
      reads this
    {
      State(active, retries, last, attempts)
    }

    constructor ()
      ensures Model() == INIT
    {
      active := false;
      retries := 0;
      last := 0;
      attempts := [];
    }

    /** tryRLStart; `success` is what starting the listener will come to. */
    method TryStart(now: int, later: int, success: bool) returns (started: bool)
      modifies this
      ensures Model() == Step(old(Model()), Tick(now, later, success))
      ensures started == active
    {
      if active {
        return true;
      }
      if now < NextRetry(retries, last) {
        return false;
      }
      last := later;
      attempts := attempts + [Attempt(later, retries)];
      if !success {
        retries := retries + 1;
        return false;
      }
      retries := 0;
      active := true;
      started := true;
    }

    /** handleClose of the listener's socket. */
    method HandleClosed()
      modifies this
      ensures Model() == Step(old(Model()), Closed)
    {
      active := false;
      retries := 0;
    }
  }
}
