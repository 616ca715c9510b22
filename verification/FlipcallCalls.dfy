/** What becomes of single flipcall calls: after a shutdown they fail with a
    shutdown error, and without one a message that was sent is received. */
module FlipcallCalls {
  import opened Options
  import opened Flipcall
  import opened FlipcallLiveness

  // ---------------------------------------------------------------------
  // Calls made after a shutdown fail
  // ---------------------------------------------------------------------

  /** A call that can only return a shutdown error, once the word is csShutdown. */
  predicate Doomed(u: User) {
    match u.loc
    case Store | Enter | EnterUndo | StoreInside | Cas | CasFailed | Load => true
    case Exit | ConnSwap | ConnWake | Failed => u.err == ShutdownError
    case _ => false
  }

  lemma DoomedUser(sh: Shared, d: Side, e: Endpoint)
    requires ControlInv(sh, e) && CallInv(d, e.user) && sh.cs == CS_SHUTDOWN && Doomed(e.user)
    ensures Doomed(UserOp(sh, d, e).e.user)
  {
  }

  lemma DoomedStep(s: State, d: Side, a: Action)
    requires Inv(s) && Enabled(s, a) && s.sh.cs == CS_SHUTDOWN && Doomed(At(s, d).user)
    ensures Doomed(At(Apply(s, a), d).user)
  {
    hide Inv;
    hide Apply;
    hide UserOp;
    hide ShutdownOp;
    StepAt(s, d, a);
    InvAt(s, d);
    hide OwnInv;
    ShutdownOpUser(s.sh, d, At(s, d));
    if a.UserMoves? && a.d == d {
      OwnParts(s.sh, d, At(s, d));
      DoomedUser(s.sh, d, At(s, d));
    }
  }

  lemma OwnParts(sh: Shared, d: Side, e: Endpoint)
    requires OwnInv(sh, d, e)
    ensures ControlInv(sh, e) && CallInv(d, e.user) && TransferInv(sh, d, e.user)
  {
    hide SharedInv;
  }

  lemma {:induction false} DoomedStays(s: State, d: Side, actions: seq<Action>)
    requires Inv(s) && IsRun(s, actions) && s.sh.cs == CS_SHUTDOWN && Doomed(At(s, d).user)
    ensures Doomed(At(After(s, actions), d).user)
    decreases |actions|
  {
    hide Inv;
    hide Apply;
    hide Enabled;
    hide Doomed;
    if actions != [] {
      StepKeepsInv(s, actions[0]);
      ShutdownStepIsFinal(s, actions[0]);
      DoomedStep(s, d, actions[0]);
      DoomedStays(Apply(s, actions[0]), d, actions[1..]);
    }
  }

  /** Once Shutdown has returned, and no call is on its way out, the word is
      csShutdown. */
  lemma ReturnedMeansShutDown(s: State, d: Side)
    requires Inv(s) && At(s, d).sd == Finished && !InCall(At(s, d).user)
    ensures s.sh.cs == CS_SHUTDOWN
  {
    InvAt(s, d);
    hide Inv;
    hide SharedInv;
  }

  /** A call made on either endpoint after the shutdown, in every continuation:
      it is still under way or has failed with a shutdown error. */
  lemma CallAfterShutdownFails(s: State, d: Side, call: Call, n: nat, actions: seq<Action>)
    requires Inv(s) && s.sh.cs == CS_SHUTDOWN && Enabled(s, Begin(d, call, n))
    requires IsRun(Apply(s, Begin(d, call, n)), actions)
    ensures var u := At(After(Apply(s, Begin(d, call, n)), actions), d).user;
            InCall(u) || (u.loc == Failed && u.err == ShutdownError)
  {
    var a := Begin(d, call, n);
    StepAt(s, d, a);
    hide Inv;
    StepKeepsInv(s, a);
    ShutdownStepIsFinal(s, a);
    hide Apply;
    DoomedStays(Apply(s, a), d, actions);
  }

  lemma {:induction false} DoomedAlong(r: Behavior, d: Side, j: nat, k: nat)
    requires IsInfiniteRun(r) && j <= k && r.states(j).sh.cs == CS_SHUTDOWN && Doomed(At(r.states(j), d).user)
    ensures Doomed(At(r.states(k), d).user)
    decreases k - j
  {
    hide Inv;
    hide Apply;
    hide Enabled;
    hide Doomed;
    if j < k {
      InvAlongRun(r, j);
      assert RunStep(r, j);
      if r.moves(j).Some? {
        ShutdownStepIsFinal(r.states(j), r.moves(j).value);
        DoomedStep(r.states(j), d, r.moves(j).value);
      }
      DoomedAlong(r, d, j + 1, k);
    }
  }

  /** On every fair run, a call made after the shutdown returns a shutdown error. */
  lemma CallAfterShutdownReturns(r: Behavior, d: Side, call: Call, n: nat, i: nat)
    requires IsInfiniteRun(r) && Fair(r) && r.states(i).sh.cs == CS_SHUTDOWN && r.moves(i) == Some(Begin(d, call, n))
    ensures exists k: nat ::
      k > i && At(r.states(k), d).user.loc == Failed && At(r.states(k), d).user.err == ShutdownError
  {
    hide Inv;
    InvAlongRun(r, i);
    assert RunStep(r, i);
    StepAt(r.states(i), d, Begin(d, call, n));
    assert Doomed(At(r.states(i + 1), d).user);
    ShutdownStepIsFinal(r.states(i), Begin(d, call, n));
    hide Apply;
    hide Enabled;
    hide Fair;
    hide IsInfiniteRun;
    hide Sound;
    ReturnPlanSound(d);
    EventuallyGoal(r, ReturnPlan(d), i + 1);
    var k: nat :| k >= i + 1 && ReturnPlan(d).goal(r.states(k));
    DoomedAlong(r, d, i + 1, k);
  }

  // ---------------------------------------------------------------------
  // A message is received
  // ---------------------------------------------------------------------

  /** The endpoint is in a call that receives, has been given control, and has not
      read the length yet. */
  predicate Receiving(sh: Shared, d: Side, e: Endpoint) {
    Unread(sh.log) && sh.owner == d && InCall(e.user) && e.user.call != SendLast && e.user.err == NoError
  }

  /** It has read it, or a shutdown has come in between. */
  predicate Delivered(sh: Shared, e: Endpoint) {
    sh.cs == CS_SHUTDOWN || e.flag || !Unread(sh.log)
  }

  function ReceiveRank(u: User): nat {
    match u.loc
    case Enter => 9
    case Wake => 8
    case CheckFlag => 7
    case Wait => 6
    case Asleep => 5
    case Load => 4
    case Exit => 3
    case _ => 1
  }

  function ReceiveHelper(d: Side, e: Endpoint): Thread {
    UserThread(if Sleeping(e) then Other(d) else d)
  }

  function ReceivePlan(d: Side): Plan {
    Plan((s: State) => Receiving(s.sh, d, At(s, d)),
         (s: State) => Delivered(s.sh, At(s, d)),
         (s: State) => ReceiveRank(At(s, d).user),
         (s: State) => ReceiveHelper(d, At(s, d)))
  }

  /** The endpoint's own user thread moves: it reads the length or gets closer. */
  lemma ReceiveUser(sh: Shared, d: Side, e: Endpoint)
    requires OwnInv(sh, d, e) && Receiving(sh, d, e) && !Delivered(sh, e) && UserEnabled(e)
    ensures var eff := UserOp(sh, d, e);
            || !Unread(eff.sh.log)
            || (Receiving(eff.sh, d, eff.e) && ReceiveRank(eff.e.user) < ReceiveRank(e.user))
  {
    UnreadSnoc(sh.log, Received(d, sh.dataLen));
  }

  /** While d has control, nothing its peer's threads do touches the log. */
  lemma ReceivePeer(sh: Shared, d: Side, eff: Effect)
    requires StepKeeps(sh, Other(d), eff) && sh.owner == d
    ensures eff.sh.log == sh.log && eff.sh.owner == d
  {
    hide OwnInv;
    hide SharedInv;
  }

  /** A sleeper that has been given control is about to be woken by its peer. */
  lemma SleeperIsWoken(sh: Shared, d: Side, e: Endpoint, p: Endpoint)
    requires SleepInv(sh, d, e, p) && ControlInv(sh, p) && Receiving(sh, d, e) && !Delivered(sh, e) && Sleeping(e)
    requires sh.cs == ActiveState(d)
    ensures p.user.loc == Wake
  {
  }

  ghost predicate ReceiveAdvances(s: State, d: Side, s': State, byHelper: bool) {
    var e, e' := At(s, d), At(s', d);
    || Delivered(s'.sh, e')
    || (&& Receiving(s'.sh, d, e')
        && (|| ReceiveRank(e'.user) < ReceiveRank(e.user)
            || (e'.user == e.user && ReceiveHelper(d, e') == ReceiveHelper(d, e) && !byHelper)))
  }

  lemma ReceiveAfterUser(s: State, d: Side, x: Side, pick: Side)
    requires Inv(s) && Receiving(s.sh, d, At(s, d)) && !Delivered(s.sh, At(s, d)) && UserEnabled(At(s, x))
    ensures ReceiveAdvances(s, d, Apply(s, UserMoves(x, pick)), ReceiveHelper(d, At(s, d)) == UserThread(x))
  {
    var e, p := At(s, d), At(s, Other(d));
    StepAt(s, d, UserMoves(x, pick));
    InvAt(s, d);
    InvAt(s, Other(d));
    hide Inv;
    hide UserOp;
    if x == d {
      hide SleepInv;
      hide Apply;
      ReceiveUser(s.sh, d, e);
    } else {
      WordOfOwner(s.sh);
      OwnParts(s.sh, x, p);
      hide OwnInv;
      var eff := UserOp(s.sh, x, p);
      UserOwn(s.sh, x, p);
      ReceivePeer(s.sh, d, eff);
      RouseShared(s, x, eff, pick);
      PerformPeer(s, x, eff, pick);
      if Sleeping(e) {
        SleeperIsWoken(s.sh, d, e, p);
        WakeWakes(s.sh, x, p);
      }
    }
  }

  lemma WakeWakes(sh: Shared, d: Side, e: Endpoint)
    requires e.user.loc == Wake
    ensures UserOp(sh, d, e).wakes == WakesOne && !Sleeping(UserOp(sh, d, e).e)
  {
  }

  lemma ReceiveAfterShutdown(s: State, d: Side, x: Side, pick: Side)
    requires Inv(s) && Receiving(s.sh, d, At(s, d)) && !Delivered(s.sh, At(s, d)) && ShutdownEnabled(At(s, x))
    ensures ReceiveAdvances(s, d, Apply(s, ShutdownMoves(x, pick)), false)
  {
    var e, p := At(s, d), At(s, Other(d));
    StepAt(s, d, ShutdownMoves(x, pick));
    InvAt(s, d);
    InvAt(s, Other(d));
    hide Inv;
    OwnParts(s.sh, d, e);
    if x == d {
      hide OwnInv;
      hide SleepInv;
      hide TransferInv;
      hide CallInv;
    } else {
      hide ControlInv;
      var eff := ShutdownOp(s.sh, x, p);
      ShutdownOwn(s.sh, x, p);
      hide OwnInv;
      ReceivePeer(s.sh, d, eff);
      RouseShared(s, x, eff, pick);
      hide ShutdownOp;
    }
  }

  lemma ReceiveStepAdvances(s: State, d: Side, a: Action)
    requires Inv(s) && Receiving(s.sh, d, At(s, d)) && !Delivered(s.sh, At(s, d)) && Enabled(s, a)
    ensures ReceiveAdvances(s, d, Apply(s, a), IsMoveOf(a, ReceiveHelper(d, At(s, d))))
  {
    match a {
      case Begin(x, call, n) =>
        StepAt(s, d, a);
        RouseShared(s, x, BeginOp(s.sh, At(s, x), call, n), x);
        hide Inv;
      case UserMoves(x, pick) =>
        ReceiveAfterUser(s, d, x, pick);
        hide Inv;
        hide Apply;
      case ShutdownMoves(x, pick) =>
        ReceiveAfterShutdown(s, d, x, pick);
        hide Inv;
        hide Apply;
      case SpuriousWake(x) =>
        hide Inv;
    }
  }

  lemma ReceiveHelperRunnable(s: State, d: Side)
    requires Inv(s) && Receiving(s.sh, d, At(s, d)) && !Delivered(s.sh, At(s, d))
    ensures Runnable(s, ReceiveHelper(d, At(s, d)))
  {
    InvAt(s, d);
    InvAt(s, Other(d));
    hide Inv;
    if Sleeping(At(s, d)) {
      WordOfOwner(s.sh);
      OwnParts(s.sh, Other(d), At(s, Other(d)));
      hide OwnInv;
      SleeperIsWoken(s.sh, d, At(s, d), At(s, Other(d)));
    }
  }

  lemma ReceivePlanSound(d: Side)
    ensures Sound(ReceivePlan(d))
  {
    hide Inv;
    hide Apply;
    hide Enabled;
    hide Receiving;
    hide Delivered;
    hide ReceiveRank;
    hide ReceiveHelper;
    hide IsMoveOf;
    hide At;
    forall s | Inv(s) && ReceivePlan(d).pre(s) && !ReceivePlan(d).goal(s)
      ensures Runnable(s, ReceivePlan(d).helper(s))
    {
      ReceiveHelperRunnable(s, d);
    }
    forall s, a | Inv(s) && ReceivePlan(d).pre(s) && !ReceivePlan(d).goal(s) && Enabled(s, a)
      ensures Advances(ReceivePlan(d), s, a)
    {
      ReceiveStepAdvances(s, d, a);
    }
  }

  /** On every fair run, a message sent to an endpoint whose user is in a call that
      receives is read, unless the endpoint or the connection is shut down. */
  lemma MessageIsReceived(r: Behavior, d: Side, i: nat)
    requires IsInfiniteRun(r) && Fair(r) && Receiving(r.states(i).sh, d, At(r.states(i), d))
    ensures exists k: nat :: k >= i && Delivered(r.states(k).sh, At(r.states(k), d))
  {
    hide Inv;
    hide Sound;
    hide IsInfiniteRun;
    hide Fair;
    ReceivePlanSound(d);
    EventuallyGoal(r, ReceivePlan(d), i);
    var k: nat :| k >= i && ReceivePlan(d).goal(r.states(k));
  }

  // ---------------------------------------------------------------------
  // A message is sent
  // ---------------------------------------------------------------------

  /** The endpoint is in a call that is going to hand over control. */
  predicate Sending(sh: Shared, d: Side, e: Endpoint) {
    var loc := e.user.loc;
    && sh.owner == d && !Unread(sh.log) && e.user.err == NoError
    && (loc == Store || (loc == Enter && e.user.call != RecvFirst) || loc == StoreInside || loc == Cas)
  }

  /** It has, or a shutdown has come in between. */
  predicate HandedOver(sh: Shared, e: Endpoint) {
    sh.cs == CS_SHUTDOWN || e.flag || Unread(sh.log)
  }

  function SendRank(u: User): nat {
    match u.loc
    case Store => 4
    case Enter => 3
    case StoreInside => 2
    case _ => 1
  }

  function SendPlan(d: Side): Plan {
    Plan((s: State) => Sending(s.sh, d, At(s, d)),
         (s: State) => HandedOver(s.sh, At(s, d)),
         (s: State) => SendRank(At(s, d).user),
         (s: State) => UserThread(d))
  }

  lemma SendUser(sh: Shared, d: Side, e: Endpoint)
    requires OwnInv(sh, d, e) && Sending(sh, d, e) && !HandedOver(sh, e)
    ensures var eff := UserOp(sh, d, e);
            || Unread(eff.sh.log)
            || (Sending(eff.sh, d, eff.e) && SendRank(eff.e.user) < SendRank(e.user))
  {
    UnreadSnoc(sh.log, Sent(d, sh.dataLen));
  }

  ghost predicate SendAdvances(s: State, d: Side, s': State, byUser: bool) {
    var e, e' := At(s, d), At(s', d);
    || HandedOver(s'.sh, e')
    || (Sending(s'.sh, d, e') && (SendRank(e'.user) < SendRank(e.user) || (e'.user == e.user && !byUser)))
  }

  /** The peer does not touch the log or the endpoint while d has control and is
      awake. */
  lemma SendAfterPeer(s: State, d: Side, a: Action)
    requires Inv(s) && Sending(s.sh, d, At(s, d)) && Enabled(s, a) && a.d == Other(d)
    ensures At(Apply(s, a), d) == At(s, d) && Apply(s, a).sh.log == s.sh.log && Apply(s, a).sh.owner == d
  {
    var x := Other(d);
    StepAt(s, d, a);
    InvAt(s, x);
    hide Inv;
    match a {
      case Begin(_, call, n) => RouseShared(s, x, BeginOp(s.sh, At(s, x), call, n), x);
      case UserMoves(_, pick) =>
        UserOwn(s.sh, x, At(s, x));
        ReceivePeer(s.sh, d, UserOp(s.sh, x, At(s, x)));
        RouseShared(s, x, UserOp(s.sh, x, At(s, x)), pick);
        hide UserOp;
      case ShutdownMoves(_, pick) =>
        ShutdownOwn(s.sh, x, At(s, x));
        ReceivePeer(s.sh, d, ShutdownOp(s.sh, x, At(s, x)));
        RouseShared(s, x, ShutdownOp(s.sh, x, At(s, x)), pick);
        hide ShutdownOp;
      case SpuriousWake(_) =>
    }
  }

  lemma SendAfterOwn(s: State, d: Side, a: Action)
    requires Inv(s) && Sending(s.sh, d, At(s, d)) && !HandedOver(s.sh, At(s, d)) && Enabled(s, a) && a.d == d
    ensures SendAdvances(s, d, Apply(s, a), a.UserMoves?)
  {
    StepAt(s, d, a);
    InvAt(s, d);
    hide Inv;
    hide Apply;
    match a {
      case Begin(_, call, n) =>
      case UserMoves(_, _) =>
        SendUser(s.sh, d, At(s, d));
        hide UserOp;
      case ShutdownMoves(_, _) =>
        OwnParts(s.sh, d, At(s, d));
        hide OwnInv;
        hide TransferInv;
        hide CallInv;
      case SpuriousWake(_) =>
    }
  }

  lemma SendPlanSound(d: Side)
    ensures Sound(SendPlan(d))
  {
    hide Inv;
    hide Apply;
    hide Enabled;
    hide HandedOver;
    hide SendRank;
    forall s | Inv(s) && SendPlan(d).pre(s) && !SendPlan(d).goal(s)
      ensures Runnable(s, SendPlan(d).helper(s))
    {
    }
    hide Sending;
    hide At;
    forall s, a | Inv(s) && SendPlan(d).pre(s) && !SendPlan(d).goal(s) && Enabled(s, a)
      ensures Advances(SendPlan(d), s, a)
    {
      if a.d == d {
        SendAfterOwn(s, d, a);
      } else {
        SendAfterPeer(s, d, a);
        SendUnaffected(s, d, a);
      }
    }
  }

  lemma SendUnaffected(s: State, d: Side, a: Action)
    requires Sending(s.sh, d, At(s, d))
    requires At(Apply(s, a), d) == At(s, d) && Apply(s, a).sh.log == s.sh.log && Apply(s, a).sh.owner == d
    ensures SendAdvances(s, d, Apply(s, a), false)
  {
    hide Apply;
    hide At;
  }

  /** On every fair run, a call that sends hands over control, unless the endpoint
      or the connection is shut down. */
  lemma MessageIsSent(r: Behavior, d: Side, i: nat)
    requires IsInfiniteRun(r) && Fair(r) && Sending(r.states(i).sh, d, At(r.states(i), d))
    ensures exists k: nat :: k >= i && HandedOver(r.states(k).sh, At(r.states(k), d))
  {
    hide Inv;
    hide Sound;
    hide IsInfiniteRun;
    hide Fair;
    SendPlanSound(d);
    EventuallyGoal(r, SendPlan(d), i);
    var k: nat :| k >= i && SendPlan(d).goal(r.states(k));
  }
}
