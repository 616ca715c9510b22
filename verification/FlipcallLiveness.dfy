/** Liveness of the flipcall protocol under weak fairness: Shutdown on either
    endpoint takes effect, and then every call in progress on either endpoint
    returns. */
module FlipcallLiveness {
  import opened Options
  import opened Flipcall

  // ---------------------------------------------------------------------
  // Fair runs
  // ---------------------------------------------------------------------

  datatype Thread = UserThread(d: Side) | ShutdownThread(d: Side)

  /** The thread is inside a call and not asleep. */
  predicate Runnable(s: State, t: Thread) {
    match t
    case UserThread(d) => UserEnabled(At(s, d))
    case ShutdownThread(d) => ShutdownEnabled(At(s, d)) && At(s, d).sd != NotCalled
  }

  predicate IsMoveOf(a: Action, t: Thread) {
    match t
    case UserThread(d) => a.UserMoves? && a.d == d
    case ShutdownThread(d) => a.ShutdownMoves? && a.d == d
  }

  /** An infinite run: each step is an enabled action, or nothing happens. */
  datatype Behavior = Behavior(states: nat -> State, moves: nat -> Option<Action>)

  ghost predicate IsInfiniteRun(r: Behavior) {
    && Inv(r.states(0))
    && forall i: nat :: RunStep(r, i)
  }

  ghost predicate RunStep(r: Behavior, i: nat) {
    match r.moves(i)
    case None => r.states(i + 1) == r.states(i)
    case Some(a) => Enabled(r.states(i), a) && r.states(i + 1) == Apply(r.states(i), a)
  }

  ghost predicate MovesAt(r: Behavior, t: Thread, i: nat) {
    r.moves(i).Some? && IsMoveOf(r.moves(i).value, t)
  }

  /** Weak fairness: from any point on, every thread either moves or is at
      some moment not runnable. */
  ghost predicate Fair(r: Behavior) {
    forall t: Thread, i: nat {:trigger FairAt(r, t, i)} :: FairAt(r, t, i)
  }

  ghost predicate FairAt(r: Behavior, t: Thread, i: nat) {
    exists j: nat :: i <= j && (MovesAt(r, t, j) || !Runnable(r.states(j), t))
  }

  lemma {:induction false} InvAlongRun(r: Behavior, i: nat)
    requires IsInfiniteRun(r)
    ensures Inv(r.states(i))
  {
    hide Inv;
    hide Apply;
    hide Enabled;
    if i > 0 {
      InvAlongRun(r, i - 1);
      assert RunStep(r, i - 1);
      if r.moves(i - 1).Some? { StepKeepsInv(r.states(i - 1), r.moves(i - 1).value); }
    }
  }

  // ---------------------------------------------------------------------
  // The proof rule
  // ---------------------------------------------------------------------

  /** A goal, a rank, and the thread whose next move must lower the rank. */
  datatype Plan = Plan(pre: State -> bool, goal: State -> bool, rank: State -> nat, helper: State -> Thread)

  /** From s, action a reaches the goal, lowers the rank, or leaves rank and
      helper as they are and was not the helper's move. */
  ghost predicate Advances(plan: Plan, s: State, a: Action) {
    var s' := Apply(s, a);
    || plan.goal(s')
    || (&& plan.pre(s')
        && (|| plan.rank(s') < plan.rank(s)
            || (plan.rank(s') == plan.rank(s) && plan.helper(s') == plan.helper(s) && !IsMoveOf(a, plan.helper(s)))))
  }

  ghost predicate Sound(plan: Plan) {
    && (forall s :: Inv(s) && plan.pre(s) && !plan.goal(s) ==> Runnable(s, plan.helper(s)))
    && (forall s, a :: Inv(s) && plan.pre(s) && !plan.goal(s) && Enabled(s, a) ==> Advances(plan, s, a))
  }

  lemma {:induction false} ReachesGoal(r: Behavior, plan: Plan, i: nat, j: nat) returns (k: nat)
    requires IsInfiniteRun(r) && Fair(r) && Sound(plan)
    requires plan.pre(r.states(i)) || plan.goal(r.states(i))
    requires i <= j
    requires !plan.goal(r.states(i)) ==>
               var t := plan.helper(r.states(i)); MovesAt(r, t, j) || !Runnable(r.states(j), t)
    ensures k >= i && plan.goal(r.states(k))
    decreases if plan.goal(r.states(i)) then 0 else plan.rank(r.states(i)) + 1, j - i
  {
    hide Inv;
    hide Apply;
    hide Enabled;
    hide Runnable;
    hide IsMoveOf;
    var s, s' := r.states(i), r.states(i + 1);
    if plan.goal(s) {
      return i;
    }
    InvAlongRun(r, i);
    assert RunStep(r, i);
    var t := plan.helper(s);
    if r.moves(i).None? {
      assert i < j;
      k := ReachesGoal(r, plan, i + 1, j);
    } else {
      assert Advances(plan, s, r.moves(i).value);
      if !plan.goal(s') && plan.rank(s') == plan.rank(s) {
        assert i < j;
        k := ReachesGoal(r, plan, i + 1, j);
      } else {
        var t' := plan.helper(s');
        assert FairAt(r, t', i + 1);
        var j': nat :| i + 1 <= j' && (MovesAt(r, t', j') || !Runnable(r.states(j'), t'));
        k := ReachesGoal(r, plan, i + 1, j');
      }
    }
  }

  lemma EventuallyGoal(r: Behavior, plan: Plan, i: nat)
    requires IsInfiniteRun(r) && Fair(r) && Sound(plan) && plan.pre(r.states(i))
    ensures exists k: nat :: k >= i && plan.goal(r.states(k))
  {
    hide Inv;
    hide Sound;
    var t := plan.helper(r.states(i));
    assert FairAt(r, t, i);
    var j: nat :| i <= j && (MovesAt(r, t, j) || !Runnable(r.states(j), t));
    var k := ReachesGoal(r, plan, i, j);
  }

  // ---------------------------------------------------------------------
  // Shutdown takes effect: once an endpoint's flag is set, the connection
  // state becomes csShutdown
  // ---------------------------------------------------------------------

  /** How far the user thread is from running shutdownConn, given that its
      flag is set: it may still have to finish a handshake and a wait. */
  function DistanceToSwap(u: User): nat {
    match u.loc
    case Wait => if u.first then 20 else 9
    case Asleep => if u.first then 19 else 8
    case Load => if u.first then 18 else 7
    case CheckFlag => if u.first then 17 else 6
    case ReadInside => if u.first then 16 else 5
    case StoreInside => 15
    case Cas => 14
    case CasFailed => 13
    case Wake => 12
    case Exit => 3
    case ConnSwap => 2
    case _ => 0
  }

  function SwapRank(e: Endpoint): nat {
    if e.sd == AddFlag then 1000
    else if e.sd == SdConnSwap then 1
    else 10 * DistanceToSwap(e.user) + (if !Sleeping(e) then 0 else if e.sd == Poll then 2 else 1)
  }

  function SwapHelper(d: Side, e: Endpoint): Thread {
    if e.sd == AddFlag || e.sd == SdConnSwap || Sleeping(e) then ShutdownThread(d) else UserThread(d)
  }

  function SwapPlan(d: Side): Plan {
    Plan((s: State) => At(s, d).flag,
         (s: State) => s.sh.cs == CS_SHUTDOWN,
         (s: State) => SwapRank(At(s, d)),
         (s: State) => SwapHelper(d, At(s, d)))
  }

  /** The endpoint after a move of thread t, from e, is closer to the swap. */
  predicate SwapAdvances(d: Side, e: Endpoint, e': Endpoint, byHelper: bool) {
    && e'.flag
    && (|| SwapRank(e') < SwapRank(e)
        || (SwapRank(e') == SwapRank(e) && SwapHelper(d, e') == SwapHelper(d, e) && !byHelper))
  }

  lemma SwapHelperRunnable(sh: Shared, d: Side, e: Endpoint)
    requires ControlInv(sh, e) && e.flag && sh.cs != CS_SHUTDOWN
    ensures match SwapHelper(d, e)
            case UserThread(_) => UserEnabled(e)
            case ShutdownThread(_) => ShutdownEnabled(e) && e.sd != NotCalled
  {
  }

  lemma SwapUser(sh: Shared, d: Side, e: Endpoint)
    requires ControlInv(sh, e) && CallInv(d, e.user) && e.flag && sh.cs != CS_SHUTDOWN && UserEnabled(e)
    ensures var eff := UserOp(sh, d, e);
            eff.sh.cs == CS_SHUTDOWN || SwapAdvances(d, e, eff.e, SwapHelper(d, e) == UserThread(d))
  {
  }

  lemma SwapShutdown(sh: Shared, d: Side, e: Endpoint)
    requires ControlInv(sh, e) && e.flag && sh.cs != CS_SHUTDOWN && ShutdownEnabled(e)
    ensures var eff := ShutdownOp(sh, d, e);
            var e' := if eff.wakes == WakesAll then Woken(eff.e) else eff.e;
            eff.sh.cs == CS_SHUTDOWN || SwapAdvances(d, e, e', SwapHelper(d, e) == ShutdownThread(d))
  {
  }

  lemma SwapBegin(sh: Shared, d: Side, e: Endpoint, call: Call, n: nat)
    requires ControlInv(sh, e) && e.flag && sh.cs != CS_SHUTDOWN && MayCall(sh, d, e, call, n)
    ensures SwapAdvances(d, e, BeginOp(sh, e, call, n).e, false)
  {
  }

  lemma SwapWoken(sh: Shared, d: Side, e: Endpoint)
    requires ControlInv(sh, e) && e.flag
    ensures SwapAdvances(d, e, Woken(e), false)
  {
  }

  // ---------------------------------------------------------------------
  // What a step leaves of each endpoint
  // ---------------------------------------------------------------------

  lemma PerformOwn(s: State, d: Side, eff: Effect, pick: Side)
    ensures var e' := At(Perform(s, d, eff, pick), d);
            && (e' == eff.e || e' == Woken(eff.e))
            && (eff.wakes == WakesNone ==> e' == eff.e)
            && (eff.wakes == WakesAll ==> e' == Woken(eff.e))
  {
  }

  lemma PerformPeer(s: State, d: Side, eff: Effect, pick: Side)
    ensures var p, p' := At(s, Other(d)), At(Perform(s, d, eff, pick), Other(d));
            && (p' == p || p' == Woken(p))
            && (eff.wakes == WakesNone ==> p' == p)
            && (eff.wakes == WakesAll || (eff.wakes == WakesOne && !Sleeping(eff.e)) ==> p' == Woken(p))
  {
  }

  lemma UserOpAwake(sh: Shared, d: Side, e: Endpoint)
    requires UserOp(sh, d, e).wakes != WakesNone
    ensures UserOp(sh, d, e).wakes == WakesOne && !Sleeping(UserOp(sh, d, e).e)
  {
  }

  lemma ShutdownOpWakes(sh: Shared, d: Side, e: Endpoint)
    requires ControlInv(sh, e) && sh.cs != CS_SHUTDOWN
    ensures ShutdownOp(sh, d, e).wakes != WakesOne
  {
  }

  lemma InvAt(s: State, d: Side)
    requires Inv(s)
    ensures OwnInv(s.sh, d, At(s, d)) && SleepInv(s.sh, d, At(s, d), At(s, Other(d)))
  {
    hide OwnInv;
    hide SleepInv;
  }

  /** What any enabled action does to endpoint d and, if d acts, to the words. */
  lemma StepAt(s: State, d: Side, a: Action)
    requires Enabled(s, a)
    ensures var e, e', sh' := At(s, d), At(Apply(s, a), d), Apply(s, a).sh;
            if a.d != d || a.SpuriousWake? then e' == e || e' == Woken(e)
            else match a
              case Begin(_, call, n) => e' == BeginOp(s.sh, e, call, n).e
              case UserMoves(_, _) => Effect(sh', e', UserOp(s.sh, d, e).wakes) == UserOp(s.sh, d, e)
              case ShutdownMoves(_, _) =>
                var eff := ShutdownOp(s.sh, d, e);
                && sh' == eff.sh
                && (|| e' == (if eff.wakes == WakesAll then Woken(eff.e) else eff.e)
                    || (eff.wakes == WakesOne && e' == Woken(eff.e)))
              case SpuriousWake(_) => true
  {
    hide UserOp;
    hide ShutdownOp;
    hide Perform;
    match a {
      case Begin(x, call, n) =>
        var eff := BeginOp(s.sh, At(s, x), call, n);
        PerformOwn(s, x, eff, x);
        PerformPeer(s, x, eff, x);
      case UserMoves(x, pick) =>
        var eff := UserOp(s.sh, x, At(s, x));
        PerformOwn(s, x, eff, pick);
        PerformPeer(s, x, eff, pick);
        RouseShared(s, x, eff, pick);
        if eff.wakes != WakesNone { UserOpAwake(s.sh, x, At(s, x)); }
      case ShutdownMoves(x, pick) =>
        var eff := ShutdownOp(s.sh, x, At(s, x));
        PerformOwn(s, x, eff, pick);
        PerformPeer(s, x, eff, pick);
        RouseShared(s, x, eff, pick);
      case SpuriousWake(x) =>
    }
  }

  lemma SwapStepAdvances(s: State, d: Side, a: Action)
    requires Inv(s) && At(s, d).flag && s.sh.cs != CS_SHUTDOWN && Enabled(s, a)
    ensures Apply(s, a).sh.cs == CS_SHUTDOWN
            || SwapAdvances(d, At(s, d), At(Apply(s, a), d), IsMoveOf(a, SwapHelper(d, At(s, d))))
  {
    hide Inv;
    hide SharedInv;
    hide ControlInv;
    hide TransferInv;
    hide CallInv;
    hide SleepInv;
    hide Apply;
    hide UserOp;
    hide ShutdownOp;
    hide SwapRank;
    InvAt(s, d);
    StepAt(s, d, a);
    var e := At(s, d);
    SwapWoken(s.sh, d, e);
    SwapSame(d, e);
    if a.d == d {
      match a {
        case Begin(_, call, n) => SwapBegin(s.sh, d, e, call, n);
        case UserMoves(_, _) => SwapUser(s.sh, d, e);
        case ShutdownMoves(_, _) => SwapShutdown(s.sh, d, e); ShutdownOpWakes(s.sh, d, e);
        case SpuriousWake(_) =>
      }
    }
  }

  lemma SwapSame(d: Side, e: Endpoint)
    requires e.flag
    ensures SwapAdvances(d, e, e, false)
  {
  }

  lemma SwapPlanSound(d: Side)
    ensures Sound(SwapPlan(d))
  {
    hide Inv;
    hide Apply;
    hide Enabled;
    hide SwapRank;
    hide SwapHelper;
    hide IsMoveOf;
    hide At;
    forall s | Inv(s) && SwapPlan(d).pre(s) && !SwapPlan(d).goal(s)
      ensures Runnable(s, SwapPlan(d).helper(s))
    {
      InvAt(s, d);
      SwapHelperIsRunnable(s, d);
    }
    forall s, a | Inv(s) && SwapPlan(d).pre(s) && !SwapPlan(d).goal(s) && Enabled(s, a)
      ensures Advances(SwapPlan(d), s, a)
    {
      SwapStepAdvances(s, d, a);
    }
  }

  lemma SwapHelperIsRunnable(s: State, d: Side)
    requires ControlInv(s.sh, At(s, d)) && At(s, d).flag && s.sh.cs != CS_SHUTDOWN
    ensures Runnable(s, SwapHelper(d, At(s, d)))
  {
    hide ControlInv;
    SwapHelperRunnable(s.sh, d, At(s, d));
  }

  /** Once Shutdown has been called on either endpoint, the connection is
      eventually shut down, whatever the other threads do. */
  lemma ShutdownTakesEffect(r: Behavior, d: Side, i: nat)
    requires IsInfiniteRun(r) && Fair(r) && At(r.states(i), d).flag
    ensures exists k: nat :: k >= i && r.states(k).sh.cs == CS_SHUTDOWN
  {
    hide IsInfiniteRun;
    hide Fair;
    hide Sound;
    hide At;
    SwapPlanSound(d);
    EventuallyGoal(r, SwapPlan(d), i);
    var k: nat :| k >= i && SwapPlan(d).goal(r.states(k));
  }

  // ---------------------------------------------------------------------
  // Calls return: once the connection is shut down, no call stays blocked
  // ---------------------------------------------------------------------

  predicate InCall(u: User) {
    u.loc != Fresh && u.loc != Ready && u.loc != Done && u.loc != Failed && u.loc != Panicked
  }

  /** Once the word is csShutdown, the number of operations a user thread has
      left is at most this: no call can succeed twice any more. */
  function Budget(u: User): nat {
    match u.loc
    case EnterUndo => 1
    case ConnWake => if u.err != NoError then 2 else 17
    case ConnSwap => if u.err != NoError then 3 else 18
    case Exit => if u.err != NoError then 4 else 19
    case Load => 5
    case Asleep => 6
    case Wait => 7
    case CheckFlag => 8
    case CasFailed => 9
    case Cas => 10
    case Wake => 11
    case StoreInside => 12
    case Enter => 13
    case Store => 14
    case Ready | Fresh => 15
    case FinalRead => 16
    case ReadInside => 20
    case Done | Failed | Panicked => 0
  }

  /** A sleeper waits for its peer's pending wake. */
  function ReturnHelper(d: Side, e: Endpoint, p: Endpoint): Thread {
    if !Sleeping(e) then UserThread(d)
    else if p.sd == SdConnWake then ShutdownThread(Other(d))
    else UserThread(Other(d))
  }

  function ReturnPlan(d: Side): Plan {
    Plan((s: State) => s.sh.cs == CS_SHUTDOWN,
         (s: State) => !InCall(At(s, d).user),
         (s: State) => Budget(At(s, d).user),
         (s: State) => ReturnHelper(d, At(s, d), At(s, Other(d))))
  }

  lemma ReturnUser(sh: Shared, d: Side, e: Endpoint)
    requires ControlInv(sh, e) && CallInv(d, e.user) && sh.cs == CS_SHUTDOWN && UserEnabled(e)
    ensures Budget(UserOp(sh, d, e).e.user) < Budget(e.user)
  {
  }

  /** Closer to returning; or no closer, with the same helper, whose move it
      was not. */
  predicate ReturnAdvances(d: Side, e: Endpoint, p: Endpoint, e': Endpoint, p': Endpoint, byHelper: bool) {
    || Budget(e'.user) < Budget(e.user)
    || (e'.user == e.user && ReturnHelper(d, e', p') == ReturnHelper(d, e, p) && !byHelper)
  }

  lemma ReturnHelperRunnable(s: State, d: Side)
    requires SleepInv(s.sh, d, At(s, d), At(s, Other(d)))
    requires s.sh.cs == CS_SHUTDOWN && InCall(At(s, d).user)
    ensures Runnable(s, ReturnHelper(d, At(s, d), At(s, Other(d))))
  {
  }

  /** The peer's user thread moves: a sleeper whose wake was pending there is
      awake now, and otherwise its helper is as before. */
  lemma ReturnPeerUser(sh: Shared, d: Side, e: Endpoint, p: Endpoint)
    requires SleepInv(sh, d, e, p) && sh.cs == CS_SHUTDOWN && UserEnabled(p)
    ensures var eff := UserOp(sh, Other(d), p);
            && eff.e.sd == p.sd
            && (eff.wakes == WakesNone ==> ReturnHelper(d, e, p) != UserThread(Other(d)))
  {
  }

  lemma ReturnPeerShutdown(sh: Shared, d: Side, e: Endpoint, p: Endpoint)
    requires SleepInv(sh, d, e, p) && sh.cs == CS_SHUTDOWN && ShutdownEnabled(p)
    ensures var eff := ShutdownOp(sh, Other(d), p);
            && eff.e.user == p.user
            && (eff.wakes == WakesNone ==>
                  && ReturnHelper(d, e, p) != ShutdownThread(Other(d))
                  && ReturnHelper(d, e, eff.e) == ReturnHelper(d, e, p))
  {
  }

  /** What the peer sees of a step of x, and x of its own. */
  lemma ReturnAfterUser(s: State, d: Side, x: Side, pick: Side)
    requires Inv(s) && s.sh.cs == CS_SHUTDOWN && UserEnabled(At(s, x))
    ensures var s' := Perform(s, x, UserOp(s.sh, x, At(s, x)), pick);
            var e, p := At(s, d), At(s, Other(d));
            ReturnAdvances(d, e, p, At(s', d), At(s', Other(d)), ReturnHelper(d, e, p) == UserThread(x))
  {
    hide Inv;
    hide SharedInv;
    hide ControlInv;
    hide TransferInv;
    hide CallInv;
    hide Perform;
    hide UserOp;
    InvAt(s, d);
    var e, p := At(s, d), At(s, Other(d));
    var eff := UserOp(s.sh, x, At(s, x));
    PerformOwn(s, x, eff, pick);
    PerformPeer(s, x, eff, pick);
    if eff.wakes != WakesNone { UserOpAwake(s.sh, x, At(s, x)); }
    if x == d {
      hide SleepInv;
      ReturnUser(s.sh, d, e);
    } else {
      ReturnPeerUser(s.sh, d, e, p);
    }
  }

  lemma ReturnAfterShutdown(s: State, d: Side, x: Side, pick: Side)
    requires Inv(s) && s.sh.cs == CS_SHUTDOWN && ShutdownEnabled(At(s, x))
    ensures var s' := Perform(s, x, ShutdownOp(s.sh, x, At(s, x)), pick);
            var e, p := At(s, d), At(s, Other(d));
            ReturnAdvances(d, e, p, At(s', d), At(s', Other(d)), ReturnHelper(d, e, p) == ShutdownThread(x))
  {
    hide Inv;
    hide SharedInv;
    hide ControlInv;
    hide TransferInv;
    hide CallInv;
    hide Perform;
    hide ShutdownOp;
    InvAt(s, d);
    var e, p := At(s, d), At(s, Other(d));
    var eff := ShutdownOp(s.sh, x, At(s, x));
    PerformOwn(s, x, eff, pick);
    PerformPeer(s, x, eff, pick);
    if x == d {
      ShutdownOpUser(s.sh, x, e);
    } else {
      ReturnPeerShutdown(s.sh, d, e, p);
    }
  }

  lemma ShutdownOpUser(sh: Shared, d: Side, e: Endpoint)
    ensures ShutdownOp(sh, d, e).e.user == e.user
  {
  }

  lemma ReturnStepAdvances(s: State, d: Side, a: Action)
    requires Inv(s) && s.sh.cs == CS_SHUTDOWN && InCall(At(s, d).user) && Enabled(s, a)
    ensures var s' := Apply(s, a);
            var e, p := At(s, d), At(s, Other(d));
            ReturnAdvances(d, e, p, At(s', d), At(s', Other(d)), IsMoveOf(a, ReturnHelper(d, e, p)))
  {
    hide Inv;
    hide Perform;
    hide UserOp;
    hide ShutdownOp;
    match a {
      case Begin(x, call, n) =>
        var eff := BeginOp(s.sh, At(s, x), call, n);
        PerformOwn(s, x, eff, x);
        PerformPeer(s, x, eff, x);
      case UserMoves(x, pick) => ReturnAfterUser(s, d, x, pick);
      case ShutdownMoves(x, pick) => ReturnAfterShutdown(s, d, x, pick);
      case SpuriousWake(x) =>
    }
  }

  lemma ReturnPlanSound(d: Side)
    ensures Sound(ReturnPlan(d))
  {
    hide Inv;
    hide Apply;
    hide Enabled;
    hide Budget;
    hide ReturnHelper;
    hide IsMoveOf;
    hide InCall;
    hide At;
    forall s | Inv(s) && ReturnPlan(d).pre(s) && !ReturnPlan(d).goal(s)
      ensures Runnable(s, ReturnPlan(d).helper(s))
    {
      InvAt(s, d);
      ReturnHelperRunnable(s, d);
    }
    forall s, a | Inv(s) && ReturnPlan(d).pre(s) && !ReturnPlan(d).goal(s) && Enabled(s, a)
      ensures Advances(ReturnPlan(d), s, a)
    {
      ReturnStepAdvances(s, d, a);
      ShutdownStepIsFinal(s, a);
    }
  }

  /** Once Shutdown has been called on either endpoint, every call in progress
      on either endpoint returns. */
  lemma EveryCallReturns(r: Behavior, caller: Side, d: Side, i: nat)
    requires IsInfiniteRun(r) && Fair(r) && At(r.states(i), caller).flag
    ensures exists k: nat :: k >= i && r.states(k).sh.cs == CS_SHUTDOWN && !InCall(At(r.states(k), d).user)
  {
    hide IsInfiniteRun;
    hide Fair;
    hide Sound;
    hide At;
    hide InCall;
    ShutdownTakesEffect(r, caller, i);
    var j: nat :| j >= i && r.states(j).sh.cs == CS_SHUTDOWN;
    ReturnPlanSound(d);
    EventuallyGoal(r, ReturnPlan(d), j);
    var k: nat :| k >= j && ReturnPlan(d).goal(r.states(k));
    StaysShutDown(r, j, k);
  }

  lemma {:induction false} StaysShutDown(r: Behavior, j: nat, k: nat)
    requires IsInfiniteRun(r) && j <= k && r.states(j).sh.cs == CS_SHUTDOWN
    ensures r.states(k).sh.cs == CS_SHUTDOWN
    decreases k - j
  {
    hide Inv;
    hide Apply;
    hide Enabled;
    if j < k {
      InvAlongRun(r, j);
      assert RunStep(r, j);
      if r.moves(j).Some? { ShutdownStepIsFinal(r.states(j), r.moves(j).value); }
      StaysShutDown(r, j + 1, k);
    }
  }

  // ---------------------------------------------------------------------
  // Shutdown itself returns
  // ---------------------------------------------------------------------

  function StopRank(e: Endpoint): nat {
    4 * Budget(e.user) +
    if e.sd == AddFlag then 3
    else if e.sd == SdConnSwap then 2
    else if e.sd == SdConnWake then 1
    else if Blocked(e.user) && !Sleeping(e) then 0
    else if Sleeping(e) == (e.sd == Poll) then 2
    else 1
  }

  /** Shutdown moves on its own, except that its loop waits for a user thread
      that is blocked and awake. */
  function StopHelper(d: Side, e: Endpoint): Thread {
    if InLoop(e.sd) && Blocked(e.user) && !Sleeping(e) then UserThread(d) else ShutdownThread(d)
  }

  function StopPlan(d: Side): Plan {
    Plan((s: State) => s.sh.cs == CS_SHUTDOWN && At(s, d).flag,
         (s: State) => At(s, d).sd == Finished,
         (s: State) => StopRank(At(s, d)),
         (s: State) => StopHelper(d, At(s, d)))
  }

  predicate StopAdvances(d: Side, e: Endpoint, e': Endpoint, byHelper: bool) {
    || e'.sd == Finished
    || (&& e'.flag
        && (|| StopRank(e') < StopRank(e)
            || (StopRank(e') == StopRank(e) && StopHelper(d, e') == StopHelper(d, e) && !byHelper)))
  }

  lemma StopUser(sh: Shared, d: Side, e: Endpoint)
    requires ControlInv(sh, e) && CallInv(d, e.user) && e.flag && sh.cs == CS_SHUTDOWN && UserEnabled(e)
    ensures StopAdvances(d, e, UserOp(sh, d, e).e, StopHelper(d, e) == UserThread(d))
  {
    hide Budget;
    ReturnUser(sh, d, e);
  }

  lemma StopShutdown(sh: Shared, d: Side, e: Endpoint)
    requires ControlInv(sh, e) && e.flag && sh.cs == CS_SHUTDOWN && ShutdownEnabled(e)
    ensures var eff := ShutdownOp(sh, d, e);
            var e' := if eff.wakes == WakesAll then Woken(eff.e) else eff.e;
            && StopAdvances(d, e, e', StopHelper(d, e) == ShutdownThread(d))
            && (eff.wakes == WakesOne ==> eff.e.sd == Finished)
  {
  }

  lemma StopOther(d: Side, e: Endpoint)
    requires e.flag
    ensures StopAdvances(d, e, e, false) && StopAdvances(d, e, Woken(e), false)
  {
  }

  lemma StopBegin(sh: Shared, d: Side, e: Endpoint, call: Call, n: nat)
    requires e.flag && MayCall(sh, d, e, call, n)
    ensures StopAdvances(d, e, BeginOp(sh, e, call, n).e, false)
  {
  }

  lemma StopStepAdvances(s: State, d: Side, a: Action)
    requires Inv(s) && At(s, d).flag && s.sh.cs == CS_SHUTDOWN && Enabled(s, a)
    requires At(s, d).sd != Finished
    ensures StopAdvances(d, At(s, d), At(Apply(s, a), d), IsMoveOf(a, StopHelper(d, At(s, d))))
  {
    hide Inv;
    hide SharedInv;
    hide ControlInv;
    hide TransferInv;
    hide CallInv;
    hide SleepInv;
    hide Apply;
    hide UserOp;
    hide ShutdownOp;
    hide StopRank;
    InvAt(s, d);
    StepAt(s, d, a);
    var e := At(s, d);
    StopOther(d, e);
    if a.d == d {
      match a {
        case Begin(_, call, n) => StopBegin(s.sh, d, e, call, n);
        case UserMoves(_, _) => StopUser(s.sh, d, e);
        case ShutdownMoves(_, _) => StopShutdown(s.sh, d, e);
        case SpuriousWake(_) =>
      }
    }
  }

  lemma StopHelperRunnable(s: State, d: Side)
    requires At(s, d).flag && At(s, d).sd != Finished && ControlInv(s.sh, At(s, d))
    ensures Runnable(s, StopHelper(d, At(s, d)))
  {
  }

  lemma StopPlanSound(d: Side)
    ensures Sound(StopPlan(d))
  {
    hide Inv;
    hide Apply;
    hide Enabled;
    hide StopRank;
    hide StopHelper;
    hide IsMoveOf;
    hide At;
    forall s | Inv(s) && StopPlan(d).pre(s) && !StopPlan(d).goal(s)
      ensures Runnable(s, StopPlan(d).helper(s))
    {
      InvAt(s, d);
      StopHelperRunnable(s, d);
    }
    forall s, a | Inv(s) && StopPlan(d).pre(s) && !StopPlan(d).goal(s) && Enabled(s, a)
      ensures Advances(StopPlan(d), s, a)
    {
      StopStepAdvances(s, d, a);
      ShutdownStepIsFinal(s, a);
    }
  }

  /** Every Shutdown call returns. */
  lemma ShutdownReturns(r: Behavior, d: Side, i: nat)
    requires IsInfiniteRun(r) && Fair(r) && At(r.states(i), d).flag
    ensures exists k: nat :: k >= i && At(r.states(k), d).sd == Finished
  {
    hide IsInfiniteRun;
    hide Fair;
    hide Sound;
    hide At;
    ShutdownTakesEffect(r, d, i);
    var j: nat :| j >= i && r.states(j).sh.cs == CS_SHUTDOWN;
    FlagStays(r, d, i, j);
    StopPlanSound(d);
    EventuallyGoal(r, StopPlan(d), j);
    var k: nat :| k >= j && StopPlan(d).goal(r.states(k));
  }

  lemma FlagStep(s: State, d: Side, a: Action)
    requires Enabled(s, a) && At(s, d).flag
    ensures At(Apply(s, a), d).flag
  {
    hide Apply;
    StepAt(s, d, a);
  }

  lemma {:induction false} FlagStays(r: Behavior, d: Side, j: nat, k: nat)
    requires IsInfiniteRun(r) && j <= k && At(r.states(j), d).flag
    ensures At(r.states(k), d).flag
    decreases k - j
  {
    hide Inv;
    hide Apply;
    hide Enabled;
    hide At;
    if j < k {
      assert RunStep(r, j);
      if r.moves(j).Some? { FlagStep(r.states(j), d, r.moves(j).value); }
      FlagStays(r, d, j + 1, k);
    }
  }
}
