/** What the lengths are: every message carries the length that the call which
    sends it was given, and every call returns the length that its peer passed. */
module FlipcallData {
  import opened Flipcall

  /** The lengths sent by d, in order. */
  function SentBy(log: seq<Event>, d: Side): seq<nat> {
    if log == [] then []
    else
      var ev := log[|log| - 1];
      SentBy(log[..|log| - 1], d) + if ev.Sent? && ev.from == d then [ev.len] else []
  }

  /** The lengths that the calls of d have received, in order. */
  function ReceivedBy(log: seq<Event>, d: Side): seq<nat> {
    if log == [] then []
    else
      var ev := log[|log| - 1];
      ReceivedBy(log[..|log| - 1], d) + if ev.Received? && ev.reader == d then [ev.len] else []
  }

  /** The length of the message of a call: the handshake's for the two calls that
      make the connection, and the argument otherwise. */
  function Length(call: Call, n: nat): nat {
    match call
    case Connect => HANDSHAKE_LENGTH
    case RecvFirst => HANDSHAKE_LENGTH
    case SendRecv => n
    case SendLast => n
  }

  /** The lengths that the calls of d were made with, in order. */
  function Asked(actions: seq<Action>, d: Side): seq<nat> {
    if actions == [] then []
    else
      var a := actions[|actions| - 1];
      Asked(actions[..|actions| - 1], d) + if a.Begin? && a.d == d then [Length(a.call, a.n)] else []
  }

  lemma SentSnoc(log: seq<Event>, ev: Event, d: Side)
    ensures SentBy(log + [ev], d) == SentBy(log, d) + if ev.Sent? && ev.from == d then [ev.len] else []
    ensures ReceivedBy(log + [ev], d)
         == ReceivedBy(log, d) + if ev.Received? && ev.reader == d then [ev.len] else []
  {
    assert (log + [ev])[..|log|] == log;
  }

  lemma AskedSnoc(actions: seq<Action>, a: Action, d: Side)
    ensures Asked(actions + [a], d) == Asked(actions, d) + if a.Begin? && a.d == d then [Length(a.call, a.n)] else []
  {
    assert (actions + [a])[..|actions|] == actions;
  }

  // ---------------------------------------------------------------------
  // The invariant
  // ---------------------------------------------------------------------

  /** Still waiting for its turn, or for the first message after the handshake. */
  predicate Waiting(u: User) {
    u.loc == Load || u.loc == CheckFlag || u.loc == Wait || u.loc == Asleep || u.loc == ReadInside
  }

  /** In a call whose message has not been sent. */
  predicate Unsent(u: User) {
    match u.loc
    case Store | Enter | EnterUndo | StoreInside | Cas | CasFailed => true
    case _ => Waiting(u) && u.first
  }

  /** In no call, or in one whose message has been sent and that has not failed. */
  predicate AllSent(u: User) {
    match u.loc
    case Fresh | Ready | Done | Wake | FinalRead => true
    case _ => Leaving(u) || (Waiting(u) && !u.first)
  }

  predicate DataInv(sent: seq<nat>, u: User, asked: seq<nat>) {
    && (Unsent(u) ==> asked == sent + [Length(u.call, u.n)])
    && (AllSent(u) ==> asked == sent)
    && (u.loc == Cas ==> u.n == Length(u.call, u.n))
    && (u.loc == Enter && u.call == RecvFirst ==> u.first)
    && sent <= asked && |asked| <= |sent| + 1
  }

  ghost predicate KeepsData(sh: Shared, d: Side, eff: Effect, e: Endpoint, asked: seq<nat>) {
    DataInv(SentBy(sh.log, d), e.user, asked) ==> DataInv(SentBy(eff.sh.log, d), eff.e.user, asked)
  }

  predicate Logs(loc: Loc) {
    loc == Cas || loc == ReadInside || loc == FinalRead
  }

  lemma LoggingData(sh: Shared, d: Side, e: Endpoint, asked: seq<nat>)
    requires OwnInv(sh, d, e) && Logs(e.user.loc)
    ensures KeepsData(sh, d, UserOp(sh, d, e), e, asked)
  {
    hide SharedInv;
    hide ControlInv;
    hide SentBy;
    hide Unread;
    WordOfOwner(sh);
    SentSnoc(sh.log, Sent(d, sh.dataLen), d);
    SentSnoc(sh.log, Received(d, sh.dataLen), d);
  }

  lemma EntryData(sh: Shared, d: Side, e: Endpoint, asked: seq<nat>)
    requires CallInv(d, e.user) && UserEnabled(e) && !Logs(e.user.loc) && !Waiting(e.user) && e.user.loc != Exit
    ensures KeepsData(sh, d, UserOp(sh, d, e), e, asked)
  {
    hide SentBy;
  }

  lemma WaitingData(sh: Shared, d: Side, e: Endpoint, asked: seq<nat>)
    requires CallInv(d, e.user) && UserEnabled(e) && !Logs(e.user.loc) && (Waiting(e.user) || e.user.loc == Exit)
    ensures KeepsData(sh, d, UserOp(sh, d, e), e, asked)
  {
    hide SentBy;
  }

  lemma UserData(sh: Shared, d: Side, e: Endpoint, asked: seq<nat>)
    requires OwnInv(sh, d, e) && UserEnabled(e)
    ensures KeepsData(sh, d, UserOp(sh, d, e), e, asked)
  {
    hide KeepsData;
    hide UserOp;
    hide UserEnabled;
    hide SharedInv;
    hide ControlInv;
    hide TransferInv;
    hide CallInv;
    if Logs(e.user.loc) {
      LoggingData(sh, d, e, asked);
    } else if Waiting(e.user) || e.user.loc == Exit {
      WaitingData(sh, d, e, asked);
    } else {
      EntryData(sh, d, e, asked);
    }
  }

  lemma BeginData(sh: Shared, d: Side, e: Endpoint, call: Call, n: nat, asked: seq<nat>)
    requires MayCall(sh, d, e, call, n) && DataInv(SentBy(sh.log, d), e.user, asked)
    ensures DataInv(SentBy(sh.log, d), BeginOp(sh, e, call, n).e.user, asked + [Length(call, n)])
  {
    hide SentBy;
  }

  /** A step of d leaves alone what its peer has sent. */
  lemma PeerData(sh: Shared, d: Side, e: Endpoint)
    ensures SentBy(UserOp(sh, d, e).sh.log, Other(d)) == SentBy(sh.log, Other(d))
  {
    hide SentBy;
    SentSnoc(sh.log, Sent(d, sh.dataLen), Other(d));
    SentSnoc(sh.log, Received(d, sh.dataLen), Other(d));
  }

  lemma WokenData(sent: seq<nat>, e: Endpoint, asked: seq<nat>)
    requires DataInv(sent, e.user, asked)
    ensures DataInv(sent, Woken(e).user, asked)
  {
  }

  ghost predicate AllData(s: State, actions: seq<Action>) {
    && DataInv(SentBy(s.sh.log, Client), s.client.user, Asked(actions, Client))
    && DataInv(SentBy(s.sh.log, Server), s.server.user, Asked(actions, Server))
  }

  lemma DataFromSide(s: State, actions: seq<Action>, d: Side)
    ensures AllData(s, actions) <==>
              && DataInv(SentBy(s.sh.log, d), At(s, d).user, Asked(actions, d))
              && DataInv(SentBy(s.sh.log, Other(d)), At(s, Other(d)).user, Asked(actions, Other(d)))
  {
    hide DataInv;
  }

  lemma RouseData(s: State, wakes: Wakes, pick: Side, actions: seq<Action>)
    requires AllData(s, actions)
    ensures AllData(Rouse(s, wakes, pick), actions)
  {
    WokenData(SentBy(s.sh.log, Client), s.client, Asked(actions, Client));
    WokenData(SentBy(s.sh.log, Server), s.server, Asked(actions, Server));
    hide DataInv;
    hide Woken;
    hide SentBy;
    hide Asked;
  }

  lemma PerformData(s: State, d: Side, eff: Effect, pick: Side, actions: seq<Action>)
    requires DataInv(SentBy(eff.sh.log, d), eff.e.user, Asked(actions, d))
    requires DataInv(SentBy(eff.sh.log, Other(d)), At(s, Other(d)).user, Asked(actions, Other(d)))
    ensures AllData(Perform(s, d, eff, pick), actions)
  {
    hide DataInv;
    hide AllData;
    hide SentBy;
    hide Asked;
    var s' := s.(sh := eff.sh);
    AtSet(s', d, eff.e);
    hide Set;
    DataFromSide(Set(s', d, eff.e), actions, d);
    hide Rouse;
    RouseData(Set(s', d, eff.e), eff.wakes, pick, actions);
  }

  lemma StepData(s: State, actions: seq<Action>, a: Action)
    requires Inv(s) && AllData(s, actions) && Enabled(s, a)
    ensures AllData(Apply(s, a), actions + [a])
  {
    hide SentBy;
    hide Asked;
    hide OwnInv;
    hide SleepInv;
    hide Perform;
    AskedSnoc(actions, a, Client);
    AskedSnoc(actions, a, Server);
    InvFromSide(s, a.d);
    DataFromSide(s, actions, a.d);
    hide AllData;
    hide Inv;
    var e := At(s, a.d);
    match a {
      case Begin(d, call, n) =>
        BeginData(s.sh, d, e, call, n, Asked(actions, d));
        hide DataInv;
        PerformData(s, d, BeginOp(s.sh, e, call, n), d, actions + [a]);
      case UserMoves(d, pick) =>
        UserData(s.sh, d, e, Asked(actions, d));
        PeerData(s.sh, d, e);
        hide UserOp;
        hide DataInv;
        PerformData(s, d, UserOp(s.sh, d, e), pick, actions + [a]);
      case ShutdownMoves(d, pick) =>
        hide DataInv;
        PerformData(s, d, ShutdownOp(s.sh, d, e), pick, actions + [a]);
      case SpuriousWake(d) =>
        WokenData(SentBy(s.sh.log, d), e, Asked(actions, d));
        AtSet(s, d, Woken(e));
        hide DataInv;
        DataFromSide(WakeUp(s, d), actions + [a], d);
    }
  }

  lemma {:induction false} RunData(s: State, before: seq<Action>, actions: seq<Action>)
    requires Inv(s) && AllData(s, before) && IsRun(s, actions)
    ensures AllData(After(s, actions), before + actions)
    decreases |actions|
  {
    hide Inv;
    hide AllData;
    hide Apply;
    hide Enabled;
    if actions == [] {
      assert before + actions == before;
    } else {
      StepKeepsInv(s, actions[0]);
      StepData(s, before, actions[0]);
      assert before + [actions[0]] + actions[1..] == before + actions;
      RunData(Apply(s, actions[0]), before + [actions[0]], actions[1..]);
    }
  }

  // ---------------------------------------------------------------------
  // What is received
  // ---------------------------------------------------------------------

  lemma AlternatesPrefix(log: seq<Event>, n: nat)
    requires Alternates(log) && n <= |log|
    ensures Alternates(log[..n])
  {
    forall k | 0 <= k < n
      ensures InTurn(log[..n], k)
    {
      assert InTurn(log, k);
    }
  }

  /** An even event is a send; an odd one is the peer's reading of the send before. */
  lemma TurnAt(log: seq<Event>, k: nat)
    requires Alternates(log) && k < |log|
    ensures k % 2 == 0 ==> log[k].Sent?
    ensures k % 2 == 1 ==> log[k - 1].Sent? && log[k] == Received(Other(log[k - 1].from), log[k - 1].len)
  {
    assert InTurn(log, k);
    if k % 2 == 1 {
      assert InTurn(log, k - 1);
    }
  }

  lemma SendAppended(log: seq<Event>, sent: Event, d: Side)
    requires sent.Sent? && ReceivedBy(log, d) == SentBy(log, Other(d))
    ensures var r, w := ReceivedBy(log + [sent], d), SentBy(log + [sent], Other(d));
            r <= w && |w| <= |r| + 1
  {
    SentSnoc(log, sent, d);
    SentSnoc(log, sent, Other(d));
  }

  lemma PairAppended(log: seq<Event>, sent: Event, d: Side)
    requires sent.Sent? && ReceivedBy(log, d) == SentBy(log, Other(d))
    ensures var next := log + [sent] + [Received(Other(sent.from), sent.len)];
            ReceivedBy(next, d) == SentBy(next, Other(d))
  {
    var received := Received(Other(sent.from), sent.len);
    SentSnoc(log, sent, d);
    SentSnoc(log, sent, Other(d));
    SentSnoc(log + [sent], received, d);
    SentSnoc(log + [sent], received, Other(d));
  }

  /** In a log that alternates, what d receives is what its peer sent: all of it,
      but for a last message that has not been read. */
  lemma {:induction false} ReceivedIsSent(log: seq<Event>, d: Side)
    requires Alternates(log)
    ensures ReceivedBy(log, d) <= SentBy(log, Other(d)) && |SentBy(log, Other(d))| <= |ReceivedBy(log, d)| + 1
    ensures !Unread(log) ==> ReceivedBy(log, d) == SentBy(log, Other(d))
  {
    hide Alternates;
    if log != [] {
      hide SentBy;
      hide ReceivedBy;
      var n := |log| - 1;
      TurnAt(log, n);
      assert log == log[..n] + [log[n]];
      if n % 2 == 0 {
        AlternatesPrefix(log, n);
        ReceivedIsSent(log[..n], d);
        SendAppended(log[..n], log[n], d);
      } else {
        assert log[..n] == log[..n - 1] + [log[n - 1]];
        AlternatesPrefix(log, n - 1);
        ReceivedIsSent(log[..n - 1], d);
        PairAppended(log[..n - 1], log[n - 1], d);
      }
    }
  }

  lemma LogAlternates(s: State)
    requires Inv(s)
    ensures Alternates(s.sh.log)
  {
  }

  lemma AllDataAt(s: State, actions: seq<Action>, d: Side)
    requires AllData(s, actions)
    ensures var sent, asked := SentBy(s.sh.log, d), Asked(actions, d);
            && sent <= asked && |asked| <= |sent| + 1
            && (At(s, d).user.loc == Ready || At(s, d).user.loc == Done ==> sent == asked)
  {
    hide SentBy;
    hide Asked;
    DataFromSide(s, actions, d);
  }

  lemma RunFromInitial(cap: nat, actions: seq<Action>)
    requires cap >= HANDSHAKE_LENGTH && IsRun(Initial(cap), actions)
    ensures AllData(After(Initial(cap), actions), actions)
    ensures Alternates(After(Initial(cap), actions).sh.log)
  {
    InitialInv(cap);
    assert AllData(Initial(cap), []);
    hide AllData;
    hide After;
    hide IsRun;
    hide Alternates;
    RunKeepsInv(Initial(cap), actions);
    LogAlternates(After(Initial(cap), actions));
    hide Inv;
    RunData(Initial(cap), [], actions);
    assert [] + actions == actions;
  }

  /** In every run, each side's messages carry, in order, the lengths its calls
      were made with, and none but the last call's can be missing; a call that has
      returned without an error has sent its own. What a side receives are, in
      order, the lengths that its peer's calls were made with. */
  lemma LengthsArrive(cap: nat, actions: seq<Action>, d: Side)
    requires cap >= HANDSHAKE_LENGTH && IsRun(Initial(cap), actions)
    ensures var s := After(Initial(cap), actions);
            && SentBy(s.sh.log, d) <= Asked(actions, d) && |Asked(actions, d)| <= |SentBy(s.sh.log, d)| + 1
            && (At(s, d).user.loc == Ready || At(s, d).user.loc == Done ==> SentBy(s.sh.log, d) == Asked(actions, d))
            && ReceivedBy(s.sh.log, d) <= Asked(actions, Other(d))
  {
    hide AllData;
    hide After;
    hide SentBy;
    hide ReceivedBy;
    hide Asked;
    hide IsRun;
    hide Alternates;
    RunFromInitial(cap, actions);
    var s := After(Initial(cap), actions);
    AllDataAt(s, actions, d);
    AllDataAt(s, actions, Other(d));
    ReceivedIsSent(s.sh.log, d);
  }
}
