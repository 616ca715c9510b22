/** The flipcall control transfer (pkg/flipcall) as a transition system.

    Two endpoints share the connection state word and the datagram length.
    Each endpoint has a user thread, which makes the calls Connect, RecvFirst,
    SendRecv and SendLast, and a thread that may call Shutdown at any time.
    Every atomic operation of the source is one step; FUTEX_WAIT checks the
    word and goes to sleep in one step, and sleepers may wake spuriously. */
module Flipcall {

  // ---------------------------------------------------------------------
  // States
  // ---------------------------------------------------------------------

  datatype Side = Client | Server

  function Other(d: Side): Side {
    if d == Client then Server else Client
  }

  const CS_CLIENT_ACTIVE := 0
  const CS_SERVER_ACTIVE := 1
  const CS_SHUTDOWN := 2

  function ActiveState(d: Side): int {
    if d == Client then CS_CLIENT_ACTIVE else CS_SERVER_ACTIVE
  }

  function InactiveState(d: Side): int {
    ActiveState(Other(d))
  }

  const EPS_BLOCKED := 1
  const EPS_SHUTDOWN := 2

  /** The length of the handshake message, an empty JSON object and a newline. */
  const HANDSHAKE_LENGTH := 3

  datatype Call = Connect | RecvFirst | SendRecv | SendLast

  datatype Error = NoError | ShutdownError | OtherError

  /** The next operation of a user thread. */
  datatype Loc =
    | Fresh        // no call made yet
    | Ready        // the last call returned nil: this endpoint has control
    | Store        // write dataLen (sendRecv, SendLast)
    | Enter        // enterFutexWait: add epsBlocked
    | EnterUndo    // enterFutexWait saw epsShutdown: subtract epsBlocked
    | StoreInside  // write the handshake's dataLen (ctrlConnect, ctrlWaitFirst)
    | Cas          // futexSetPeerActive: compare and swap the word
    | CasFailed    // futexSetPeerActive: load the word
    | Wake         // futexWakePeer: FUTEX_WAKE 1
    | Load         // futexWaitUntilActive: load the word
    | CheckFlag    // futexWaitUntilActive: isShutdownLocally
    | Wait         // futexWaitUntilActive: FUTEX_WAIT
    | Asleep       // blocked in FUTEX_WAIT
    | ReadInside   // read the handshake's dataLen
    | Exit         // exitFutexWait: subtract epsBlocked
    | ConnSwap     // shutdownConn: swap the word
    | ConnWake     // shutdownConn: FUTEX_WAKE 1
    | FinalRead    // read the received dataLen
    | Done         // SendLast returned nil
    | Failed       // a call returned an error
    | Panicked

  /** A user thread: the call it is in, the length it sends, whether RecvFirst
      still waits for the connection request, and the error on its way out. */
  datatype User = User(loc: Loc, call: Call, n: nat, first: bool, err: Error)

  /** The next operation of a Shutdown call. */
  datatype SdLoc =
    | NotCalled    // swap the shutdown flag
    | AddFlag      // ctrlShutdown: add epsShutdown
    | WakeAll      // ctrlShutdown: FUTEX_WAKE MaxInt32
    | Poll         // ctrlShutdown: load ctrl.state
    | SdConnSwap   // shutdownConn: swap the word
    | SdConnWake   // shutdownConn: FUTEX_WAKE 1
    | Finished

  /** One endpoint; conns counts its executions of shutdownConn. */
  datatype Endpoint = Endpoint(flag: bool, eps: int, user: User, sd: SdLoc, conns: nat)

  /** A transfer of control with its datagram length, or the read of it. */
  datatype Event = Sent(from: Side, len: nat) | Received(reader: Side, len: nat)

  /** The words both endpoints see. owner is whom control was last given to,
      and log the history of transfers; neither is read by any thread. */
  datatype Shared = Shared(cs: int, dataLen: nat, cap: nat, owner: Side, log: seq<Event>)

  datatype State = State(sh: Shared, client: Endpoint, server: Endpoint)

  function At(s: State, d: Side): Endpoint {
    if d == Client then s.client else s.server
  }

  function Set(s: State, d: Side, e: Endpoint): State {
    if d == Client then s.(client := e) else s.(server := e)
  }

  // ---------------------------------------------------------------------
  // Steps
  // ---------------------------------------------------------------------

  datatype Wakes = WakesNone | WakesOne | WakesAll

  /** What one operation does: the shared words and its own endpoint after
      it, and whom it wakes. */
  datatype Effect = Effect(sh: Shared, e: Endpoint, wakes: Wakes)

  /** Where a call goes once exitFutexWait and shutdownConn are done. */
  function AfterExit(u: User): User {
    if u.err != NoError then u.(loc := Failed)
    else if u.call == Connect then u.(loc := Ready)
    else u.(loc := FinalRead)
  }

  /** One operation of the user thread of d. */
  function UserOp(sh: Shared, d: Side, e: Endpoint): Effect {
    var u := e.user;
    match u.loc
    case Store =>
      Effect(sh.(dataLen := u.n), e.(user := u.(loc := if u.call == SendLast then Cas else Enter)), WakesNone)
    case Enter =>
      var eps := e.eps + EPS_BLOCKED;
      var loc :=
        if eps == EPS_BLOCKED then
          (if u.call == Connect then StoreInside else if u.call == RecvFirst then Load else Cas)
        else if eps == EPS_BLOCKED + EPS_SHUTDOWN then EnterUndo
        else Panicked;
      Effect(sh, e.(eps := eps, user := u.(loc := loc)), WakesNone)
    case EnterUndo =>
      Effect(sh, e.(eps := e.eps - EPS_BLOCKED, user := u.(loc := Failed, err := ShutdownError)), WakesNone)
    case StoreInside =>
      Effect(sh.(dataLen := HANDSHAKE_LENGTH), e.(user := u.(loc := Cas, n := HANDSHAKE_LENGTH)), WakesNone)
    case Cas =>
      if sh.cs == ActiveState(d) then
        Effect(sh.(cs := InactiveState(d), owner := Other(d), log := sh.log + [Sent(d, sh.dataLen)]),
               e.(user := u.(loc := Wake)), WakesNone)
      else Effect(sh, e.(user := u.(loc := CasFailed)), WakesNone)
    case CasFailed =>
      Effect(sh, e.(user := u.(loc := if u.call == SendLast then Failed else Exit,
                               err := if sh.cs == CS_SHUTDOWN then ShutdownError else OtherError)), WakesNone)
    case Wake =>
      Effect(sh, e.(user := u.(loc := if u.call == SendLast then Done else Load)), WakesOne)
    case Load =>
      Effect(sh,
             e.(user := if sh.cs == ActiveState(d) then
                          (if u.call == Connect || u.first then u.(loc := ReadInside)
                            else u.(loc := Exit, err := NoError))
                        else if sh.cs == InactiveState(d) then u.(loc := CheckFlag)
                        else u.(loc := Exit, err := if sh.cs == CS_SHUTDOWN then ShutdownError else OtherError)),
             WakesNone)
    case CheckFlag =>
      Effect(sh, e.(user := if e.flag then u.(loc := Exit, err := ShutdownError) else u.(loc := Wait)), WakesNone)
    case Wait =>
      Effect(sh, e.(user := u.(loc := if sh.cs == InactiveState(d) then Asleep else Load)), WakesNone)
    case ReadInside =>
      Effect(sh.(log := sh.log + [Received(d, sh.dataLen)]),
             e.(user := if sh.dataLen > sh.cap then u.(loc := Exit, err := OtherError)
                        else if u.call == Connect then u.(loc := Exit, err := NoError)
                        else u.(loc := StoreInside, first := false)), WakesNone)
    case Exit =>
      var eps := e.eps - EPS_BLOCKED;
      Effect(sh, e.(eps := eps,
                    user := if eps == 0 then AfterExit(u)
                            else if eps == EPS_SHUTDOWN then u.(loc := ConnSwap)
                            else u.(loc := Panicked)), WakesNone)
    case ConnSwap =>
      Effect(sh.(cs := CS_SHUTDOWN),
             e.(conns := e.conns + 1,
                user := if sh.cs == ActiveState(d) then u.(loc := ConnWake) else AfterExit(u)), WakesNone)
    case ConnWake =>
      Effect(sh, e.(user := AfterExit(u)), WakesOne)
    case FinalRead =>
      Effect(sh.(log := sh.log + [Received(d, sh.dataLen)]),
             e.(user := u.(loc := if sh.dataLen > sh.cap then Failed else Ready)), WakesNone)
    case _ => Effect(sh, e, WakesNone)
  }

  /** One operation of a Shutdown call on d. Further calls see the flag set
      and return at once, which changes nothing. */
  function ShutdownOp(sh: Shared, d: Side, e: Endpoint): Effect {
    match e.sd
    case NotCalled => Effect(sh, e.(flag := true, sd := AddFlag), WakesNone)
    case AddFlag =>
      var eps := e.eps + EPS_SHUTDOWN;
      Effect(sh, e.(eps := eps, sd := if eps % 2 == EPS_BLOCKED then WakeAll else SdConnSwap), WakesNone)
    case WakeAll => Effect(sh, e.(sd := Poll), WakesAll)
    case Poll => Effect(sh, e.(sd := if e.eps % 2 == 0 then Finished else WakeAll), WakesNone)
    case SdConnSwap =>
      Effect(sh.(cs := CS_SHUTDOWN),
             e.(conns := e.conns + 1, sd := if sh.cs == ActiveState(d) then SdConnWake else Finished), WakesNone)
    case SdConnWake => Effect(sh, e.(sd := Finished), WakesOne)
    case Finished => Effect(sh, e, WakesNone)
  }

  /** A call made under its documented preconditions. */
  predicate MayCall(sh: Shared, d: Side, e: Endpoint, call: Call, n: nat) {
    match call
    case Connect => d == Client && e.user.loc == Fresh
    case RecvFirst => d == Server && e.user.loc == Fresh
    case SendRecv => e.user.loc == Ready && n <= sh.cap
    case SendLast => e.user.loc == Ready && n <= sh.cap
  }

  function BeginOp(sh: Shared, e: Endpoint, call: Call, n: nat): Effect {
    var loc := if call == Connect || call == RecvFirst then Enter else Store;
    Effect(sh, e.(user := User(loc, call, n, call == RecvFirst, NoError)), WakesNone)
  }

  predicate Sleeping(e: Endpoint) {
    e.user.loc == Asleep
  }

  predicate IsAsleep(s: State, d: Side) {
    Sleeping(At(s, d))
  }

  function Woken(e: Endpoint): Endpoint {
    if Sleeping(e) then e.(user := e.user.(loc := Load)) else e
  }

  function WakeUp(s: State, d: Side): State {
    Set(s, d, Woken(At(s, d)))
  }

  /** FUTEX_WAKE 1 wakes one sleeper if there is any, no matter which. */
  function Rouse(s: State, wakes: Wakes, pick: Side): State {
    match wakes
    case WakesNone => s
    case WakesOne => if IsAsleep(s, pick) then WakeUp(s, pick) else WakeUp(s, Other(pick))
    case WakesAll => WakeUp(WakeUp(s, Client), Server)
  }

  function Perform(s: State, d: Side, eff: Effect, pick: Side): State {
    Rouse(Set(s.(sh := eff.sh), d, eff.e), eff.wakes, pick)
  }

  datatype Action =
    | Begin(d: Side, call: Call, n: nat)
    | UserMoves(d: Side, pick: Side)
    | ShutdownMoves(d: Side, pick: Side)
    | SpuriousWake(d: Side)

  /** The user thread has an operation to perform. */
  predicate UserEnabled(e: Endpoint) {
    var loc := e.user.loc;
    loc != Fresh && loc != Ready && loc != Asleep && loc != Done && loc != Failed && loc != Panicked
  }

  predicate ShutdownEnabled(e: Endpoint) {
    e.sd != Finished
  }

  predicate Enabled(s: State, a: Action) {
    match a
    case Begin(d, call, n) => MayCall(s.sh, d, At(s, d), call, n)
    case UserMoves(d, _) => UserEnabled(At(s, d))
    case ShutdownMoves(d, _) => ShutdownEnabled(At(s, d))
    case SpuriousWake(d) => IsAsleep(s, d)
  }

  function Apply(s: State, a: Action): State {
    match a
    case Begin(d, call, n) => Perform(s, d, BeginOp(s.sh, At(s, d), call, n), d)
    case UserMoves(d, pick) => Perform(s, d, UserOp(s.sh, d, At(s, d)), pick)
    case ShutdownMoves(d, pick) => Perform(s, d, ShutdownOp(s.sh, d, At(s, d)), pick)
    case SpuriousWake(d) => WakeUp(s, d)
  }

  /** A zeroed packet window, both endpoints just initialised. */
  function Initial(cap: nat): State {
    var e := Endpoint(false, 0, User(Fresh, SendRecv, 0, false, NoError), NotCalled, 0);
    State(Shared(0, 0, cap, Client, []), e, e)
  }

  // ---------------------------------------------------------------------
  // The invariant
  // ---------------------------------------------------------------------

  /** Between enterFutexWait and exitFutexWait. */
  predicate Blocked(u: User) {
    match u.loc
    case EnterUndo | StoreInside | Load | CheckFlag | Wait | Asleep | ReadInside | Exit => true
    case Cas | CasFailed | Wake => u.call != SendLast
    case _ => false
  }

  /** Blocked, and not about to undo it. */
  predicate Entered(u: User) {
    Blocked(u) && u.loc != EnterUndo
  }

  /** On the way out of a call that will return nil. */
  predicate Leaving(u: User) {
    (u.loc == Exit || u.loc == ConnSwap || u.loc == ConnWake) && u.err == NoError
  }

  /** Has control and has not yet read the length that came with it. */
  predicate HoldsUnread(u: User) {
    u.loc == ReadInside || u.loc == FinalRead || (Leaving(u) && u.call != Connect)
  }

  /** Has control and is free to write the next message. */
  predicate HoldsRead(d: Side, u: User) {
    || u.loc == Ready || u.loc == Store || u.loc == StoreInside || u.loc == Cas
    || (u.loc == Fresh && d == Client)
    || (u.loc == Enter && u.call != RecvFirst)
    || (Leaving(u) && u.call == Connect)
  }

  /** The endpoint has control. */
  predicate HasControl(d: Side, u: User) {
    HoldsUnread(u) || HoldsRead(d, u)
  }

  /** Will look at the word for its turn. */
  predicate Awaits(d: Side, u: User) {
    || (u.loc == Wake && u.call != SendLast)
    || u.loc == Load || u.loc == CheckFlag || u.loc == Wait || u.loc == Asleep
    || (u.loc == Fresh && d == Server)
    || (u.loc == Enter && u.call == RecvFirst)
  }

  function ToSide(k: nat): Side {
    if k % 2 == 0 then Client else Server
  }

  predicate InTurn(log: seq<Event>, k: nat)
    requires k < |log|
  {
    if k % 2 == 0 then log[k].Sent? && log[k].from == ToSide(k / 2)
    else log[k] == Received(Other(ToSide(k / 2)), log[k - 1].len)
  }

  /** Sends and reads alternate, the sides take turns starting with the
      client, and every read returns the length of the send before it. */
  ghost predicate Alternates(log: seq<Event>) {
    forall k | 0 <= k < |log| :: InTurn(log, k)
  }

  /** The last transfer has not been read yet. */
  predicate Unread(log: seq<Event>) {
    |log| % 2 == 1
  }

  lemma UnreadSnoc(log: seq<Event>, ev: Event)
    ensures Unread(log + [ev]) <==> !Unread(log)
  {
  }

  predicate SdBit(sd: SdLoc) {
    sd != NotCalled && sd != AddFlag
  }

  predicate InLoop(sd: SdLoc) {
    sd == WakeAll || sd == Poll
  }

  ghost predicate SharedInv(sh: Shared) {
    && (sh.cs == CS_CLIENT_ACTIVE || sh.cs == CS_SERVER_ACTIVE || sh.cs == CS_SHUTDOWN)
    && (sh.cs != CS_SHUTDOWN ==> sh.cs == ActiveState(sh.owner))
    && HANDSHAKE_LENGTH <= sh.cap && sh.dataLen <= sh.cap
    && Alternates(sh.log)
    && sh.owner == ToSide((|sh.log| + 1) / 2)
    && (Unread(sh.log) ==> sh.log[|sh.log| - 1].len == sh.dataLen)
  }

  /** ctrl.state, the shutdown flag and who must run shutdownConn. */
  predicate ControlInv(sh: Shared, e: Endpoint) {
    var u := e.user;
    && u.loc != Panicked
    && e.eps == (if Blocked(u) then EPS_BLOCKED else 0) + (if SdBit(e.sd) then EPS_SHUTDOWN else 0)
    && (e.flag <==> e.sd != NotCalled)
    && (Entered(u) ==> e.sd == NotCalled || e.sd == AddFlag || InLoop(e.sd))
    && (u.loc == EnterUndo ==> SdBit(e.sd))
    && (u.loc == ConnSwap || u.loc == ConnWake ==> InLoop(e.sd) || e.sd == Finished)
    && (e.conns == if !SdBit(e.sd) || Entered(u) || u.loc == ConnSwap || e.sd == SdConnSwap then 0 else 1)
    && (e.conns > 0 ==> sh.cs == CS_SHUTDOWN)
    && (u.loc == CasFailed ==> sh.cs == CS_SHUTDOWN)
  }

  /** Control, and the length field. */
  predicate TransferInv(sh: Shared, d: Side, u: User) {
    && (HasControl(d, u) ==> sh.owner == d)
    && (HoldsUnread(u) ==> Unread(sh.log))
    && (HoldsRead(d, u) ==> !Unread(sh.log))
    && (Awaits(d, u) && sh.owner == d ==> Unread(sh.log))
    && (u.loc == Cas || (u.loc == Enter && u.call == SendRecv) ==> sh.dataLen == u.n)
    && (u.loc == Store ==> u.n <= sh.cap)
    && u.err != OtherError
  }

  /** Which call may be where. */
  predicate CallInv(d: Side, u: User) {
    && (u.loc != Fresh ==> (u.call == Connect ==> d == Client) && (u.call == RecvFirst ==> d == Server))
    && (u.loc == Store ==> u.call == SendRecv || u.call == SendLast)
    && (u.loc == Enter || Blocked(u) ==> u.call != SendLast)
    && (u.loc == FinalRead ==> u.call != Connect)
    && (u.loc == StoreInside || u.loc == ReadInside ==> u.call == Connect || u.call == RecvFirst)
    && (u.loc == ReadInside && u.call == RecvFirst ==> u.first)
    && (u.first ==> u.call == RecvFirst && u.loc != StoreInside && u.loc != Cas && u.loc != Wake
                    && u.loc != FinalRead && u.loc != Ready && !Leaving(u))
  }

  /** The peer endpoint still has a FUTEX_WAKE 1 ahead of it. */
  predicate PeerWakePending(p: Endpoint) {
    p.user.loc == Wake || p.user.loc == ConnWake || p.sd == SdConnWake
  }

  /** The endpoint's own Shutdown call still has a FUTEX_WAKE of all waiters
      ahead of it. */
  predicate OwnWakePending(e: Endpoint) {
    e.sd == AddFlag || InLoop(e.sd)
  }

  /** No lost wakeup: while a user sleeps on a word that is no longer its
      inactive value, the peer has a wake ahead of it; while it sleeps with
      its own flag set, its own Shutdown has. */
  predicate SleepInv(sh: Shared, d: Side, e: Endpoint, p: Endpoint) {
    Sleeping(e) ==>
      && (sh.cs != InactiveState(d) ==> PeerWakePending(p))
      && (e.flag ==> OwnWakePending(e))
      && !Sleeping(p)
  }

  /** The part of the invariant about d that its peer's steps can only touch
      through the shared words. */
  ghost predicate OwnInv(sh: Shared, d: Side, e: Endpoint) {
    SharedInv(sh) && ControlInv(sh, e) && TransferInv(sh, d, e.user) && CallInv(d, e.user)
  }

  ghost predicate Inv(s: State) {
    && OwnInv(s.sh, Client, s.client) && SleepInv(s.sh, Client, s.client, s.server)
    && OwnInv(s.sh, Server, s.server) && SleepInv(s.sh, Server, s.server, s.client)
  }

  lemma InitialInv(cap: nat)
    requires cap >= HANDSHAKE_LENGTH
    ensures Inv(Initial(cap))
  {
  }

  lemma AlternatesSnoc(log: seq<Event>, ev: Event)
    requires Alternates(log) && InTurn(log + [ev], |log|)
    ensures Alternates(log + [ev])
  {
    forall k | 0 <= k < |log + [ev]|
      ensures InTurn(log + [ev], k)
    {
      assert k < |log| ==> InTurn(log, k);
    }
  }

  // ---------------------------------------------------------------------
  // What a step does to its own endpoint, and what its peer sees of it
  // ---------------------------------------------------------------------

  /** Shutdown is final; and the length, the log and control only change while
      d has control. */
  ghost predicate PeerFrame(sh: Shared, sh': Shared, d: Side) {
    && sh'.cap == sh.cap
    && (sh.cs == CS_SHUTDOWN ==> sh'.cs == CS_SHUTDOWN)
    && (|| (sh'.owner == sh.owner && sh'.dataLen == sh.dataLen && sh'.log == sh.log)
        || (sh.owner == d && (sh'.owner == Other(d) ==> Unread(sh'.log))))
  }

  lemma PeerKeepsOwnInv(sh: Shared, sh': Shared, d: Side, p: Endpoint)
    requires OwnInv(sh, Other(d), p) && SharedInv(sh') && PeerFrame(sh, sh', d)
    ensures OwnInv(sh', Other(d), p)
  {
    hide Alternates;
    hide Unread;
  }

  lemma WokenKeepsOwnInv(sh: Shared, d: Side, e: Endpoint)
    requires OwnInv(sh, d, e)
    ensures OwnInv(sh, d, Woken(e))
  {
    hide Alternates;
    hide Unread;
  }

  ghost predicate StepKeeps(sh: Shared, d: Side, eff: Effect) {
    OwnInv(eff.sh, d, eff.e) && PeerFrame(sh, eff.sh, d)
  }

  lemma BeginOwn(sh: Shared, d: Side, e: Endpoint, call: Call, n: nat)
    requires OwnInv(sh, d, e) && MayCall(sh, d, e, call, n)
    ensures StepKeeps(sh, d, BeginOp(sh, e, call, n))
  {
    hide Alternates;
    hide Unread;
  }

  lemma EntryOwn(sh: Shared, d: Side, e: Endpoint)
    requires OwnInv(sh, d, e)
    requires e.user.loc == Store || e.user.loc == Enter || e.user.loc == EnterUndo || e.user.loc == StoreInside
    ensures StepKeeps(sh, d, UserOp(sh, d, e))
  {
    hide Alternates;
    hide Unread;
  }

  lemma SendShared(sh: Shared, d: Side)
    requires SharedInv(sh) && sh.owner == d && !Unread(sh.log)
    ensures SharedInv(sh.(cs := InactiveState(d), owner := Other(d), log := sh.log + [Sent(d, sh.dataLen)]))
  {
    hide Alternates;
    AlternatesSnoc(sh.log, Sent(d, sh.dataLen));
  }

  lemma ReadShared(sh: Shared, d: Side)
    requires SharedInv(sh) && sh.owner == d && Unread(sh.log)
    ensures SharedInv(sh.(log := sh.log + [Received(d, sh.dataLen)]))
  {
    hide Alternates;
    AlternatesSnoc(sh.log, Received(d, sh.dataLen));
  }

  lemma WordOfOwner(sh: Shared)
    requires SharedInv(sh)
    ensures sh.cs == CS_SHUTDOWN || sh.cs == ActiveState(sh.owner)
    ensures HANDSHAKE_LENGTH <= sh.cap && sh.dataLen <= sh.cap
  {
  }

  lemma CasOwn(sh: Shared, d: Side, e: Endpoint)
    requires OwnInv(sh, d, e) && e.user.loc == Cas
    ensures StepKeeps(sh, d, UserOp(sh, d, e))
  {
    hide SharedInv;
    hide Unread;
    WordOfOwner(sh);
    SendShared(sh, d);
    UnreadSnoc(sh.log, Sent(d, sh.dataLen));
  }

  lemma WakeOwn(sh: Shared, d: Side, e: Endpoint)
    requires OwnInv(sh, d, e)
    requires e.user.loc == CasFailed || e.user.loc == Wake
    ensures StepKeeps(sh, d, UserOp(sh, d, e))
  {
    hide SharedInv;
    hide Unread;
  }

  lemma WaitOwn(sh: Shared, d: Side, e: Endpoint)
    requires OwnInv(sh, d, e)
    requires e.user.loc == Load || e.user.loc == CheckFlag || e.user.loc == Wait
    ensures StepKeeps(sh, d, UserOp(sh, d, e))
  {
    hide SharedInv;
    hide Unread;
    WordOfOwner(sh);
  }

  lemma ReadOwn(sh: Shared, d: Side, e: Endpoint)
    requires OwnInv(sh, d, e)
    requires e.user.loc == ReadInside || e.user.loc == FinalRead
    ensures StepKeeps(sh, d, UserOp(sh, d, e))
  {
    hide SharedInv;
    hide Unread;
    WordOfOwner(sh);
    ReadShared(sh, d);
    UnreadSnoc(sh.log, Received(d, sh.dataLen));
  }

  lemma ExitOwn(sh: Shared, d: Side, e: Endpoint)
    requires OwnInv(sh, d, e) && e.user.loc == Exit
    ensures StepKeeps(sh, d, UserOp(sh, d, e))
  {
    hide SharedInv;
    hide Unread;
  }

  lemma ConnOwn(sh: Shared, d: Side, e: Endpoint)
    requires OwnInv(sh, d, e)
    requires e.user.loc == ConnSwap || e.user.loc == ConnWake
    ensures StepKeeps(sh, d, UserOp(sh, d, e))
  {
    hide Alternates;
    hide Unread;
  }

  lemma UserOwn(sh: Shared, d: Side, e: Endpoint)
    requires OwnInv(sh, d, e) && UserEnabled(e)
    ensures StepKeeps(sh, d, UserOp(sh, d, e))
  {
    hide OwnInv;
    hide UserOp;
    hide PeerFrame;
    match e.user.loc {
      case Store | Enter | EnterUndo | StoreInside => EntryOwn(sh, d, e);
      case Cas => CasOwn(sh, d, e);
      case CasFailed | Wake => WakeOwn(sh, d, e);
      case Load | CheckFlag | Wait => WaitOwn(sh, d, e);
      case ReadInside | FinalRead => ReadOwn(sh, d, e);
      case Exit => ExitOwn(sh, d, e);
      case ConnSwap | ConnWake => ConnOwn(sh, d, e);
    }
  }

  lemma ShutdownOwn(sh: Shared, d: Side, e: Endpoint)
    requires OwnInv(sh, d, e) && ShutdownEnabled(e)
    ensures StepKeeps(sh, d, ShutdownOp(sh, d, e))
  {
    hide Alternates;
    hide Unread;
  }

  // ---------------------------------------------------------------------
  // Wakeups
  // ---------------------------------------------------------------------

  /** After the operation, before anyone is woken: the sleeper conditions hold
      except that the wake the operation performs is no longer pending. */
  ghost predicate SleepAfter(eff: Effect, d: Side, p: Endpoint) {
    && (Sleeping(eff.e) ==>
          && (eff.wakes == WakesAll || (eff.sh.cs != InactiveState(d) ==> PeerWakePending(p)))
          && (eff.wakes == WakesAll || (eff.e.flag ==> OwnWakePending(eff.e)))
          && !Sleeping(p))
    && (Sleeping(p) ==>
          && (eff.wakes != WakesNone || (eff.sh.cs != InactiveState(Other(d)) ==> PeerWakePending(eff.e)))
          && (p.flag ==> OwnWakePending(p))
          && !Sleeping(eff.e))
  }

  lemma RouseKeepsSleep(s: State, d: Side, eff: Effect, pick: Side)
    requires SleepAfter(eff, d, At(s, Other(d)))
    ensures var s' := Perform(s, d, eff, pick);
            && SleepInv(s'.sh, d, At(s', d), At(s', Other(d)))
            && SleepInv(s'.sh, Other(d), At(s', Other(d)), At(s', d))
  {
  }

  lemma UserSleeps(sh: Shared, d: Side, e: Endpoint, p: Endpoint)
    requires OwnInv(sh, d, e) && OwnInv(sh, Other(d), p) && UserEnabled(e)
    requires SleepInv(sh, d, e, p) && SleepInv(sh, Other(d), p, e)
    ensures SleepAfter(UserOp(sh, d, e), d, p)
  {
    hide Alternates;
    hide Unread;
  }

  lemma ShutdownSleeps(sh: Shared, d: Side, e: Endpoint, p: Endpoint)
    requires OwnInv(sh, d, e) && OwnInv(sh, Other(d), p) && ShutdownEnabled(e)
    requires SleepInv(sh, d, e, p) && SleepInv(sh, Other(d), p, e)
    ensures SleepAfter(ShutdownOp(sh, d, e), d, p)
  {
    hide Alternates;
    hide Unread;
  }

  // ---------------------------------------------------------------------
  // Every step, every run
  // ---------------------------------------------------------------------

  lemma AtSet(s: State, d: Side, e: Endpoint)
    ensures At(Set(s, d, e), d) == e && At(Set(s, d, e), Other(d)) == At(s, Other(d)) && Set(s, d, e).sh == s.sh
  {
  }

  ghost predicate BothInv(sh: Shared, d: Side, e: Endpoint, p: Endpoint) {
    && OwnInv(sh, d, e) && SleepInv(sh, d, e, p)
    && OwnInv(sh, Other(d), p) && SleepInv(sh, Other(d), p, e)
  }

  lemma InvFromSide(s: State, d: Side)
    ensures Inv(s) <==> BothInv(s.sh, d, At(s, d), At(s, Other(d)))
  {
    hide OwnInv;
    hide SleepInv;
  }

  /** Rousing sleepers keeps the rest of the invariant. */
  lemma RouseKeepsOwn(s: State, d: Side, wakes: Wakes, pick: Side)
    requires OwnInv(s.sh, Client, s.client) && OwnInv(s.sh, Server, s.server)
    ensures var s' := Rouse(s, wakes, pick);
            s'.sh == s.sh && OwnInv(s'.sh, Client, s'.client) && OwnInv(s'.sh, Server, s'.server)
  {
    WokenKeepsOwnInv(s.sh, Client, s.client);
    WokenKeepsOwnInv(s.sh, Server, s.server);
    hide OwnInv;
    hide Woken;
  }

  lemma PerformKeepsInv(s: State, d: Side, eff: Effect, pick: Side)
    requires Inv(s)
    requires StepKeeps(s.sh, d, eff) && SleepAfter(eff, d, At(s, Other(d)))
    ensures Inv(Perform(s, d, eff, pick))
  {
    InvFromSide(s, d);
    PeerKeepsOwnInv(s.sh, eff.sh, d, At(s, Other(d)));
    RouseKeepsSleep(s, d, eff, pick);
    hide SharedInv;
    hide ControlInv;
    hide TransferInv;
    hide CallInv;
    hide SleepInv;
    RouseKeepsOwn(Set(s.(sh := eff.sh), d, eff.e), d, eff.wakes, pick);
  }

  /** Every step of every thread keeps the invariant. */
  lemma StepKeepsInv(s: State, a: Action)
    requires Inv(s) && Enabled(s, a)
    ensures Inv(Apply(s, a))
  {
    hide OwnInv;
    hide UserOp;
    hide ShutdownOp;
    hide Perform;
    hide SleepAfter;
    InvFromSide(s, a.d);
    match a {
      case Begin(d, call, n) =>
        BeginOwn(s.sh, d, At(s, d), call, n);
        BeginSleeps(s.sh, d, At(s, d), At(s, Other(d)), call, n);
        PerformKeepsInv(s, d, BeginOp(s.sh, At(s, d), call, n), d);
      case UserMoves(d, pick) =>
        UserOwn(s.sh, d, At(s, d));
        UserSleeps(s.sh, d, At(s, d), At(s, Other(d)));
        PerformKeepsInv(s, d, UserOp(s.sh, d, At(s, d)), pick);
      case ShutdownMoves(d, pick) =>
        ShutdownOwn(s.sh, d, At(s, d));
        ShutdownSleeps(s.sh, d, At(s, d), At(s, Other(d)));
        PerformKeepsInv(s, d, ShutdownOp(s.sh, d, At(s, d)), pick);
      case SpuriousWake(d) =>
        WokenKeepsOwnInv(s.sh, d, At(s, d));
        AtSet(s, d, Woken(At(s, d)));
        InvFromSide(WakeUp(s, d), d);
    }
  }

  lemma BeginSleeps(sh: Shared, d: Side, e: Endpoint, p: Endpoint, call: Call, n: nat)
    requires MayCall(sh, d, e, call, n)
    requires SleepInv(sh, d, e, p) && SleepInv(sh, Other(d), p, e)
    ensures SleepAfter(BeginOp(sh, e, call, n), d, p)
  {
  }

  /** A run is a sequence of actions, each enabled where it is taken. */
  ghost predicate IsRun(s: State, actions: seq<Action>)
    decreases |actions|
  {
    actions == [] || (Enabled(s, actions[0]) && IsRun(Apply(s, actions[0]), actions[1..]))
  }

  ghost function After(s: State, actions: seq<Action>): State
    decreases |actions|
  {
    if actions == [] then s else After(Apply(s, actions[0]), actions[1..])
  }

  lemma {:induction false} RunKeepsInv(s: State, actions: seq<Action>)
    requires Inv(s) && IsRun(s, actions)
    ensures Inv(After(s, actions))
    decreases |actions|
  {
    hide Inv;
    hide Apply;
    hide Enabled;
    if actions != [] {
      StepKeepsInv(s, actions[0]);
      RunKeepsInv(Apply(s, actions[0]), actions[1..]);
    }
  }

  /** In every interleaving, with Shutdown at any step on either side: at most
      one endpoint has control, and transfers and reads strictly alternate
      with each read returning the length of the transfer it belongs to. */
  lemma ControlIsExclusive(cap: nat, actions: seq<Action>)
    requires cap >= HANDSHAKE_LENGTH && IsRun(Initial(cap), actions)
    ensures var s := After(Initial(cap), actions);
            && !(HasControl(Client, s.client.user) && HasControl(Server, s.server.user))
            && Alternates(s.sh.log)
  {
    InitialInv(cap);
    RunKeepsInv(Initial(cap), actions);
  }

  /** Control bits take values 0 to 3 and no panic or unexpected-state branch
      is reached; shutdownConn runs at most once per endpoint, and has run
      exactly once when Shutdown has returned and the user thread, if it had to
      do it, is past it. */
  lemma ShutdownRunsOnce(cap: nat, actions: seq<Action>, d: Side)
    requires cap >= HANDSHAKE_LENGTH && IsRun(Initial(cap), actions)
    ensures var s := After(Initial(cap), actions);
            var e := At(s, d);
            && 0 <= e.eps <= 3
            && e.user.loc != Panicked && e.user.err != OtherError
            && e.conns <= 1
            && (e.conns == 1 ==> e.flag && s.sh.cs == CS_SHUTDOWN)
            && (e.sd == Finished && e.user.loc != ConnSwap ==> e.conns == 1)
  {
    InitialInv(cap);
    RunKeepsInv(Initial(cap), actions);
  }

  /** No lost wakeup, in every reachable state. */
  lemma NoLostWakeup(cap: nat, actions: seq<Action>, d: Side)
    requires cap >= HANDSHAKE_LENGTH && IsRun(Initial(cap), actions)
    ensures var s := After(Initial(cap), actions);
            IsAsleep(s, d) ==>
              && (s.sh.cs != InactiveState(d) ==> PeerWakePending(At(s, Other(d))))
              && (At(s, d).flag ==> OwnWakePending(At(s, d)))
              && !IsAsleep(s, Other(d))
  {
    InitialInv(cap);
    RunKeepsInv(Initial(cap), actions);
  }

  function Sends(log: seq<Event>): nat {
    (|log| + 1) / 2
  }

  lemma ReadKeepsSends(log: seq<Event>, ev: Event)
    requires Unread(log)
    ensures Sends(log + [ev]) == Sends(log)
  {
  }

  lemma UserOpIsFinal(sh: Shared, d: Side, e: Endpoint)
    requires TransferInv(sh, d, e.user) && sh.cs == CS_SHUTDOWN
    ensures var sh' := UserOp(sh, d, e).sh;
            sh'.cs == CS_SHUTDOWN && sh'.owner == sh.owner && Sends(sh'.log) == Sends(sh.log)
  {
    hide Sends;
    hide Unread;
    if e.user.loc == ReadInside || e.user.loc == FinalRead {
      ReadKeepsSends(sh.log, Received(d, sh.dataLen));
    }
  }

  lemma RouseShared(s: State, d: Side, eff: Effect, pick: Side)
    ensures Perform(s, d, eff, pick).sh == eff.sh
  {
  }

  lemma ShutdownStepIsFinal(s: State, a: Action)
    requires Inv(s) && Enabled(s, a) && s.sh.cs == CS_SHUTDOWN
    ensures Apply(s, a).sh.cs == CS_SHUTDOWN
    ensures Apply(s, a).sh.owner == s.sh.owner && Sends(Apply(s, a).sh.log) == Sends(s.sh.log)
  {
    hide SharedInv;
    hide ControlInv;
    hide TransferInv;
    hide CallInv;
    hide SleepInv;
    hide Perform;
    hide UserOp;
    hide Sends;
    var e := At(s, a.d);
    UserOpIsFinal(s.sh, a.d, e);
    match a {
      case Begin(d, call, n) => RouseShared(s, d, BeginOp(s.sh, e, call, n), d);
      case UserMoves(d, pick) => RouseShared(s, d, UserOp(s.sh, d, e), pick);
      case ShutdownMoves(d, pick) => RouseShared(s, d, ShutdownOp(s.sh, d, e), pick);
      case SpuriousWake(d) =>
    }
  }

  /** Shutdown is absorbing: control is never transferred again. */
  lemma {:induction false} ShutdownIsFinal(s: State, actions: seq<Action>)
    requires Inv(s) && IsRun(s, actions) && s.sh.cs == CS_SHUTDOWN
    ensures After(s, actions).sh.cs == CS_SHUTDOWN
    ensures Sends(After(s, actions).sh.log) == Sends(s.sh.log)
    decreases |actions|
  {
    hide Inv;
    hide Apply;
    hide Enabled;
    hide Sends;
    if actions != [] {
      StepKeepsInv(s, actions[0]);
      ShutdownStepIsFinal(s, actions[0]);
      ShutdownIsFinal(Apply(s, actions[0]), actions[1..]);
    }
  }
}
