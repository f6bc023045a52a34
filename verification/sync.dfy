/** The start-up protocol of pflask: parent (src/pflask.c), child, and the helper that chowns the console
    (src/dev.c), over the socket pairs of src/sync.c. Every interleaving is a sequence of steps; any process may
    die between two steps. */
module Sync {
  import opened Options

  const SYNC_START := 0
  const SYNC_DONE := 1

  // ---------------------------------------------------------------- sockets

  /** A process's fd[2]: which of the two descriptors it still has open. */
  datatype Fds = Fds(zero: bool, one: bool)

  const OPEN := Fds(true, true)
  const CLOSED := Fds(false, false)

  /** What is in flight on a socket pair: `up` was written to fd[0] and is read from fd[1], `down` the other way. */
  datatype Pair = Pair(up: seq<int>, down: seq<int>)

  const QUIET := Pair([], [])

  datatype Wait = Proceed(left: seq<int>) | AtEof | Mismatch | Blocked

  /** sync_wait: a read that finds nothing blocks while anyone has the other end open; end-of-file counts as success. */
  function SyncWait(queue: seq<int>, peerOpen: bool, expected: int): Wait {
    if queue != [] then (if queue[0] == expected then Proceed(queue[1..]) else Mismatch)
    else if peerOpen then Blocked
    else AtEof
  }

  // ---------------------------------------------------------------- processes

  // Places in the code, in the order in which they are reached.

  type ParentPc = pc: nat | pc <= 20

  const P_INIT: ParentPc := 0
  const P_CLONE: ParentPc := 1
  const P_RETRY: ParentPc := 2
  const P_WAIT_START: ParentPc := 3
  const P_CONSOLE: ParentPc := 4
  const P_AUX_INIT: ParentPc := 5
  const P_FORK: ParentPc := 6
  const P_AUX_WAIT: ParentPc := 7
  const P_AUX_MAP: ParentPc := 8
  const P_AUX_WAKE: ParentPc := 9
  const P_AUX_CLOSE: ParentPc := 10
  const P_WAIT_PID: ParentPc := 11
  const P_CGROUP: ParentPc := 12
  const P_NETIF: ParentPc := 13
  const P_USER_MAP: ParentPc := 14
  const P_WAKE: ParentPc := 15
  const P_CLOSE: ParentPc := 16
  const P_SERVE: ParentPc := 17
  const P_WAIT_ID: ParentPc := 18
  const P_CLOSE_AGAIN: ParentPc := 19
  const P_DONE: ParentPc := 20

  type ChildPc = pc: nat | pc <= 5

  const C_NONE: ChildPc := 0
  const C_PREPARE: ChildPc := 1
  const C_WAKE: ChildPc := 2
  const C_WAIT: ChildPc := 3
  const C_CLOSE: ChildPc := 4
  const C_RUN: ChildPc := 5

  type HelperPc = pc: nat | pc <= 6

  const H_NONE: HelperPc := 0
  const H_UNSHARE: HelperPc := 1
  const H_WAKE: HelperPc := 2
  const H_WAIT: HelperPc := 3
  const H_CLOSE: HelperPc := 4
  const H_CHOWN: HelperPc := 5
  const H_EXIT: HelperPc := 6

  /** The options that shape a run: CLONE_NEWUSER asked for, --chroot given, and how many cgroups and netifs. */
  datatype Config = Config(newUser: bool, chroot: bool, cgroups: nat, netifs: nat)

  /** A process that dies keeps its place, so that a state tells how far everyone got. */
  datatype State = State(
    parent: ParentPc, parentAlive: bool, child: ChildPc, childAlive: bool, helper: HelperPc, helperAlive: bool,
    newUserFlag: bool,   // clone_flags & CLONE_NEWUSER
    inUserNs: bool,      // the child was really cloned into a user namespace
    cgroups: nat, netifs: nat, maps: nat, helperMaps: nat,   // set-up done so far
    main: Pair, parentFds: Fds, childFds: Fds, helperFds: Fds,
    aux: Pair, parentAux: Fds, helperAux: Fds)

  function Init(c: Config): State {
    State(P_INIT, true, C_NONE, false, H_NONE, false, c.newUser, false, 0, 0, 0, 0,
          QUIET, CLOSED, CLOSED, CLOSED, QUIET, CLOSED, CLOSED)
  }

  /** What the kernel or the host decides: the outcome of clone, and what setup_console_owner finds. */
  datatype Choice = Go | Invalid | Fails | NoRootMapped | NoHelper

  // ---------------------------------------------------------------- steps

  function ParentDies(s: State): State {
    s.(parentAlive := false, parentFds := CLOSED, parentAux := CLOSED)
  }

  function Cloned(s: State): State {
    s.(parent := P_WAIT_START, child := C_PREPARE, childAlive := true, childFds := s.parentFds,
       inUserNs := s.newUserFlag)
  }

  predicate MainZeroOpen(s: State) { s.parentFds.zero || s.childFds.zero || s.helperFds.zero }

  predicate MainOneOpen(s: State) { s.parentFds.one || s.childFds.one || s.helperFds.one }

  predicate AuxZeroOpen(s: State) { s.parentAux.zero || s.helperAux.zero }

  predicate AuxOneOpen(s: State) { s.parentAux.one || s.helperAux.one }

  /** The parent up to its first wait: main and do_clone. None: the step is blocked. */
  function ParentStart(s: State, choice: Choice): Option<State>
    requires s.parent <= P_WAIT_START
  {
    if s.parent == P_INIT then Some(s.(parent := P_CLONE, main := QUIET, parentFds := OPEN))
    else if s.parent == P_CLONE then
      if choice == Invalid then Some(s.(parent := P_RETRY, newUserFlag := false))
      else if choice == Fails then Some(ParentDies(s))
      else Some(Cloned(s))
    else if s.parent == P_RETRY then
      if choice == Invalid || choice == Fails then Some(ParentDies(s)) else Some(Cloned(s))
    else
      match SyncWait(s.main.up, MainZeroOpen(s), SYNC_START)
      case Proceed(left) => Some(s.(parent := P_CONSOLE, main := s.main.(up := left)))
      case AtEof => Some(s.(parent := P_CONSOLE))
      case Mismatch => Some(ParentDies(s))
      case Blocked => None
  }

  /** setup_console_owner */
  function ConsoleNext(c: Config, s: State, choice: Choice): Option<State>
    requires P_CONSOLE <= s.parent <= P_WAIT_PID
  {
    if s.parent == P_CONSOLE then
      if !(c.chroot && s.newUserFlag) || choice == NoHelper then Some(s.(parent := P_CGROUP))
      else if choice == NoRootMapped || choice == Fails then Some(ParentDies(s))
      else Some(s.(parent := P_AUX_INIT))
    else if s.parent == P_AUX_INIT then Some(s.(parent := P_FORK, aux := QUIET, parentAux := OPEN))
    else if s.parent == P_FORK then
      Some(s.(parent := P_AUX_WAIT, helper := H_UNSHARE, helperAlive := true,
              helperFds := s.parentFds, helperAux := s.parentAux))
    else if s.parent == P_AUX_WAIT then
      (match SyncWait(s.aux.up, AuxZeroOpen(s), SYNC_START)
       case Proceed(left) => Some(s.(parent := P_AUX_MAP, aux := s.aux.(up := left)))
       case AtEof => Some(s.(parent := P_AUX_MAP))
       case Mismatch => Some(ParentDies(s))
       case Blocked => None)
    else if s.parent == P_AUX_MAP then
      if s.helperMaps < 2 then Some(s.(helperMaps := s.helperMaps + 1)) else Some(s.(parent := P_AUX_WAKE))
    else if s.parent == P_AUX_WAKE then
      if AuxZeroOpen(s) then Some(s.(parent := P_AUX_CLOSE, aux := s.aux.(down := s.aux.down + [SYNC_DONE])))
      else Some(ParentDies(s))
    else if s.parent == P_AUX_CLOSE then Some(s.(parent := P_WAIT_PID, parentAux := CLOSED))
    else if s.helperAlive then None else Some(s.(parent := P_CGROUP))
  }

  /** The rest of main: set-up, the second half of the barrier, and the end. */
  function ParentFinish(c: Config, s: State): Option<State>
    requires P_CGROUP <= s.parent
  {
    if s.parent == P_CGROUP then
      if s.cgroups < c.cgroups then Some(s.(cgroups := s.cgroups + 1)) else Some(s.(parent := P_NETIF))
    else if s.parent == P_NETIF then
      if s.netifs < c.netifs then Some(s.(netifs := s.netifs + 1)) else Some(s.(parent := P_USER_MAP))
    else if s.parent == P_USER_MAP then
      if s.newUserFlag && s.maps < 2 then Some(s.(maps := s.maps + 1)) else Some(s.(parent := P_WAKE))
    else if s.parent == P_WAKE then
      if MainZeroOpen(s) then Some(s.(parent := P_CLOSE, main := s.main.(down := s.main.down + [SYNC_DONE])))
      else Some(ParentDies(s))
    else if s.parent == P_CLOSE then Some(s.(parent := P_SERVE, parentFds := CLOSED))
    else if s.parent == P_SERVE then Some(ChildDies(s).(parent := P_WAIT_ID))
    else if s.parent == P_WAIT_ID then if s.childAlive then None else Some(s.(parent := P_CLOSE_AGAIN))
    else if s.parent == P_CLOSE_AGAIN then Some(s.(parent := P_DONE, parentFds := CLOSED))
    else None
  }

  function ParentNext(c: Config, s: State, choice: Choice): Option<State> {
    if s.parent <= P_WAIT_START then ParentStart(s, choice)
    else if s.parent <= P_WAIT_PID then ConsoleNext(c, s, choice)
    else ParentFinish(c, s)
  }

  function ChildDies(s: State): State {
    s.(childAlive := false, childFds := CLOSED)
  }

  /** The child's half of main. C_RUN stands for everything behind the barrier. */
  function ChildNext(s: State): Option<State> {
    if s.child == C_NONE then None
    else if s.child == C_PREPARE then Some(s.(child := C_WAKE))
    else if s.child == C_WAKE then
      if MainOneOpen(s) then Some(s.(child := C_WAIT, main := s.main.(up := s.main.up + [SYNC_START])))
      else Some(ChildDies(s))
    else if s.child == C_WAIT then
      (match SyncWait(s.main.down, MainOneOpen(s), SYNC_START + 1)
       case Proceed(left) => Some(s.(child := C_CLOSE, main := s.main.(down := left)))
       case AtEof => Some(s.(child := C_CLOSE))
       case Mismatch => Some(ChildDies(s))
       case Blocked => None)
    else if s.child == C_CLOSE then Some(s.(child := C_RUN, childFds := CLOSED))
    else None
  }

  function HelperDies(s: State): State {
    s.(helperAlive := false, helperFds := CLOSED, helperAux := CLOSED)
  }

  function HelperNext(s: State): Option<State> {
    if s.helper == H_NONE then None
    else if s.helper == H_UNSHARE then Some(s.(helper := H_WAKE))
    else if s.helper == H_WAKE then
      if AuxOneOpen(s) then Some(s.(helper := H_WAIT, aux := s.aux.(up := s.aux.up + [SYNC_START])))
      else Some(HelperDies(s))
    else if s.helper == H_WAIT then
      (match SyncWait(s.aux.down, AuxOneOpen(s), SYNC_START + 1)
       case Proceed(left) => Some(s.(helper := H_CLOSE, aux := s.aux.(down := left)))
       case AtEof => Some(s.(helper := H_CLOSE))
       case Mismatch => Some(HelperDies(s))
       case Blocked => None)
    else if s.helper == H_CLOSE then Some(s.(helper := H_CHOWN, helperAux := CLOSED))
    else if s.helper == H_CHOWN then Some(HelperDies(s).(helper := H_EXIT))
    else None
  }

  datatype Action =
    | Parent(choice: Choice) | Child | Helper
    | ParentDeath | ChildDeath | HelperDeath

  function Next(c: Config, s: State, a: Action): Option<State> {
    match a
    case Parent(choice) => if s.parentAlive then ParentNext(c, s, choice) else None
    case Child => if s.childAlive then ChildNext(s) else None
    case Helper => if s.helperAlive then HelperNext(s) else None
    case ParentDeath => if s.parentAlive then Some(ParentDies(s)) else None
    case ChildDeath => if s.childAlive then Some(ChildDies(s)) else None
    case HelperDeath => if s.helperAlive then Some(HelperDies(s)) else None
  }

  /** A run: a start state and what the actions make of it. */
  ghost predicate Run(c: Config, states: seq<State>, actions: seq<Action>) {
    && |states| == |actions| + 1 && states[0] == Init(c)
    && forall i | 0 <= i < |actions| :: Steps(c, states[i], actions[i], states[i + 1])
  }

  ghost predicate Steps(c: Config, s: State, a: Action, s': State) {
    Next(c, s, a) == Some(s')
  }

  // ---------------------------------------------------------------- the invariant

  /** Descriptors: everyone who may still read from a pair has both of its ends open. */
  ghost predicate FdsInv(s: State) {
    && s.parentFds == (if s.parentAlive && P_CLONE <= s.parent <= P_CLOSE then OPEN else CLOSED)
    && s.childFds == (if s.childAlive && C_PREPARE <= s.child <= C_CLOSE then OPEN else CLOSED)
    && (s.childAlive ==> s.child != C_NONE) && (s.parent >= P_WAIT_ID ==> !s.childAlive)
  }

  ghost predicate AuxFdsInv(s: State) {
    && s.parentAux == (if s.parentAlive && P_FORK <= s.parent <= P_AUX_CLOSE then OPEN else CLOSED)
    && s.helperAux == (if s.helperAlive && H_UNSHARE <= s.helper <= H_CLOSE then OPEN else CLOSED)
    && (s.helperAlive ==> s.helper != H_NONE) && (s.helper == H_EXIT ==> !s.helperAlive)
  }

  /** The main pair: what is in flight follows from how far parent and child got. */
  ghost predicate MainInv(s: State) {
    && (s.child == C_NONE <==> s.parent <= P_RETRY)
    && s.main.up == (if s.child >= C_WAIT && s.parent <= P_WAIT_START then [SYNC_START] else [])
    && s.main.down == (if s.parent >= P_CLOSE && s.child <= C_WAIT then [SYNC_DONE] else [])
    && (s.parent >= P_CONSOLE ==> s.child >= C_WAIT)
    && (s.child >= C_CLOSE ==> s.parent >= P_CLOSE)
  }

  ghost predicate AuxInv(s: State) {
    && (s.parent <= P_FORK ==> s.helper == H_NONE)
    && (P_AUX_WAIT <= s.parent <= P_WAIT_PID ==> s.helper != H_NONE)
    && s.aux.up == (if s.helper >= H_WAIT && s.parent <= P_AUX_WAIT then [SYNC_START] else [])
    && s.aux.down == (if s.helper != H_NONE && s.parent >= P_AUX_CLOSE && s.helper <= H_WAIT then [SYNC_DONE] else [])
    && (s.helper != H_NONE && s.parent >= P_AUX_MAP ==> s.helper >= H_WAIT)
    && (s.helper >= H_CLOSE ==> s.parent >= P_AUX_CLOSE)
    && (s.helper != H_NONE && s.parent >= P_CGROUP ==> !s.helperAlive)
  }

  /** Set-up happens in the order of main, and what lies behind the parent is complete. */
  ghost predicate SetupInv(c: Config, s: State) {
    && s.cgroups == (if s.parent >= P_NETIF then c.cgroups else if s.parent == P_CGROUP then s.cgroups else 0)
    && s.netifs == (if s.parent >= P_USER_MAP then c.netifs else if s.parent == P_NETIF then s.netifs else 0)
    && s.cgroups <= c.cgroups && s.netifs <= c.netifs
  }

  ghost predicate MapsInv(c: Config, s: State) {
    && s.maps <= 2 && s.helperMaps <= 2
    && (s.parent <= P_NETIF || !s.newUserFlag ==> s.maps == 0)
    && (s.parent >= P_WAKE && s.newUserFlag ==> s.maps == 2)
    && (s.helper != H_NONE && s.parent >= P_AUX_WAKE ==> s.helperMaps == 2)
    && (s.parent <= P_AUX_WAIT ==> s.helperMaps == 0)
    && (s.parent >= P_WAIT_START ==> s.inUserNs == s.newUserFlag)
    && (s.newUserFlag ==> c.newUser)
  }

  ghost predicate Inv(c: Config, s: State) {
    FdsInv(s) && AuxFdsInv(s) && MainInv(s) && AuxInv(s) && SetupInv(c, s) && MapsInv(c, s)
  }

  lemma {:induction false} InitInv(c: Config)
    ensures Inv(c, Init(c))
  {}

  lemma {:induction false} StartKeeps(c: Config, s: State, choice: Choice)
    requires Inv(c, s) && s.parentAlive && s.parent <= P_WAIT_START && ParentStart(s, choice).Some?
    ensures Inv(c, ParentStart(s, choice).value)
  {}

  lemma {:induction false} ConsoleFds(c: Config, s: State, choice: Choice, s': State)
    requires Inv(c, s) && s.parentAlive && P_CONSOLE <= s.parent <= P_WAIT_PID && ConsoleNext(c, s, choice) == Some(s')
    ensures FdsInv(s')
  {}

  lemma {:induction false} ConsoleAuxFds(c: Config, s: State, choice: Choice, s': State)
    requires Inv(c, s) && s.parentAlive && P_CONSOLE <= s.parent <= P_WAIT_PID && ConsoleNext(c, s, choice) == Some(s')
    ensures AuxFdsInv(s')
  {}

  lemma {:induction false} ConsoleMaps(c: Config, s: State, choice: Choice, s': State)
    requires Inv(c, s) && s.parentAlive && P_CONSOLE <= s.parent <= P_WAIT_PID && ConsoleNext(c, s, choice) == Some(s')
    ensures MapsInv(c, s')
  {}

  lemma {:induction false} ConsoleMain(c: Config, s: State, choice: Choice, s': State)
    requires Inv(c, s) && s.parentAlive && P_CONSOLE <= s.parent <= P_WAIT_PID && ConsoleNext(c, s, choice) == Some(s')
    ensures MainInv(s')
  {}

  lemma {:induction false} ConsoleAuxUp(c: Config, s: State, choice: Choice, s': State)
    requires Inv(c, s) && s.parentAlive && P_CONSOLE <= s.parent <= P_AUX_WAIT
    requires ConsoleNext(c, s, choice) == Some(s')
    ensures AuxInv(s')
  {}

  lemma {:induction false} ConsoleAuxDown(c: Config, s: State, choice: Choice, s': State)
    requires Inv(c, s) && s.parentAlive && P_AUX_MAP <= s.parent <= P_WAIT_PID
    requires ConsoleNext(c, s, choice) == Some(s')
    ensures AuxInv(s')
  {}

  lemma {:induction false} ConsoleSetup(c: Config, s: State, choice: Choice, s': State)
    requires Inv(c, s) && s.parentAlive && P_CONSOLE <= s.parent <= P_WAIT_PID && ConsoleNext(c, s, choice) == Some(s')
    ensures SetupInv(c, s')
  {}

  lemma {:induction false} FinishFds(c: Config, s: State, s': State)
    requires Inv(c, s) && s.parentAlive && P_CGROUP <= s.parent && ParentFinish(c, s) == Some(s')
    ensures FdsInv(s')
  {
    if s.parent == P_WAKE { assert MainZeroOpen(s); }
  }

  lemma {:induction false} FinishAuxFds(c: Config, s: State, s': State)
    requires Inv(c, s) && s.parentAlive && P_CGROUP <= s.parent && ParentFinish(c, s) == Some(s')
    ensures AuxFdsInv(s')
  {
    if s.parent == P_WAKE { assert MainZeroOpen(s); }
  }

  lemma {:induction false} FinishMaps(c: Config, s: State, s': State)
    requires Inv(c, s) && s.parentAlive && P_CGROUP <= s.parent && ParentFinish(c, s) == Some(s')
    ensures MapsInv(c, s')
  {
    if s.parent == P_WAKE { assert MainZeroOpen(s); }
  }

  lemma {:induction false} FinishMain(c: Config, s: State, s': State)
    requires Inv(c, s) && s.parentAlive && P_CGROUP <= s.parent && ParentFinish(c, s) == Some(s')
    ensures MainInv(s')
  {
    if s.parent == P_WAKE { assert MainZeroOpen(s); }
  }

  lemma {:induction false} FinishAux(c: Config, s: State, s': State)
    requires Inv(c, s) && s.parentAlive && P_CGROUP <= s.parent && ParentFinish(c, s) == Some(s')
    ensures AuxInv(s')
  {
    if s.parent == P_WAKE { assert MainZeroOpen(s); }
  }

  lemma {:induction false} FinishSetup(c: Config, s: State, s': State)
    requires Inv(c, s) && s.parentAlive && P_CGROUP <= s.parent && ParentFinish(c, s) == Some(s')
    ensures SetupInv(c, s')
  {
    if s.parent == P_WAKE { assert MainZeroOpen(s); }
  }

  lemma {:induction false} ChildFds(c: Config, s: State, s': State)
    requires Inv(c, s) && s.childAlive && ChildNext(s) == Some(s')
    ensures FdsInv(s') && AuxFdsInv(s')
  {}

  lemma {:induction false} ChildMain(c: Config, s: State, s': State)
    requires Inv(c, s) && s.childAlive && ChildNext(s) == Some(s')
    ensures MainInv(s')
  {}

  lemma {:induction false} ChildAux(c: Config, s: State, s': State)
    requires Inv(c, s) && s.childAlive && ChildNext(s) == Some(s')
    ensures AuxInv(s')
  {}

  lemma {:induction false} ChildSetup(c: Config, s: State, s': State)
    requires Inv(c, s) && s.childAlive && ChildNext(s) == Some(s')
    ensures SetupInv(c, s') && MapsInv(c, s')
  {}

  lemma {:induction false} HelperFds(c: Config, s: State, s': State)
    requires Inv(c, s) && s.helperAlive && HelperNext(s) == Some(s')
    ensures FdsInv(s')
  {}

  lemma {:induction false} HelperAuxFds(c: Config, s: State, s': State)
    requires Inv(c, s) && s.helperAlive && HelperNext(s) == Some(s')
    ensures AuxFdsInv(s')
  {}

  lemma {:induction false} HelperMaps(c: Config, s: State, s': State)
    requires Inv(c, s) && s.helperAlive && HelperNext(s) == Some(s')
    ensures MapsInv(c, s')
  {}

  lemma {:induction false} HelperMain(c: Config, s: State, s': State)
    requires Inv(c, s) && s.helperAlive && HelperNext(s) == Some(s')
    ensures MainInv(s')
  {}

  lemma {:induction false} HelperAux(c: Config, s: State, s': State)
    requires Inv(c, s) && s.helperAlive && HelperNext(s) == Some(s')
    ensures AuxInv(s')
  {}

  lemma {:induction false} HelperSetup(c: Config, s: State, s': State)
    requires Inv(c, s) && s.helperAlive && HelperNext(s) == Some(s')
    ensures SetupInv(c, s')
  {}

  lemma {:induction false} ParentDeathKeeps(c: Config, s: State)
    requires Inv(c, s)
    ensures Inv(c, ParentDies(s))
  {}

  lemma {:induction false} ChildDeathKeeps(c: Config, s: State)
    requires Inv(c, s)
    ensures Inv(c, ChildDies(s))
  {}

  lemma {:induction false} HelperDeathKeeps(c: Config, s: State)
    requires Inv(c, s)
    ensures Inv(c, HelperDies(s))
  {}

  /** Every step of every process, and every death, keeps the invariant. */
  lemma {:induction false} StepKeeps(c: Config, s: State, a: Action)
    requires Inv(c, s) && Next(c, s, a).Some?
    ensures Inv(c, Next(c, s, a).value)
  {
    var s' := Next(c, s, a).value;
    match a {
      case Parent(choice) => ParentKeeps(c, s, choice);
      case Child =>
        ChildFds(c, s, s'); ChildMain(c, s, s'); ChildAux(c, s, s'); ChildSetup(c, s, s');
      case Helper =>
        HelperFds(c, s, s');
        HelperAuxFds(c, s, s');
        HelperMaps(c, s, s');
        HelperMain(c, s, s');
        HelperAux(c, s, s');
        HelperSetup(c, s, s');
      case ParentDeath => ParentDeathKeeps(c, s);
      case ChildDeath => ChildDeathKeeps(c, s);
      case HelperDeath => HelperDeathKeeps(c, s);
    }
  }

  lemma {:induction false} ParentKeeps(c: Config, s: State, choice: Choice)
    requires Inv(c, s) && s.parentAlive && ParentNext(c, s, choice).Some?
    ensures Inv(c, ParentNext(c, s, choice).value)
  {
    var s' := ParentNext(c, s, choice).value;
    if s.parent <= P_WAIT_START {
      StartKeeps(c, s, choice);
    } else if s.parent <= P_WAIT_PID {
      ConsoleFds(c, s, choice, s'); ConsoleAuxFds(c, s, choice, s'); ConsoleMaps(c, s, choice, s');
      ConsoleMain(c, s, choice, s');
      if s.parent <= P_AUX_WAIT { ConsoleAuxUp(c, s, choice, s'); } else { ConsoleAuxDown(c, s, choice, s'); }
      ConsoleSetup(c, s, choice, s');
    } else {
      FinishFds(c, s, s'); FinishAuxFds(c, s, s'); FinishMaps(c, s, s');
      FinishMain(c, s, s');
      FinishAux(c, s, s');
      FinishSetup(c, s, s');
    }
  }

  lemma {:induction false} InvAfter(c: Config, s: State, a: Action, s': State)
    requires Inv(c, s) && Steps(c, s, a, s')
    ensures Inv(c, s')
  {
    StepKeeps(c, s, a);
  }

  /** Induction over runs: what holds at place `i` and is handed on by every step holds from `i` on. */
  lemma {:induction false} Onward(c: Config, states: seq<State>, actions: seq<Action>, i: nat, j: nat,
                                  p: (int, State) -> bool)
    requires Run(c, states, actions) && i <= j < |states| && p(i, states[i])
    requires forall k, s, a, s' {:trigger p(k, s), Steps(c, s, a, s')} | p(k, s) && Steps(c, s, a, s') :: p(k + 1, s')
    ensures p(j, states[j])
    decreases j - i
  {
    if i < j {
      assert Steps(c, states[i], actions[i], states[i + 1]);
      assert p(i + 1, states[i + 1]);
      Onward(c, states, actions, i + 1, j, p);
    }
  }

  lemma {:induction false} RunKeeps(c: Config, states: seq<State>, actions: seq<Action>, i: nat)
    requires Run(c, states, actions) && i < |states|
    ensures Inv(c, states[i])
  {
    var p := (k: int, s: State) => Inv(c, s);
    InitInv(c);
    forall k: int, s, a, s' | p(k, s) && Steps(c, s, a, s') ensures p(k + 1, s') {
      InvAfter(c, s, a, s');
    }
    Onward(c, states, actions, 0, i, p);
  }

  // ---------------------------------------------------------------- safety

  /** Whoever died when: a child behind the barrier has its cgroups, its network and its user map, the map being
      written just when it lives in a user namespace; and a console helper, if there was one, is gone. */
  lemma {:induction false} BarrierSafety(c: Config, states: seq<State>, actions: seq<Action>, i: nat)
    requires Run(c, states, actions) && i < |states| && states[i].child >= C_CLOSE
    ensures var s := states[i];
            && s.cgroups == c.cgroups && s.netifs == c.netifs
            && s.maps == (if s.inUserNs then 2 else 0) && (s.inUserNs ==> c.newUser)
            && !s.helperAlive && (s.helper != H_NONE ==> s.helperMaps == 2)
  {
    RunKeeps(c, states, actions, i);
  }

  /** The parts of the set-up do not overlap: first the console, then cgroups, then interfaces, then user maps; and
      the first of them only when the child has reported. */
  lemma {:induction false} SetupOrder(c: Config, states: seq<State>, actions: seq<Action>, i: nat)
    requires Run(c, states, actions) && i < |states|
    ensures var s := states[i];
            && (s.maps > 0 ==> s.netifs == c.netifs) && (s.maps > 0 || s.netifs > 0 ==> s.cgroups == c.cgroups)
            && (s.maps > 0 || s.netifs > 0 || s.cgroups > 0 ==> !s.helperAlive)
            && (s.maps > 0 || s.netifs > 0 || s.cgroups > 0 || s.helper != H_NONE ==> s.child >= C_WAIT)
  {
    RunKeeps(c, states, actions, i);
  }

  /** Nobody keeps a descriptor: not behind the barrier, not behind the helper's part, and not in death; and whoever
      may still wait has both. */
  lemma {:induction false} Descriptors(c: Config, states: seq<State>, actions: seq<Action>, i: nat)
    requires Run(c, states, actions) && i < |states|
    ensures var s := states[i];
            && (s.childFds == if s.childAlive && s.child != C_RUN then OPEN else CLOSED)
            && (s.parent >= P_SERVE || s.parent == P_INIT || !s.parentAlive ==> s.parentFds == CLOSED)
            && (s.parent >= P_WAIT_PID || s.parent < P_FORK || !s.parentAlive ==> s.parentAux == CLOSED)
            && (s.helperAux == if s.helperAlive && s.helper <= H_CLOSE then OPEN else CLOSED)
            && (s.parentAlive && s.parent == P_WAIT_START ==> s.parentFds == OPEN)
            && (s.parentAlive && s.parent == P_AUX_WAIT ==> s.parentAux == OPEN)
  {
    RunKeeps(c, states, actions, i);
  }

  /** What a sync_wait would see now, for each of the four waits. */
  function ParentSees(s: State): Wait { SyncWait(s.main.up, MainZeroOpen(s), SYNC_START) }

  function ChildSees(s: State): Wait { SyncWait(s.main.down, MainOneOpen(s), SYNC_START + 1) }

  function ParentSeesAux(s: State): Wait { SyncWait(s.aux.up, AuxZeroOpen(s), SYNC_START) }

  function HelperSees(s: State): Wait { SyncWait(s.aux.down, AuxOneOpen(s), SYNC_START + 1) }

  ghost predicate Clean(w: Wait) { w.Proceed? || w.Blocked? }

  /** Nobody who waits ever reads end-of-file or the wrong number, nobody who writes finds the pair broken, and no
      direction ever holds more than one message. */
  lemma {:induction false} WaitsAreClean(c: Config, states: seq<State>, actions: seq<Action>, i: nat)
    requires Run(c, states, actions) && i < |states|
    ensures var s := states[i];
            && (s.parentAlive && s.parent == P_WAIT_START ==> Clean(ParentSees(s)))
            && (s.childAlive && s.child == C_WAIT ==> Clean(ChildSees(s)))
            && (s.parentAlive && s.parent == P_AUX_WAIT ==> Clean(ParentSeesAux(s)))
            && (s.helperAlive && s.helper == H_WAIT ==> Clean(HelperSees(s)))
            && (s.parentAlive && s.parent == P_WAKE ==> MainZeroOpen(s))
            && (s.childAlive && s.child == C_WAKE ==> MainOneOpen(s))
            && (s.parentAlive && s.parent == P_AUX_WAKE ==> AuxZeroOpen(s))
            && (s.helperAlive && s.helper == H_WAKE ==> AuxOneOpen(s))
            && |s.main.up| <= 1 && |s.main.down| <= 1 && |s.aux.up| <= 1 && |s.aux.down| <= 1
  {
    RunKeeps(c, states, actions, i);
  }

  // ---------------------------------------------------------------- what a death leaves behind

  lemma {:induction false} StillDead(c: Config, s: State, a: Action)
    requires Next(c, s, a).Some? && !s.childAlive && C_PREPARE <= s.child <= C_WAKE && Inv(c, s)
    ensures var s' := Next(c, s, a).value; !s'.childAlive && s'.child == s.child
  {}

  lemma {:induction false} DeadStays(c: Config, states: seq<State>, actions: seq<Action>, i: nat, j: nat)
    requires Run(c, states, actions) && i <= j < |states|
    requires !states[i].childAlive && C_PREPARE <= states[i].child <= C_WAKE
    ensures !states[j].childAlive && states[j].child == states[i].child
  {
    var at := states[i].child;
    var p := (k: int, s: State) => Inv(c, s) && !s.childAlive && s.child == at;
    RunKeeps(c, states, actions, i);
    forall k: int, s, a, s' | p(k, s) && Steps(c, s, a, s') ensures p(k + 1, s') {
      InvAfter(c, s, a, s');
      StillDead(c, s, a);
    }
    Onward(c, states, actions, i, j, p);
  }

  /** A parent waiting for a child that died before it could report waits for ever: its own copy of the child's
      descriptor keeps end-of-file away. */
  lemma {:induction false} DeadChildHangsParent(c: Config, states: seq<State>, actions: seq<Action>, i: nat, j: nat)
    requires Run(c, states, actions) && i <= j < |states|
    requires !states[i].childAlive && C_PREPARE <= states[i].child <= C_WAKE
    ensures states[j].parent == P_WAIT_START
  {
    DeadStays(c, states, actions, i, j);
    RunKeeps(c, states, actions, j);
  }

  lemma {:induction false} HelperStillDead(c: Config, s: State, a: Action)
    requires Next(c, s, a).Some? && !s.helperAlive && H_UNSHARE <= s.helper <= H_WAKE && Inv(c, s)
    ensures var s' := Next(c, s, a).value; !s'.helperAlive && s'.helper == s.helper
  {}

  /** The same for the console helper: had it died before its report, the parent would never finish the set-up. */
  lemma {:induction false} DeadHelperHangsParent(c: Config, states: seq<State>, actions: seq<Action>, i: nat, j: nat)
    requires Run(c, states, actions) && i <= j < |states|
    requires !states[i].helperAlive && H_UNSHARE <= states[i].helper <= H_WAKE
    ensures states[j].parent == P_AUX_WAIT && states[j].child <= C_WAIT
  {
    var at := states[i].helper;
    var p := (k: int, s: State) => Inv(c, s) && !s.helperAlive && s.helper == at;
    RunKeeps(c, states, actions, i);
    forall k: int, s, a, s' | p(k, s) && Steps(c, s, a, s') ensures p(k + 1, s') {
      InvAfter(c, s, a, s');
      HelperStillDead(c, s, a);
    }
    Onward(c, states, actions, i, j, p);
  }

  lemma {:induction false} ParentStaysDead(c: Config, s: State, a: Action)
    requires Next(c, s, a).Some? && !s.parentAlive
    ensures var s' := Next(c, s, a).value; !s'.parentAlive && s'.parent == s.parent
  {}

  lemma {:induction false} DeadParentStays(c: Config, states: seq<State>, actions: seq<Action>, i: nat, j: nat)
    requires Run(c, states, actions) && i <= j < |states| && !states[i].parentAlive
    ensures !states[j].parentAlive && states[j].parent == states[i].parent
  {
    var at := states[i].parent;
    var p := (k: int, s: State) => !s.parentAlive && s.parent == at;
    forall k: int, s, a, s' | p(k, s) && Steps(c, s, a, s') ensures p(k + 1, s') {
      ParentStaysDead(c, s, a);
    }
    Onward(c, states, actions, i, j, p);
  }

  /** When the parent dies before it wakes the child, the child never gets past the barrier. */
  lemma {:induction false} DeadParentHoldsChild(c: Config, states: seq<State>, actions: seq<Action>, i: nat, j: nat)
    requires Run(c, states, actions) && i <= j < |states|
    requires !states[i].parentAlive && states[i].parent <= P_WAKE
    ensures states[j].child <= C_WAIT
  {
    DeadParentStays(c, states, actions, i, j);
    RunKeeps(c, states, actions, j);
  }

  // ---------------------------------------------------------------- what the kernel and the host decide

  /** Step `j` is the parent's at `pc`, with this choice. */
  ghost predicate Chosen(states: seq<State>, actions: seq<Action>, j: nat, pc: ParentPc, choice: Choice)
    requires j < |actions| < |states|
  {
    states[j].parent == pc && actions[j] == Parent(choice)
  }

  /** So was one of the first `i` steps. */
  ghost predicate Met(states: seq<State>, actions: seq<Action>, i: nat, pc: ParentPc, choice: Choice)
    requires i <= |actions| < |states|
  {
    exists j: nat | j < i :: Chosen(states, actions, j, pc, choice)
  }

  lemma {:induction false} MetMore(states: seq<State>, actions: seq<Action>, i: nat, pc: ParentPc, choice: Choice)
    requires i < |actions| < |states|
    ensures Met(states, actions, i + 1, pc, choice) <==>
            Met(states, actions, i, pc, choice) || Chosen(states, actions, i, pc, choice)
  {}

  lemma {:induction false} FlagStart(s: State, choice: Choice, s': State)
    requires s.parent <= P_WAIT_START && ParentStart(s, choice) == Some(s')
    ensures s'.newUserFlag <==> s.newUserFlag && !(s.parent == P_CLONE && choice == Invalid)
  {}

  lemma {:induction false} FlagConsole(c: Config, s: State, choice: Choice, s': State)
    requires P_CONSOLE <= s.parent <= P_WAIT_PID && ConsoleNext(c, s, choice) == Some(s')
    ensures s'.newUserFlag == s.newUserFlag
  {}

  lemma {:induction false} FlagFinish(c: Config, s: State, s': State)
    requires P_CGROUP <= s.parent && ParentFinish(c, s) == Some(s')
    ensures s'.newUserFlag == s.newUserFlag
  {}

  lemma {:induction false} FlagChild(s: State, s': State)
    requires ChildNext(s) == Some(s')
    ensures s'.newUserFlag == s.newUserFlag && s'.parent == s.parent
    ensures s'.helper == s.helper && s'.helperAlive == s.helperAlive
  {}

  lemma {:induction false} FlagHelper(s: State, s': State)
    requires HelperNext(s) == Some(s')
    ensures s'.newUserFlag == s.newUserFlag && s'.parent == s.parent && (s'.helper == H_NONE <==> s.helper == H_NONE)
  {}

  lemma {:induction false} FlagStep(c: Config, s: State, a: Action, s': State)
    requires Steps(c, s, a, s')
    ensures s'.newUserFlag <==> s.newUserFlag && !(s.parent == P_CLONE && a == Parent(Invalid))
  {
    match a {
      case Parent(choice) =>
        if s.parent <= P_WAIT_START {
          FlagStart(s, choice, s');
        } else if s.parent <= P_WAIT_PID {
          FlagConsole(c, s, choice, s');
        } else {
          FlagFinish(c, s, s');
        }
      case Child => FlagChild(s, s');
      case Helper => FlagHelper(s, s');
      case _ =>
    }
  }

  /** The request for a user namespace is dropped exactly when the first clone meets EINVAL. */
  lemma {:induction false} FlagExactly(c: Config, states: seq<State>, actions: seq<Action>, i: nat)
    requires Run(c, states, actions) && i < |states|
    ensures states[i].newUserFlag <==> c.newUser && !Met(states, actions, i, P_CLONE, Invalid)
  {
    if i > 0 {
      FlagExactly(c, states, actions, i - 1);
      assert Steps(c, states[i - 1], actions[i - 1], states[i - 1 + 1]);
      FlagStep(c, states[i - 1], actions[i - 1], states[i]);
      MetMore(states, actions, i - 1, P_CLONE, Invalid);
    }
  }

  /** Behind the clone, the child is in a user namespace exactly if one was asked for and the first clone did not meet
      EINVAL; and only then a user map is ever written. */
  lemma {:induction false} UserNsExactly(c: Config, states: seq<State>, actions: seq<Action>, i: nat)
    requires Run(c, states, actions) && i < |states| && states[i].parent >= P_WAIT_START
    ensures states[i].inUserNs <==> c.newUser && !Met(states, actions, i, P_CLONE, Invalid)
    ensures !states[i].inUserNs ==> states[i].maps == 0
    ensures states[i].child >= C_CLOSE && states[i].inUserNs ==> states[i].maps == 2
  {
    FlagExactly(c, states, actions, i);
    RunKeeps(c, states, actions, i);
  }

  /** After an EINVAL there is no user namespace and no user map, at whatever later moment. */
  lemma {:induction false} InvalidForGood(c: Config, states: seq<State>, actions: seq<Action>, i: nat, j: nat)
    requires Run(c, states, actions) && i < j < |states| && Chosen(states, actions, i, P_CLONE, Invalid)
    ensures !states[j].newUserFlag && states[j].maps == 0 && states[j].helper == H_NONE
    ensures states[j].parent >= P_WAIT_START ==> !states[j].inUserNs
  {
    assert Met(states, actions, j, P_CLONE, Invalid);
    FlagExactly(c, states, actions, j);
    RunKeeps(c, states, actions, j);
    HelperExactly(c, states, actions, j);
  }

  /** Whether there is a console helper; `none` says that the host had no use for one. */
  ghost predicate HelperInv(c: Config, s: State, none: bool) {
    && (P_AUX_INIT <= s.parent <= P_WAIT_PID || s.helper != H_NONE ==> c.chroot && s.newUserFlag && !none)
    && (s.parent >= P_CGROUP && s.helper == H_NONE ==> !(c.chroot && s.newUserFlag && !none))
    && (none ==> s.parent >= P_CGROUP)
  }

  lemma {:induction false} HelperStep(c: Config, s: State, a: Action, s': State, none: bool, none': bool)
    requires HelperInv(c, s, none) && Inv(c, s) && Steps(c, s, a, s')
    requires none' <==> none || (s.parent == P_CONSOLE && a == Parent(NoHelper))
    ensures HelperInv(c, s', none')
  {
    match a {
      case Parent(choice) =>
        if s.parent <= P_WAIT_START {
          HelperStart(c, s, choice, s', none);
        } else if s.parent <= P_WAIT_PID {
          HelperConsole(c, s, choice, s', none);
        } else {
          HelperFinish(c, s, s', none);
        }
      case Child => FlagChild(s, s');
      case Helper => FlagHelper(s, s');
      case _ =>
    }
  }

  lemma {:induction false} HelperStart(c: Config, s: State, choice: Choice, s': State, none: bool)
    requires s.parent <= P_WAIT_START && ParentStart(s, choice) == Some(s') && HelperInv(c, s, none) && Inv(c, s)
    ensures HelperInv(c, s', none)
  {}

  lemma {:induction false} HelperConsole(c: Config, s: State, choice: Choice, s': State, none: bool)
    requires P_CONSOLE <= s.parent <= P_WAIT_PID && ConsoleNext(c, s, choice) == Some(s')
    requires s.parentAlive && HelperInv(c, s, none) && Inv(c, s)
    ensures HelperInv(c, s', none || (s.parent == P_CONSOLE && choice == NoHelper))
  {}

  lemma {:induction false} HelperFinish(c: Config, s: State, s': State, none: bool)
    requires P_CGROUP <= s.parent && ParentFinish(c, s) == Some(s') && HelperInv(c, s, none) && Inv(c, s)
    ensures HelperInv(c, s', none)
  {}

  lemma {:induction false} HelperKept(c: Config, states: seq<State>, actions: seq<Action>, i: nat)
    requires Run(c, states, actions) && i < |states|
    ensures HelperInv(c, states[i], Met(states, actions, i, P_CONSOLE, NoHelper))
  {
    if i > 0 {
      HelperKept(c, states, actions, i - 1);
      RunKeeps(c, states, actions, i - 1);
      MetMore(states, actions, i - 1, P_CONSOLE, NoHelper);
      assert Steps(c, states[i - 1], actions[i - 1], states[i - 1 + 1]);
      HelperStep(c, states[i - 1], actions[i - 1], states[i], Met(states, actions, i - 1, P_CONSOLE, NoHelper),
                 Met(states, actions, i, P_CONSOLE, NoHelper));
    }
  }

  /** A console helper is only ever forked for a new root and a user namespace, and where the host has use for one;
      and once the parent has got beyond its place for it, it has been. */
  lemma {:induction false} HelperExactly(c: Config, states: seq<State>, actions: seq<Action>, i: nat)
    requires Run(c, states, actions) && i < |states|
    ensures var wanted := && c.chroot && c.newUser && !Met(states, actions, i, P_CLONE, Invalid)
                          && !Met(states, actions, i, P_CONSOLE, NoHelper);
            && (states[i].helper != H_NONE ==> wanted)
            && (states[i].parent >= P_AUX_WAIT ==> (states[i].helper != H_NONE <==> wanted))
  {
    HelperKept(c, states, actions, i);
    FlagExactly(c, states, actions, i);
    RunKeeps(c, states, actions, i);
  }

  /** The parent gives up: no child could be cloned, or the console of a container with a root and a user namespace of
      its own cannot get an owner. */
  ghost predicate GivesUp(c: Config, s: State, choice: Choice) {
    || (s.parent == P_CLONE && choice == Fails)
    || (s.parent == P_RETRY && (choice == Invalid || choice == Fails))
    || (s.parent == P_CONSOLE && c.chroot && s.newUserFlag && (choice == NoRootMapped || choice == Fails))
  }

  lemma {:induction false} ParentEnds(c: Config, s: State, choice: Choice, s': State)
    requires Inv(c, s) && Steps(c, s, Parent(choice), s')
    ensures s'.parentAlive <==> !GivesUp(c, s, choice)
  {}

  lemma {:induction false} ChildEnds(c: Config, s: State, s': State)
    requires Inv(c, s) && Steps(c, s, Child, s')
    ensures s'.childAlive
  {}

  lemma {:induction false} HelperEnds(c: Config, s: State, s': State)
    requires Inv(c, s) && Steps(c, s, Helper, s')
    ensures s'.helperAlive <==> s.helper != H_CHOWN
    ensures !s'.helperAlive ==> s'.helper == H_EXIT
  {}

  /** In every run no process ends itself but by giving up, or, for the helper, when its work is done. */
  lemma {:induction false} OwnEnds(c: Config, states: seq<State>, actions: seq<Action>, i: nat)
    requires Run(c, states, actions) && i < |actions|
    ensures actions[i].Parent? ==> (states[i + 1].parentAlive <==> !GivesUp(c, states[i], actions[i].choice))
    ensures actions[i] == Child ==> states[i + 1].childAlive
    ensures actions[i] == Helper ==> (states[i + 1].helperAlive <==> states[i].helper != H_CHOWN)
  {
    RunKeeps(c, states, actions, i);
    assert Steps(c, states[i], actions[i], states[i + 1]);
    match actions[i] {
      case Parent(choice) => ParentEnds(c, states[i], choice, states[i + 1]);
      case Child => ChildEnds(c, states[i], states[i + 1]);
      case Helper => HelperEnds(c, states[i], states[i + 1]);
      case _ =>
    }
  }

  /** A parent that gives up leaves a child that never gets past the barrier, if there is one, and no helper. */
  lemma {:induction false} GaveUp(c: Config, states: seq<State>, actions: seq<Action>, i: nat, j: nat)
    requires Run(c, states, actions) && i < j < |states| && actions[i].Parent?
    requires GivesUp(c, states[i], actions[i].choice)
    ensures !states[j].parentAlive && states[j].child <= C_WAIT && states[j].helper == H_NONE
    ensures states[i].parent <= P_RETRY ==> states[j].child == C_NONE
  {
    OwnEnds(c, states, actions, i);
    assert Steps(c, states[i], actions[i], states[i + 1]);
    DeadParentStays(c, states, actions, i + 1, j);
    RunKeeps(c, states, actions, j);
    HelperKept(c, states, actions, j);
  }

  lemma {:induction false} HelperLeft(c: Config, s: State, a: Action, s': State)
    requires Inv(c, s) && Steps(c, s, a, s') && a != HelperDeath
    requires s.helper == H_NONE || s.helperAlive || s.helper == H_EXIT
    ensures s'.helper == H_NONE || s'.helperAlive || s'.helper == H_EXIT
  {
    match a {
      case Parent(choice) => HelperApart(c, s, choice, s');
      case Child => FlagChild(s, s');
      case Helper => HelperEnds(c, s, s');
      case _ =>
    }
  }

  /** The parent leaves a helper alone, save that it forks it. */
  lemma {:induction false} HelperApart(c: Config, s: State, choice: Choice, s': State)
    requires Steps(c, s, Parent(choice), s')
    ensures (s'.helper == s.helper && s'.helperAlive == s.helperAlive) || s'.helperAlive
  {}

  lemma {:induction false} HelperFinishes(c: Config, states: seq<State>, actions: seq<Action>, i: nat)
    requires Run(c, states, actions) && i < |states| && HelperDeath !in actions[..i]
    ensures states[i].helper == H_NONE || states[i].helperAlive || states[i].helper == H_EXIT
  {
    if i > 0 {
      assert actions[..i] == actions[..i - 1] + [actions[i - 1]];
      HelperFinishes(c, states, actions, i - 1);
      RunKeeps(c, states, actions, i - 1);
      assert Steps(c, states[i - 1], actions[i - 1], states[i - 1 + 1]);
      HelperLeft(c, states[i - 1], actions[i - 1], states[i]);
    }
  }

  /** A helper changes the owner only under its own maps; and if one was wanted and nothing killed it, its work is
      done before the child gets past the barrier. */
  lemma {:induction false} ConsoleOwned(c: Config, states: seq<State>, actions: seq<Action>, i: nat)
    requires Run(c, states, actions) && i < |states|
    ensures states[i].helper >= H_CLOSE ==> states[i].helperMaps == 2
    ensures states[i].child >= C_CLOSE && c.chroot && states[i].inUserNs && HelperDeath !in actions[..i] ==>
              Met(states, actions, i, P_CONSOLE, NoHelper) || states[i].helper == H_EXIT
  {
    RunKeeps(c, states, actions, i);
    FlagExactly(c, states, actions, i);
    HelperExactly(c, states, actions, i);
    if HelperDeath !in actions[..i] {
      HelperFinishes(c, states, actions, i);
    }
  }

  // ---------------------------------------------------------------- progress

  /** No process can take a step, whatever the kernel decides; only deaths are left. */
  ghost predicate Stuck(c: Config, s: State) {
    && (forall choice :: Next(c, s, Parent(choice)).None?)
    && Next(c, s, Child).None? && Next(c, s, Helper).None?
  }

  /** The parent waits for a report that nobody is left to make, and the child, if it lives, waits for the parent. */
  ghost predicate ReportLost(s: State) {
    || (s.parent == P_WAIT_START && !s.childAlive && s.child <= C_WAKE)
    || (s.parent == P_AUX_WAIT && !s.helperAlive && s.helper <= H_WAKE && (!s.childAlive || s.child == C_WAIT))
  }

  lemma {:induction false} StuckByInv(c: Config, s: State)
    requires Inv(c, s) && s.parentAlive && s.parent != P_DONE
    ensures Stuck(c, s) <==> ReportLost(s)
    ensures ReportLost(s) || Next(c, s, Parent(Go)).Some? || Next(c, s, Child).Some? || Next(c, s, Helper).Some?
  {
    if !ReportLost(s) && Next(c, s, Parent(Go)).None? {
      assert Next(c, s, Child).Some? || Next(c, s, Helper).Some?;
    }
  }

  /** Exactly when a run comes to a standstill before the parent is done: a child, or a console helper, has died
      before its report. Every other death, at whatever step, leaves somebody who can go on. */
  lemma {:induction false} StuckExactly(c: Config, states: seq<State>, actions: seq<Action>, i: nat)
    requires Run(c, states, actions) && i < |states| && states[i].parentAlive && states[i].parent != P_DONE
    ensures Stuck(c, states[i]) <==> ReportLost(states[i])
  {
    RunKeeps(c, states, actions, i);
    StuckByInv(c, states[i]);
  }

  /** A child that dies right after it was cloned leads to a standstill, whatever the options. */
  lemma {:induction false} ChildLost(c: Config) returns (states: seq<State>, actions: seq<Action>)
    ensures Run(c, states, actions) && |states| == 4
    ensures states[3].parentAlive && ReportLost(states[3]) && Stuck(c, states[3])
  {
    var s0 := Init(c);
    var s1 := Next(c, s0, Parent(Go)).value;
    var s2 := Next(c, s1, Parent(Go)).value;
    var s3 := Next(c, s2, ChildDeath).value;
    states, actions := [s0, s1, s2, s3], [Parent(Go), Parent(Go), ChildDeath];
    StuckExactly(c, states, actions, 3);
  }

  /** The run up to the fork of the console helper. */
  lemma {:induction false} UpToFork(c: Config) returns (states: seq<State>, actions: seq<Action>)
    requires c.newUser && c.chroot
    ensures Run(c, states, actions) && |states| == 9
    ensures var s := states[8];
            && s.parentAlive && s.childAlive && s.helperAlive
            && s.parent == P_AUX_WAIT && s.child == C_WAIT && s.helper == H_UNSHARE
  {
    var s0 := Init(c);
    var s1 := Next(c, s0, Parent(Go)).value;
    var s2 := Next(c, s1, Parent(Go)).value;
    var s3 := Next(c, s2, Child).value;
    var s4 := Next(c, s3, Child).value;
    var s5 := Next(c, s4, Parent(Go)).value;
    var s6 := Next(c, s5, Parent(Go)).value;
    var s7 := Next(c, s6, Parent(Go)).value;
    var s8 := Next(c, s7, Parent(Go)).value;
    states := [s0, s1, s2, s3, s4, s5, s6, s7, s8];
    actions := [Parent(Go), Parent(Go), Child, Child, Parent(Go), Parent(Go), Parent(Go), Parent(Go)];
  }

  /** So does a console helper that dies right after it was forked. */
  lemma {:induction false} HelperLost(c: Config) returns (states: seq<State>, actions: seq<Action>)
    requires c.newUser && c.chroot
    ensures Run(c, states, actions) && |states| == 10
    ensures states[9].parentAlive && ReportLost(states[9]) && Stuck(c, states[9])
  {
    states, actions := UpToFork(c);
    var s := Next(c, states[8], HelperDeath).value;
    states, actions := states + [s], actions + [HelperDeath];
    StuckExactly(c, states, actions, 9);
  }

  /** Nobody has died of anything but old age: the child is killed by the parent, the helper exits. */
  ghost predicate NoFailure(s: State) {
    s.parentAlive && (s.child == C_NONE || s.childAlive || s.parent >= P_WAIT_ID) &&
    (s.helper == H_NONE || s.helper == H_EXIT || s.helperAlive)
  }

  /** Without failures somebody can always move until the parent is done: there is no deadlock. */
  lemma {:induction false} NoDeadlock(c: Config, states: seq<State>, actions: seq<Action>, i: nat)
    requires Run(c, states, actions) && i < |states| && NoFailure(states[i]) && states[i].parent != P_DONE
    ensures !Stuck(c, states[i])
    ensures Next(c, states[i], Parent(Go)).Some? || Next(c, states[i], Child).Some? || Next(c, states[i], Helper).Some?
  {
    RunKeeps(c, states, actions, i);
    StuckByInv(c, states[i]);
  }

  /** What is left to do. */
  ghost function Measure(c: Config, s: State): int {
    (20 - s.parent) + (5 - s.child) + (6 - s.helper)
    + (c.cgroups - s.cgroups) + (c.netifs - s.netifs) + (2 - s.maps) + (2 - s.helperMaps)
    + (if s.parentAlive then 1 else 0) + (if s.child == C_NONE || s.childAlive then 1 else 0)
    + (if s.helper == H_NONE || s.helperAlive then 1 else 0)
  }

  lemma {:induction false} ConsoleShrinks(c: Config, s: State, choice: Choice, s': State)
    requires Inv(c, s) && s.parentAlive && P_CONSOLE <= s.parent <= P_WAIT_PID && ConsoleNext(c, s, choice) == Some(s')
    ensures Measure(c, s) > Measure(c, s')
  {}

  lemma {:induction false} FinishShrinks(c: Config, s: State, s': State)
    requires Inv(c, s) && s.parentAlive && P_CGROUP <= s.parent && ParentFinish(c, s) == Some(s')
    ensures Measure(c, s) > Measure(c, s')
  {
    if s.parent == P_WAKE { assert MainZeroOpen(s); }
  }

  lemma {:induction false} StartShrinks(c: Config, s: State, choice: Choice)
    requires Inv(c, s) && s.parentAlive && s.parent <= P_WAIT_START && ParentStart(s, choice).Some?
    ensures Measure(c, s) > Measure(c, ParentStart(s, choice).value)
  {}

  lemma {:induction false} ChildShrinks(c: Config, s: State)
    requires Inv(c, s) && s.childAlive && ChildNext(s).Some?
    ensures Measure(c, s) > Measure(c, ChildNext(s).value)
  {}

  lemma {:induction false} HelperShrinks(c: Config, s: State, s': State)
    requires Inv(c, s) && s.helperAlive && HelperNext(s) == Some(s')
    ensures Measure(c, s) > Measure(c, s')
  {}

  lemma {:induction false} StepShrinks(c: Config, s: State, a: Action)
    requires Inv(c, s) && Next(c, s, a).Some?
    ensures Measure(c, s) > Measure(c, Next(c, s, a).value)
  {
    var s' := Next(c, s, a).value;
    match a {
      case Parent(choice) =>
        if s.parent <= P_WAIT_START {
          StartShrinks(c, s, choice);
        } else if s.parent <= P_WAIT_PID {
          ConsoleShrinks(c, s, choice, s');
        } else {
          FinishShrinks(c, s, s');
        }
      case Child => ChildShrinks(c, s);
      case Helper => HelperShrinks(c, s, s');
      case _ =>
    }
  }

  lemma {:induction false} MeasureBounds(c: Config, s: State)
    requires Inv(c, s)
    ensures 0 <= Measure(c, s)
  {}

  lemma {:induction false} MeasureAfter(c: Config, states: seq<State>, actions: seq<Action>, i: nat)
    requires Run(c, states, actions) && i < |states|
    ensures Measure(c, states[i]) <= 38 + c.cgroups + c.netifs - i
  {
    var p := (k: int, s: State) => Inv(c, s) && Measure(c, s) <= 38 + c.cgroups + c.netifs - k;
    InitInv(c);
    forall k: int, s, a, s' | p(k, s) && Steps(c, s, a, s') ensures p(k + 1, s') {
      InvAfter(c, s, a, s');
      StepShrinks(c, s, a);
    }
    Onward(c, states, actions, 0, i, p);
  }

  /** Every run is finite: it has at most as many steps as there is to do at its start. */
  lemma {:induction false} RunsAreBounded(c: Config, states: seq<State>, actions: seq<Action>)
    requires Run(c, states, actions)
    ensures |actions| <= 38 + c.cgroups + c.netifs
  {
    var i := |actions|;
    RunKeeps(c, states, actions, i);
    MeasureAfter(c, states, actions, i);
    MeasureBounds(c, states[i]);
  }
}
