// The debug TCP bridge: the accept thread and any number of driver threads over the driver mutex,
// the socket mutex and one client descriptor, under every interleaving.
module DebugBridge {

  datatype Owner = Nobody | AcceptThread | DriverThread(id: nat)

  // Program points of the accept loop, each before its next atomic step.
  datatype AcceptPc =
    | Accepting | Configuring | Rejecting
    | LockingSocketToStore | Storing | UnlockingSocketStored
    | LockingDriverToEnable | Enabling | UnlockingDriverEnabled
    | Reading | Feeding
    | LockingDriverToDisable | Disabling | UnlockingDriverDisabled
    | LockingSocketToClear | Clearing | UnlockingSocketCleared
    | Closing

  // Program points of a driver thread: RawDataOutput with the bridge's callback inside it,
  // IsRawMode, and SetRawDataCallback.
  datatype DriverPc =
    | Outside
    | OutputLock | OutputTest | CallbackLock | CallbackTest | CallbackWrite | CallbackUnlock | OutputUnlock
    | QueryLock | QueryCopy | QueryUnlock
    | SetLock | SetStore | SetUnlock

  // What the threads do, in order. Events of the accept thread carry its session's descriptor.
  datatype Event =
    | Accepted(fd: int)
    | Tuned(fd: int, ok: bool)       // setsockopt succeeded or failed
    | RawMode(fd: int, on: bool)     // SetRawAccessMode
    | Read(fd: int, count: int)
    | Fed(fd: int, count: int)       // RawDataInput
    | Closed(fd: int)
    | Wrote(fd: int, who: Owner)
    | Asked(who: Owner, answer: bool) // IsRawMode
    | Set(who: Owner)                // SetRawDataCallback

  datatype State = State(
    driverMutex: Owner,
    socketMutex: Owner,
    accept: AcceptPc,
    incoming: int,
    current: int,                // current_client_socket_
    received: int,               // bytes_received
    raw: bool,                   // is_raw_mode_
    callback: bool,              // a raw data callback is set
    threads: map<nat, DriverPc>,
    log: seq<Event>)

  // The accept thread moves on a result of the call it is in (a descriptor, an error or a byte
  // count); a driver thread chooses what to call next when it is outside.
  datatype Action = Accept(result: int) | Drive(id: nat, choice: DriverPc)

  function Init(ids: set<nat>): State {
    State(Nobody, Nobody, Accepting, -1, -1, 0, false, false, map t | t in ids :: Outside, [])
  }

  // Descriptors accepted and not closed after a history.
  function OpenAfter(log: seq<Event>): set<int>
    decreases |log|
  {
    if log == [] then {} else Note(OpenAfter(log[..|log| - 1]), log[|log| - 1])
  }

  function Note(open: set<int>, e: Event): set<int> {
    match e
    case Accepted(fd) => open + {fd}
    case Closed(fd) => open - {fd}
    case _ => open
  }

  // The raw mode after a history.
  function RawAfter(log: seq<Event>): bool
    decreases |log|
  {
    if log == [] then false
    else var e := log[|log| - 1]; if e.RawMode? then e.on else RawAfter(log[..|log| - 1])
  }

  // A thread's own events.
  function By(e: Event): Owner {
    match e
    case Wrote(_, who) => who
    case Asked(who, _) => who
    case Set(who) => who
    case _ => AcceptThread
  }

  function Own(log: seq<Event>, who: Owner): seq<Event>
    decreases |log|
  {
    if log == [] then []
    else
      var e := log[|log| - 1];
      Own(log[..|log| - 1], who) + if By(e) == who then [e] else []
  }

  // What one atomic step does to the shared state.
  datatype Effect =
    | Nothing
    | LockSocket | UnlockSocket | LockDriver | UnlockDriver
    | OpenClient | CloseClient      // a successful accept; close
    | TuneClient | ReadClient       // setsockopt; read
    | FeedDriver                    // RawDataInput
    | StoreClient | ClearClient     // current_client_socket_ := incoming, := -1
    | EnableRaw | DisableRaw        // is_raw_mode_ := true, := false
    | WriteClient                   // write to current_client_socket_
    | CopyRaw                       // copy is_raw_mode_ for the caller
    | StoreCallback                 // raw_data_callback_ := a callback

  // The accept loop, step by step. `result` is what accept, setsockopt or read returned.
  function AcceptEffect(pc: AcceptPc, result: int): Effect {
    match pc
    case Accepting => if result < 0 then Nothing else OpenClient
    case Configuring => TuneClient
    case Rejecting => CloseClient
    case LockingSocketToStore => LockSocket
    case Storing => StoreClient
    case UnlockingSocketStored => UnlockSocket
    case LockingDriverToEnable => LockDriver
    case Enabling => EnableRaw
    case UnlockingDriverEnabled => UnlockDriver
    case Reading => ReadClient
    case Feeding => FeedDriver
    case LockingDriverToDisable => LockDriver
    case Disabling => DisableRaw
    case UnlockingDriverDisabled => UnlockDriver
    case LockingSocketToClear => LockSocket
    case Clearing => ClearClient
    case UnlockingSocketCleared => UnlockSocket
    case Closing => CloseClient
  }

  function AcceptNext(pc: AcceptPc, result: int): AcceptPc {
    match pc
    case Accepting => if result < 0 then Accepting else Configuring
    case Configuring => if result < 0 then Rejecting else LockingSocketToStore
    case Rejecting => Accepting
    case LockingSocketToStore => Storing
    case Storing => UnlockingSocketStored
    case UnlockingSocketStored => LockingDriverToEnable
    case LockingDriverToEnable => Enabling
    case Enabling => UnlockingDriverEnabled
    case UnlockingDriverEnabled => Reading
    case Reading => if result > 0 then Feeding else LockingDriverToDisable
    case Feeding => Reading
    case LockingDriverToDisable => Disabling
    case Disabling => UnlockingDriverDisabled
    case UnlockingDriverDisabled => LockingSocketToClear
    case LockingSocketToClear => Clearing
    case Clearing => UnlockingSocketCleared
    case UnlockingSocketCleared => Closing
    case Closing => Accepting
  }

  // A driver thread, step by step. The tests read the shared state.
  function DriveEffect(pc: DriverPc): Effect {
    match pc
    case Outside => Nothing
    case OutputLock => LockDriver
    case OutputTest => Nothing
    case CallbackLock => LockSocket
    case CallbackTest => Nothing
    case CallbackWrite => WriteClient
    case CallbackUnlock => UnlockSocket
    case OutputUnlock => UnlockDriver
    case QueryLock => LockDriver
    case QueryCopy => CopyRaw
    case QueryUnlock => UnlockDriver
    case SetLock => LockDriver
    case SetStore => StoreCallback
    case SetUnlock => UnlockDriver
  }

  function DriveNext(pc: DriverPc, choice: DriverPc, callback: bool, current: int): DriverPc {
    match pc
    case Outside => choice
    case OutputLock => OutputTest
    case OutputTest => if callback then CallbackLock else OutputUnlock
    case CallbackLock => CallbackTest
    case CallbackTest => if current >= 0 then CallbackWrite else CallbackUnlock
    case CallbackWrite => CallbackUnlock
    case CallbackUnlock => OutputUnlock
    case OutputUnlock => Outside
    case QueryLock => QueryCopy
    case QueryCopy => QueryUnlock
    case QueryUnlock => Outside
    case SetLock => SetStore
    case SetStore => SetUnlock
    case SetUnlock => Outside
  }

  // Locking waits for the mutex; everything else can always be done.
  predicate Possible(s: State, e: Effect) {
    (e.LockSocket? ==> s.socketMutex == Nobody) && (e.LockDriver? ==> s.driverMutex == Nobody)
  }

  function Change(s: State, who: Owner, e: Effect, result: int): State {
    match e
    case LockSocket => s.(socketMutex := who)
    case UnlockSocket => s.(socketMutex := Nobody)
    case LockDriver => s.(driverMutex := who)
    case UnlockDriver => s.(driverMutex := Nobody)
    case OpenClient => s.(incoming := result)
    case StoreClient => s.(current := s.incoming)
    case ClearClient => s.(current := -1)
    case EnableRaw => s.(raw := true)
    case DisableRaw => s.(raw := false)
    case ReadClient => s.(received := result)
    case StoreCallback => s.(callback := true)
    case _ => s
  }

  function Events(s: State, who: Owner, e: Effect, result: int): seq<Event> {
    match e
    case OpenClient => [Accepted(result)]
    case TuneClient => [Tuned(s.incoming, result >= 0)]
    case CloseClient => [Closed(s.incoming)]
    case EnableRaw => [RawMode(s.incoming, true)]
    case DisableRaw => [RawMode(s.incoming, false)]
    case ReadClient => [Read(s.current, result)]
    case FeedDriver => [Fed(s.incoming, s.received)]
    case WriteClient => [Wrote(s.current, who)]
    case CopyRaw => [Asked(who, s.raw)]
    case StoreCallback => [Set(who)]
    case _ => []
  }

  function Perform(s: State, who: Owner, e: Effect, result: int): State {
    Change(s, who, e, result).(log := s.log + Events(s, who, e, result))
  }

  predicate Enabled(s: State, a: Action) {
    match a
    case Accept(result) =>
      && Possible(s, AcceptEffect(s.accept, result))
      && (s.accept.Accepting? ==> result < 0 || result !in OpenAfter(s.log))
      && (s.accept.Reading? ==> result >= 0)
    case Drive(id, choice) =>
      && id in s.threads
      && Possible(s, DriveEffect(s.threads[id]))
      && (s.threads[id].Outside? ==> choice.OutputLock? || choice.QueryLock? || choice.SetLock?)
  }

  function AcceptStep(s: State, result: int): State {
    Perform(s, AcceptThread, AcceptEffect(s.accept, result), result).(accept := AcceptNext(s.accept, result))
  }

  function DriveStep(s: State, id: nat, choice: DriverPc): State
    requires id in s.threads
  {
    Perform(s, DriverThread(id), DriveEffect(s.threads[id]), 0).(
      threads := s.threads[id := DriveNext(s.threads[id], choice, s.callback, s.current)])
  }

  function Do(s: State, a: Action): State
    requires Enabled(s, a)
  {
    match a
    case Accept(result) => AcceptStep(s, result)
    case Drive(id, choice) => DriveStep(s, id, choice)
  }

  // ---- The invariant ----

  predicate AcceptHoldsSocket(pc: AcceptPc) {
    pc.Storing? || pc.UnlockingSocketStored? || pc.Clearing? || pc.UnlockingSocketCleared?
  }

  predicate AcceptHoldsDriver(pc: AcceptPc) {
    pc.Enabling? || pc.UnlockingDriverEnabled? || pc.Disabling? || pc.UnlockingDriverDisabled?
  }

  predicate HoldsSocket(pc: DriverPc) {
    pc.CallbackTest? || pc.CallbackWrite? || pc.CallbackUnlock?
  }

  predicate HoldsDriver(pc: DriverPc) {
    || HoldsSocket(pc) || pc.OutputTest? || pc.CallbackLock? || pc.OutputUnlock?
    || pc.QueryCopy? || pc.QueryUnlock? || pc.SetStore? || pc.SetUnlock?
  }

  // The accept thread owns an open descriptor.
  predicate InSession(pc: AcceptPc) {
    pc != Accepting
  }

  // The descriptor is published to the callback.
  predicate Published(pc: AcceptPc) {
    !(pc.Accepting? || pc.Configuring? || pc.Rejecting? || pc.LockingSocketToStore? || pc.Storing?
      || pc.UnlockingSocketCleared? || pc.Closing?)
  }

  predicate RawOn(pc: AcceptPc) {
    pc.UnlockingDriverEnabled? || pc.Reading? || pc.Feeding? || pc.LockingDriverToDisable? || pc.Disabling?
  }

  ghost predicate Mutexes(s: State) {
    && (s.socketMutex == AcceptThread <==> AcceptHoldsSocket(s.accept))
    && (s.driverMutex == AcceptThread <==> AcceptHoldsDriver(s.accept))
    && (forall id {:trigger s.threads[id]} :: id in s.threads ==>
         && (s.socketMutex == DriverThread(id) <==> HoldsSocket(s.threads[id]))
         && (s.driverMutex == DriverThread(id) <==> HoldsDriver(s.threads[id])))
    && (s.socketMutex.DriverThread? ==> s.socketMutex.id in s.threads)
    && (s.driverMutex.DriverThread? ==> s.driverMutex.id in s.threads)
  }

  ghost predicate Descriptors(s: State) {
    && OpenAfter(s.log) == (if InSession(s.accept) then {s.incoming} else {})
    && (InSession(s.accept) ==> s.incoming >= 0)
    && s.current == (if Published(s.accept) then s.incoming else -1)
    && s.raw == RawOn(s.accept)
    && (forall id :: id in s.threads && s.threads[id] == CallbackWrite ==> s.current >= 0)
    && (forall id :: id in s.threads && s.threads[id] == SetUnlock ==> s.callback)
  }

  // Every write in the history went to a descriptor that was open at that moment.
  ghost predicate WritesSafe(log: seq<Event>) {
    forall i :: 0 <= i < |log| && log[i].Wrote? ==> log[i].fd in OpenAfter(log[..i])
  }

  // Every answer of IsRawMode in the history was right at that moment.
  ghost predicate AnswersRight(log: seq<Event>) {
    forall i :: 0 <= i < |log| && log[i].Asked? ==> log[i].answer == RawAfter(log[..i])
  }

  // The accept thread's last event, at each of its program points.
  predicate LastEvent(own: seq<Event>, pc: AcceptPc, incoming: int, received: int) {
    if pc.Accepting? then own == [] || own[|own| - 1].Closed?
    else
      && own != []
      && var e := own[|own| - 1];
         match pc
         case Configuring => e == Accepted(incoming)
         case Rejecting => e == Tuned(incoming, false)
         case LockingSocketToStore | Storing | UnlockingSocketStored | LockingDriverToEnable | Enabling =>
           e == Tuned(incoming, true)
         case UnlockingDriverEnabled | Reading => e == RawMode(incoming, true) || (e.Fed? && e.fd == incoming)
         case Feeding => e == Read(incoming, received) && received > 0
         case LockingDriverToDisable | Disabling => e == Read(incoming, received) && received <= 0
         case _ => e == RawMode(incoming, false)
  }

  // Two successive events of the accept thread.
  predicate Succeeds(e: Event, next: Event) {
    match e
    case Accepted(fd) => next.Tuned? && next.fd == fd
    case Tuned(fd, ok) => next == if ok then RawMode(fd, true) else Closed(fd)
    case RawMode(fd, on) => if on then next.Read? && next.fd == fd else next == Closed(fd)
    case Read(fd, count) => next == if count > 0 then Fed(fd, count) else RawMode(fd, false)
    case Fed(fd, _) => next.Read? && next.fd == fd
    case Closed(_) => next.Accepted?
    case _ => false
  }

  ghost predicate InOrder(own: seq<Event>) {
    && (own != [] ==> own[0].Accepted?)
    && forall i :: 0 < i < |own| ==> Succeeds(own[i - 1], own[i])
  }

  ghost predicate Histories(s: State) {
    && s.raw == RawAfter(s.log) && AnswersRight(s.log)
    && InOrder(Own(s.log, AcceptThread))
    && LastEvent(Own(s.log, AcceptThread), s.accept, s.incoming, s.received)
  }

  ghost predicate Inv(s: State) {
    Mutexes(s) && Descriptors(s) && WritesSafe(s.log) && Histories(s)
  }

  // The folds of a history that a step makes longer.
  lemma Appended(log: seq<Event>, more: seq<Event>, who: Owner)
    requires |more| <= 1
    ensures more == [] ==> log + more == log
    ensures more != [] ==>
      var e := more[0];
      && log + more == log + [e]
      && OpenAfter(log + more) == Note(OpenAfter(log), e)
      && RawAfter(log + more) == (if e.RawMode? then e.on else RawAfter(log))
      && Own(log + more, who) == if By(e) == who then Own(log, who) + [e] else Own(log, who)
  {
    hide By, Note;
    if more != [] {
      assert (log + more)[..|log|] == log;
    }
  }

  lemma AnswersRightAppend(log: seq<Event>, e: Event)
    requires AnswersRight(log) && (e.Asked? ==> e.answer == RawAfter(log))
    ensures AnswersRight(log + [e])
  {
    var log' := log + [e];
    forall i | 0 <= i < |log'| && log'[i].Asked? ensures log'[i].answer == RawAfter(log'[..i]) {
      assert log'[..i] == log[..i];
      assert i == |log| ==> log[..i] == log;
    }
  }

  lemma InOrderAppend(own: seq<Event>, e: Event)
    requires InOrder(own)
    requires if own == [] then e.Accepted? else Succeeds(own[|own| - 1], e)
    ensures InOrder(own + [e])
  {
    hide Succeeds;
  }

  lemma WritesSafeAppend(log: seq<Event>, e: Event)
    requires WritesSafe(log) && (e.Wrote? ==> e.fd in OpenAfter(log))
    ensures WritesSafe(log + [e])
  {
    var log' := log + [e];
    forall i | 0 <= i < |log'| && log'[i].Wrote? ensures log'[i].fd in OpenAfter(log'[..i]) {
      assert log'[..i] == log[..i];
      assert i == |log| ==> log[..i] == log;
    }
  }

  // What a lock or unlock does to who holds what.
  predicate Follows(before: bool, after: bool, lock: bool, unlock: bool) {
    after == (lock || (before && !unlock)) && (lock ==> !before) && (unlock ==> before)
  }

  // An effect, field by field.
  lemma Fields(s: State, who: Owner, e: Effect, result: int)
    ensures var s' := Perform(s, who, e, result);
      && s'.accept == s.accept && s'.threads == s.threads
      && s'.callback == (e.StoreCallback? || s.callback)
      && s'.incoming == (if e.OpenClient? then result else s.incoming)
      && s'.current == (if e.StoreClient? then s.incoming else if e.ClearClient? then -1 else s.current)
      && s'.received == (if e.ReadClient? then result else s.received)
      && s'.raw == (if e.EnableRaw? then true else if e.DisableRaw? then false else s.raw)
      && s'.socketMutex == (if e.LockSocket? then who else if e.UnlockSocket? then Nobody else s.socketMutex)
      && s'.driverMutex == (if e.LockDriver? then who else if e.UnlockDriver? then Nobody else s.driverMutex)
  {
  }

  lemma OpenFields(s: State, who: Owner, e: Effect, result: int)
    ensures OpenAfter(Perform(s, who, e, result).log) ==
      if e.OpenClient? then OpenAfter(s.log) + {result}
      else if e.CloseClient? then OpenAfter(s.log) - {s.incoming} else OpenAfter(s.log)
  {
    var more := Events(s, who, e, result);
    PerformLog(s, who, e, result);
    Appended(s.log, more, AcceptThread);
    hide Perform, OpenAfter;
    if more != [] {
      assert Note(OpenAfter(s.log), more[0]) ==
        if e.OpenClient? then OpenAfter(s.log) + {result}
        else if e.CloseClient? then OpenAfter(s.log) - {s.incoming} else OpenAfter(s.log);
    }
  }

  // The event of an effect, and whose it is.
  lemma PerformLog(s: State, who: Owner, e: Effect, result: int)
    ensures var more := Events(s, who, e, result);
      && Perform(s, who, e, result).log == s.log + more && |more| <= 1
      && (more != [] ==>
          && By(more[0]) == (if e.WriteClient? || e.CopyRaw? || e.StoreCallback? then who else AcceptThread)
          && (more[0].RawMode? ==> e.EnableRaw? || e.DisableRaw?)
          && (more[0].Accepted? ==> e.OpenClient?) && (more[0].Closed? ==> e.CloseClient?))
      && (more == [] <==> e.Nothing? || e.LockSocket? || e.UnlockSocket? || e.LockDriver? || e.UnlockDriver?
                          || e.StoreClient? || e.ClearClient?)
  {
    hide Change;
  }

  lemma AcceptTable(pc: AcceptPc, result: int)
    ensures var e, pc' := AcceptEffect(pc, result), AcceptNext(pc, result);
      && Follows(AcceptHoldsSocket(pc), AcceptHoldsSocket(pc'), e.LockSocket?, e.UnlockSocket?)
      && Follows(AcceptHoldsDriver(pc), AcceptHoldsDriver(pc'), e.LockDriver?, e.UnlockDriver?)
      && Follows(InSession(pc), InSession(pc'), e.OpenClient?, e.CloseClient?)
      && Follows(Published(pc), Published(pc'), e.StoreClient?, e.ClearClient?)
      && Follows(RawOn(pc), RawOn(pc'), e.EnableRaw?, e.DisableRaw?)
      && (e.StoreClient? || e.ClearClient? ==> AcceptHoldsSocket(pc))
      && (Published(pc) ==> InSession(pc)) && (Published(pc') ==> InSession(pc'))
      && (e.OpenClient? ==> result >= 0 && pc.Accepting?)
      && !e.WriteClient? && !e.CopyRaw? && !e.StoreCallback?
  {
  }

  lemma DriveTable(pc: DriverPc, choice: DriverPc, callback: bool, current: int)
    requires pc.Outside? ==> choice.OutputLock? || choice.QueryLock? || choice.SetLock?
    ensures var e, pc' := DriveEffect(pc), DriveNext(pc, choice, callback, current);
      && Follows(HoldsSocket(pc), HoldsSocket(pc'), e.LockSocket?, e.UnlockSocket?)
      && Follows(HoldsDriver(pc), HoldsDriver(pc'), e.LockDriver?, e.UnlockDriver?)
      && (e.Nothing? || e.LockSocket? || e.UnlockSocket? || e.LockDriver? || e.UnlockDriver? || e.WriteClient?
          || e.CopyRaw? || e.StoreCallback?)
      && (e.WriteClient? <==> pc.CallbackWrite?)
      && (pc'.CallbackWrite? ==> current >= 0)
      && (pc'.SetUnlock? ==> e.StoreCallback?)
      && (e.StoreCallback? ==> HoldsDriver(pc))
  {
  }

  lemma AcceptMutexes(s: State, result: int)
    requires Mutexes(s) && Enabled(s, Accept(result))
    ensures Mutexes(AcceptStep(s, result))
  {
    hide AcceptEffect, AcceptNext, AcceptHoldsSocket, AcceptHoldsDriver, HoldsSocket, HoldsDriver, OpenAfter;
    hide InSession, Published, RawOn, Perform;
    AcceptTable(s.accept, result);
    Fields(s, AcceptThread, AcceptEffect(s.accept, result), result);
  }

  lemma AcceptDescriptors(s: State, result: int)
    requires Mutexes(s) && Descriptors(s) && Enabled(s, Accept(result))
    ensures Descriptors(AcceptStep(s, result))
  {
    AcceptTable(s.accept, result);
    Fields(s, AcceptThread, AcceptEffect(s.accept, result), result);
    OpenFields(s, AcceptThread, AcceptEffect(s.accept, result), result);
    hide AcceptEffect, AcceptNext, AcceptHoldsSocket, AcceptHoldsDriver, HoldsDriver, OpenAfter, Perform;
    hide InSession, Published, RawOn;
  }

  lemma AcceptWrites(s: State, result: int)
    requires Inv(s) && Enabled(s, Accept(result))
    ensures WritesSafe(AcceptStep(s, result).log)
  {
    AcceptTable(s.accept, result);
    hide AcceptEffect, AcceptNext, OpenAfter, WritesSafe, Mutexes, Histories;
    var more := Events(s, AcceptThread, AcceptEffect(s.accept, result), result);
    Appended(s.log, more, AcceptThread);
    if more != [] { WritesSafeAppend(s.log, more[0]); }
  }

  // The events that the accept thread's step adds.
  lemma AcceptHistories(s: State, result: int)
    requires Inv(s) && Enabled(s, Accept(result))
    ensures Histories(AcceptStep(s, result))
  {
    hide Mutexes, WritesSafe, AnswersRight, InOrder, OpenAfter, RawAfter, Own;
    var more := Events(s, AcceptThread, AcceptEffect(s.accept, result), result);
    Appended(s.log, more, AcceptThread);
    AcceptEvents(s, result);
    AcceptOrder(s, result);
    hide LastEvent, Succeeds, By, Events, AcceptEffect, AcceptNext;
    if more != [] {
      AnswersRightAppend(s.log, more[0]);
      InOrderAppend(Own(s.log, AcceptThread), more[0]);
    }
  }

  lemma AcceptEvents(s: State, result: int)
    requires Descriptors(s) && LastEvent(Own(s.log, AcceptThread), s.accept, s.incoming, s.received)
    requires Enabled(s, Accept(result))
    ensures var own, more := Own(s.log, AcceptThread), Events(s, AcceptThread, AcceptEffect(s.accept, result), result);
      var s' := AcceptStep(s, result);
      && |more| <= 1 && LastEvent(own + more, s'.accept, s'.incoming, s'.received)
      && (more != [] ==> By(more[0]) == AcceptThread && !more[0].Asked?)
      && s'.raw == (if more != [] && more[0].RawMode? then more[0].on else s.raw)
  {
    hide OpenAfter, RawAfter, Own;
  }

  lemma AcceptOrder(s: State, result: int)
    requires Descriptors(s) && LastEvent(Own(s.log, AcceptThread), s.accept, s.incoming, s.received)
    requires Enabled(s, Accept(result))
    ensures var own, more := Own(s.log, AcceptThread), Events(s, AcceptThread, AcceptEffect(s.accept, result), result);
      more != [] ==> if own == [] then more[0].Accepted? else Succeeds(own[|own| - 1], more[0])
  {
    hide OpenAfter, RawAfter, Own, AcceptStep;
  }

  lemma DriveMutexes(s: State, id: nat, choice: DriverPc)
    requires Mutexes(s) && Enabled(s, Drive(id, choice))
    ensures Mutexes(DriveStep(s, id, choice))
  {
    DriveTable(s.threads[id], choice, s.callback, s.current);
    Fields(s, DriverThread(id), DriveEffect(s.threads[id]), 0);
    hide DriveEffect, DriveNext, AcceptHoldsSocket, AcceptHoldsDriver, HoldsSocket, HoldsDriver, OpenAfter, Perform;
  }

  // A driver thread's step leaves the session alone.
  lemma DriveFrame(s: State, id: nat, choice: DriverPc)
    requires Enabled(s, Drive(id, choice))
    ensures var s' := DriveStep(s, id, choice);
      && s'.accept == s.accept && s'.incoming == s.incoming && s'.current == s.current && s'.raw == s.raw
      && s'.received == s.received && (s.callback ==> s'.callback)
      && OpenAfter(s'.log) == OpenAfter(s.log) && RawAfter(s'.log) == RawAfter(s.log)
      && Own(s'.log, AcceptThread) == Own(s.log, AcceptThread)
  {
    var e, who := DriveEffect(s.threads[id]), DriverThread(id);
    DriveTable(s.threads[id], choice, s.callback, s.current);
    Fields(s, who, e, 0);
    PerformLog(s, who, e, 0);
    Appended(s.log, Events(s, who, e, 0), AcceptThread);
    hide DriveEffect, DriveNext, HoldsSocket, HoldsDriver, Follows, OpenAfter, RawAfter, Own, By, Perform, Events;
  }

  lemma DriveDescriptors(s: State, id: nat, choice: DriverPc)
    requires Mutexes(s) && Descriptors(s) && Enabled(s, Drive(id, choice))
    ensures Descriptors(DriveStep(s, id, choice))
  {
    DriveTable(s.threads[id], choice, s.callback, s.current);
    Fields(s, DriverThread(id), DriveEffect(s.threads[id]), 0);
    OpenFields(s, DriverThread(id), DriveEffect(s.threads[id]), 0);
    hide DriveEffect, DriveNext, InSession, Published, RawOn, Mutexes, OpenAfter, HoldsSocket, HoldsDriver, Follows,
      Perform;
  }

  // The event that a driver thread's step adds.
  lemma DriveEvents(s: State, id: nat, choice: DriverPc)
    requires Descriptors(s) && Enabled(s, Drive(id, choice))
    ensures var more := Events(s, DriverThread(id), DriveEffect(s.threads[id]), 0);
      && |more| <= 1 && DriveStep(s, id, choice).log == s.log + more
      && (more != [] ==>
          && !more[0].RawMode? && (more[0].Asked? ==> more[0].answer == s.raw)
          && (more[0].Wrote? ==> more[0].fd in OpenAfter(s.log)))
  {
    hide DriveNext, OpenAfter;
  }

  lemma DriveWrites(s: State, id: nat, choice: DriverPc)
    requires Inv(s) && Enabled(s, Drive(id, choice))
    ensures WritesSafe(DriveStep(s, id, choice).log)
  {
    DriveEvents(s, id, choice);
    hide DriveEffect, DriveStep, Events, Mutexes, Descriptors, OpenAfter, WritesSafe, Histories;
    var more := Events(s, DriverThread(id), DriveEffect(s.threads[id]), 0);
    Appended(s.log, more, AcceptThread);
    if more != [] { WritesSafeAppend(s.log, more[0]); }
  }

  lemma DriveHistories(s: State, id: nat, choice: DriverPc)
    requires Descriptors(s) && Histories(s) && Enabled(s, Drive(id, choice))
    ensures Histories(DriveStep(s, id, choice))
  {
    DriveFrame(s, id, choice);
    DriveEvents(s, id, choice);
    hide DriveNext, DriveEffect, OpenAfter, RawAfter, Own, AnswersRight, InOrder, LastEvent, DriveStep, Events;
    var more := Events(s, DriverThread(id), DriveEffect(s.threads[id]), 0);
    Appended(s.log, more, AcceptThread);
    if more != [] { AnswersRightAppend(s.log, more[0]); }
  }

  lemma StepInv(s: State, a: Action)
    requires Inv(s) && Enabled(s, a)
    ensures Inv(Do(s, a))
  {
    hide Mutexes, Descriptors, WritesSafe, Histories, AcceptStep, DriveStep;
    match a
    case Accept(result) =>
      AcceptMutexes(s, result);
      AcceptDescriptors(s, result);
      AcceptWrites(s, result);
      AcceptHistories(s, result);
    case Drive(id, choice) =>
      DriveMutexes(s, id, choice);
      DriveDescriptors(s, id, choice);
      DriveWrites(s, id, choice);
      DriveHistories(s, id, choice);
  }

  // ---- Whole runs ----

  predicate Runs(s: State, actions: seq<Action>)
    decreases |actions|
  {
    actions == [] || (Enabled(s, actions[0]) && Runs(Do(s, actions[0]), actions[1..]))
  }

  // The state after the first k actions.
  function StateAt(s: State, actions: seq<Action>, k: nat): State
    requires Runs(s, actions) && k <= |actions|
    decreases k
  {
    if k == 0 then s else StateAt(Do(s, actions[0]), actions[1..], k - 1)
  }

  function After(s: State, actions: seq<Action>): State
    requires Runs(s, actions)
  {
    StateAt(s, actions, |actions|)
  }

  lemma {:induction false} StateNext(s: State, actions: seq<Action>, k: nat)
    requires Runs(s, actions) && k < |actions|
    ensures Enabled(StateAt(s, actions, k), actions[k])
    ensures StateAt(s, actions, k + 1) == Do(StateAt(s, actions, k), actions[k])
    decreases k
  {
    hide Do, Enabled;
    if k > 0 {
      StateNext(Do(s, actions[0]), actions[1..], k - 1);
    }
  }

  lemma InitInv(ids: set<nat>)
    ensures Inv(Init(ids))
  {
  }

  lemma {:induction false} RunInv(s: State, actions: seq<Action>, k: nat)
    requires Inv(s) && Runs(s, actions) && k <= |actions|
    ensures Inv(StateAt(s, actions, k))
    decreases k
  {
    hide Inv, Do, Enabled;
    if k > 0 {
      RunInv(s, actions, k - 1);
      StateNext(s, actions, k - 1);
      StepInv(StateAt(s, actions, k - 1), actions[k - 1]);
    }
  }

  // Over every run: each callback write went to a descriptor accepted and not yet closed; a client's
  // bytes are read only in raw mode, from the session's own open descriptor, which the callback can
  // use then; and between sessions raw mode is off and the callback has no descriptor.
  lemma BridgeSafe(ids: set<nat>, actions: seq<Action>)
    requires Runs(Init(ids), actions)
    ensures var s := After(Init(ids), actions);
      && WritesSafe(s.log)
      && (forall id :: id in s.threads && s.threads[id] == CallbackWrite ==> s.current in OpenAfter(s.log))
      && (s.raw ==> s.current >= 0 && s.current == s.incoming && s.current in OpenAfter(s.log))
      && (s.accept == Reading || s.accept == Feeding ==>
          s.raw && s.current == s.incoming && OpenAfter(s.log) == {s.incoming})
      && (s.accept == Configuring || s.accept == Rejecting || s.accept == Closing ==>
          !s.raw && s.current == -1 && OpenAfter(s.log) == {s.incoming})
      && (s.accept == Accepting ==> !s.raw && s.current == -1 && OpenAfter(s.log) == {})
  {
    InitInv(ids);
    RunInv(Init(ids), actions, |actions|);
  }

  // Over every run the accept thread's events form sessions: a descriptor is accepted, tuned, and
  // closed if that failed; else raw mode goes on, every read of n > 0 bytes is followed by feeding
  // exactly n bytes to the driver and then the next read, an empty read by raw mode off and close.
  // And every answer of IsRawMode was right when it was copied.
  lemma SessionsInOrder(ids: set<nat>, actions: seq<Action>)
    requires Runs(Init(ids), actions)
    ensures InOrder(Own(After(Init(ids), actions).log, AcceptThread))
    ensures AnswersRight(After(Init(ids), actions).log)
  {
    InitInv(ids);
    RunInv(Init(ids), actions, |actions|);
  }

  function Mover(a: Action): Owner {
    match a
    case Accept(_) => AcceptThread
    case Drive(id, _) => DriverThread(id)
  }

  // ---- Whole calls of a driver thread ----

  function PcOf(s: State, id: nat): DriverPc {
    if id in s.threads then s.threads[id] else Outside
  }

  function PcAt(s: State, actions: seq<Action>, id: nat, k: nat): DriverPc
    requires Runs(s, actions) && k <= |actions|
  {
    PcOf(StateAt(s, actions, k), id)
  }

  function OwnAt(s: State, actions: seq<Action>, id: nat, k: nat): seq<Event>
    requires Runs(s, actions) && k <= |actions|
  {
    Own(StateAt(s, actions, k).log, DriverThread(id))
  }

  // From step a, where the thread is about to begin a call, to its return at step b.
  predicate IsCall(s: State, actions: seq<Action>, id: nat, a: nat, b: nat)
    requires Runs(s, actions)
  {
    && a < b <= |actions| && PcAt(s, actions, id, b) == Outside
    && forall k :: a <= k < b ==> PcAt(s, actions, id, k) != Outside
  }

  // The call has not yet left an event, nor has its step.
  predicate Early(pc: DriverPc) {
    pc.OutputLock? || pc.OutputTest? || pc.CallbackLock? || pc.CallbackTest?
    || pc.QueryLock? || pc.QueryCopy? || pc.SetLock? || pc.SetStore?
  }

  // What the rest of the call does is settled, since the thread holds what it depends on.
  predicate Settled(pc: DriverPc, callback: bool) {
    || HoldsSocket(pc) || pc.OutputUnlock? || pc.QueryCopy? || pc.QueryUnlock? || pc.SetStore? || pc.SetUnlock?
    || (pc.OutputTest? && !callback)
  }

  predicate Decided(s: State, id: nat) {
    Settled(PcOf(s, id), s.callback)
  }

  // The event of the thread's next step.
  function Left(pc: DriverPc, current: int, raw: bool, who: Owner): seq<Event> {
    match pc
    case CallbackWrite => [Wrote(current, who)]
    case QueryCopy => [Asked(who, raw)]
    case SetStore => [Set(who)]
    case _ => []
  }

  // The events that a settled call still leaves.
  function Due(pc: DriverPc, current: int, raw: bool, who: Owner): seq<Event> {
    match pc
    case CallbackTest => if current >= 0 then [Wrote(current, who)] else []
    case _ => Left(pc, current, raw, who)
  }

  function Owed(s: State, id: nat): seq<Event> {
    Due(PcOf(s, id), s.current, s.raw, DriverThread(id))
  }

  lemma CallTable(pc: DriverPc, choice: DriverPc, callback: bool, current: int, raw: bool, who: Owner)
    ensures var pc', left := DriveNext(pc, choice, callback, current), Left(pc, current, raw, who);
      && (Settled(pc, callback) ==>
          && (pc'.Outside? || Settled(pc', callback))
          && ((left == [] && Due(pc', current, raw, who) == Due(pc, current, raw, who))
              || (left == Due(pc, current, raw, who) && Due(pc', current, raw, who) == [])))
      && (Early(pc') && !pc.Outside? ==> Early(pc) && left == [])
      && (pc.SetStore? ==> pc'.SetUnlock?)
  {
  }

  // Another thread's step changes nothing that a settled call depends on.
  lemma OthersStep(s: State, a: Action, id: nat)
    requires Inv(s) && Enabled(s, a) && id in s.threads && Mover(a) != DriverThread(id)
    ensures var s' := Do(s, a);
      && id in s'.threads && s'.threads[id] == s.threads[id]
      && Own(s'.log, DriverThread(id)) == Own(s.log, DriverThread(id))
      && (Decided(s, id) ==> Decided(s', id) && Owed(s', id) == Owed(s, id))
  {
    match a
    case Accept(result) => AcceptOther(s, result, id);
    case Drive(other, choice) => DriveOther(s, other, choice, id);
  }

  lemma AcceptOther(s: State, result: int, id: nat)
    requires Mutexes(s) && Enabled(s, Accept(result)) && id in s.threads
    ensures var s' := AcceptStep(s, result);
      && s'.threads == s.threads && s'.callback == s.callback
      && Own(s'.log, DriverThread(id)) == Own(s.log, DriverThread(id))
      && (HoldsSocket(s.threads[id]) ==> s'.current == s.current)
      && (HoldsDriver(s.threads[id]) ==> s'.raw == s.raw)
  {
    var e := AcceptEffect(s.accept, result);
    AcceptTable(s.accept, result);
    Fields(s, AcceptThread, e, result);
    PerformLog(s, AcceptThread, e, result);
    Appended(s.log, Events(s, AcceptThread, e, result), DriverThread(id));
    AcceptHolds(s.accept, result);
    hide OpenAfter, RawAfter, Own, By, AcceptEffect, AcceptNext, Perform, Events, HoldsSocket, HoldsDriver,
      AcceptHoldsSocket, AcceptHoldsDriver;
  }

  lemma AcceptHolds(pc: AcceptPc, result: int)
    ensures var e := AcceptEffect(pc, result);
      && (e.StoreClient? || e.ClearClient? ==> AcceptHoldsSocket(pc))
      && (e.EnableRaw? || e.DisableRaw? ==> AcceptHoldsDriver(pc))
  {
  }

  lemma DriveOther(s: State, other: nat, choice: DriverPc, id: nat)
    requires Mutexes(s) && Enabled(s, Drive(other, choice)) && id in s.threads && other != id
    ensures var s' := DriveStep(s, other, choice);
      && id in s'.threads && s'.threads[id] == s.threads[id] && s'.current == s.current && s'.raw == s.raw
      && Own(s'.log, DriverThread(id)) == Own(s.log, DriverThread(id))
      && (HoldsDriver(s.threads[id]) ==> s'.callback == s.callback)
  {
    var e, who := DriveEffect(s.threads[other]), DriverThread(other);
    DriveTable(s.threads[other], choice, s.callback, s.current);
    Fields(s, who, e, 0);
    PerformLog(s, who, e, 0);
    Appended(s.log, Events(s, who, e, 0), DriverThread(id));
    hide OpenAfter, RawAfter, Own, By, DriveEffect, DriveNext, Perform, Events, HoldsSocket, HoldsDriver,
      AcceptHoldsSocket, AcceptHoldsDriver;
  }

  // A thread's own step in a call.
  lemma OwnStep(s: State, id: nat, choice: DriverPc)
    requires Enabled(s, Drive(id, choice))
    ensures var s', who := DriveStep(s, id, choice), DriverThread(id);
      && PcOf(s', id) == DriveNext(s.threads[id], choice, s.callback, s.current)
      && Own(s'.log, who) == Own(s.log, who) + Left(s.threads[id], s.current, s.raw, who)
      && s'.current == s.current && s'.raw == s.raw && (s'.callback == s.callback || s.threads[id].SetStore?)
  {
    var e, who := DriveEffect(s.threads[id]), DriverThread(id);
    DriveTable(s.threads[id], choice, s.callback, s.current);
    Fields(s, who, e, 0);
    PerformLog(s, who, e, 0);
    DriveEvent(s, s.threads[id], who);
    Appended(s.log, Events(s, who, e, 0), who);
    hide OpenAfter, RawAfter, Own, By, DriveNext, DriveEffect, Perform, Events, Left, HoldsSocket, HoldsDriver, Follows;
  }

  lemma DriveEvent(s: State, pc: DriverPc, who: Owner)
    ensures Events(s, who, DriveEffect(pc), 0) == Left(pc, s.current, s.raw, who)
    ensures DriveEffect(pc).StoreCallback? ==> pc.SetStore?
    ensures var more := Events(s, who, DriveEffect(pc), 0); more != [] ==> By(more[0]) == who
  {
  }

  lemma SettledMove(s: State, a: Action, id: nat)
    requires Inv(s) && Enabled(s, a) && Decided(s, id)
    ensures PcOf(Do(s, a), id).Outside? || Decided(Do(s, a), id)
    ensures Own(Do(s, a).log, DriverThread(id)) + Owed(Do(s, a), id) == Own(s.log, DriverThread(id)) + Owed(s, id)
  {
    hide Inv, DriveStep, AcceptStep, Own, DriveNext, Left, Due;
    if Mover(a) == DriverThread(id) {
      OwnStep(s, id, a.choice);
      CallTable(s.threads[id], a.choice, s.callback, s.current, s.raw, DriverThread(id));
      Unit(Own(s.log, DriverThread(id)));
      Unit(Own(s.log, DriverThread(id)) + Owed(s, id));
    } else {
      OthersStep(s, a, id);
    }
  }

  lemma Unit<T>(a: seq<T>)
    ensures a + [] == a
  {
  }

  lemma EarlyMove(s: State, a: Action, id: nat)
    requires Inv(s) && Enabled(s, a) && PcOf(s, id) != Outside && Early(PcOf(Do(s, a), id))
    ensures Early(PcOf(s, id)) && Own(Do(s, a).log, DriverThread(id)) == Own(s.log, DriverThread(id))
  {
    hide Inv, DriveStep, AcceptStep, Own, Early, DriveNext, Left, Due;
    if Mover(a) == DriverThread(id) {
      OwnStep(s, id, a.choice);
      CallTable(s.threads[id], a.choice, s.callback, s.current, s.raw, DriverThread(id));
      Unit(Own(s.log, DriverThread(id)));
    } else {
      OthersStep(s, a, id);
    }
  }

  // Along a run: an early call has left nothing yet, and a settled one leaves what it owes.
  lemma {:induction false} NothingYet(s: State, actions: seq<Action>, id: nat, a: nat, b: nat, k: nat)
    requires Inv(s) && Runs(s, actions) && IsCall(s, actions, id, a, b)
    requires a <= k < b && Early(PcAt(s, actions, id, k))
    ensures OwnAt(s, actions, id, k) == OwnAt(s, actions, id, a)
    decreases k
  {
    hide Inv, Do, Enabled, Runs, StateAt, Early, Own;
    if k > a {
      assert PcAt(s, actions, id, k - 1) != Outside;
      RunInv(s, actions, k - 1);
      StateNext(s, actions, k - 1);
      EarlyMove(StateAt(s, actions, k - 1), actions[k - 1], id);
      NothingYet(s, actions, id, a, b, k - 1);
    }
  }

  lemma {:induction false} LeavesOwed(s: State, actions: seq<Action>, id: nat, a: nat, b: nat, j: nat, k: nat)
    requires Inv(s) && Runs(s, actions) && IsCall(s, actions, id, a, b)
    requires a <= j <= k <= b && j < b && Decided(StateAt(s, actions, j), id)
    ensures k < b ==> Decided(StateAt(s, actions, k), id)
    ensures OwnAt(s, actions, id, k) + Owed(StateAt(s, actions, k), id) ==
            OwnAt(s, actions, id, j) + Owed(StateAt(s, actions, j), id)
    decreases k
  {
    hide Inv, Do, Enabled, Runs, StateAt, Own, Owed, Decided;
    if k > j {
      LeavesOwed(s, actions, id, a, b, j, k - 1);
      RunInv(s, actions, k - 1);
      StateNext(s, actions, k - 1);
      SettledMove(StateAt(s, actions, k - 1), actions[k - 1], id);
      assert k < b ==> PcAt(s, actions, id, k) != Outside;
    }
  }

  // A call that is settled at step j, having left nothing before, leaves what it owes there.
  lemma CallLeaves(s: State, actions: seq<Action>, id: nat, a: nat, b: nat, j: nat)
    requires Inv(s) && Runs(s, actions) && IsCall(s, actions, id, a, b)
    requires a <= j < b && Early(PcAt(s, actions, id, j)) && Decided(StateAt(s, actions, j), id)
    ensures OwnAt(s, actions, id, b) == OwnAt(s, actions, id, a) + Owed(StateAt(s, actions, j), id)
  {
    hide Inv, Runs, StateAt, Own, Decided, Early;
    NothingYet(s, actions, id, a, b, j);
    LeavesOwed(s, actions, id, a, b, j, b);
    assert PcAt(s, actions, id, b) == Outside;
    assert OwnAt(s, actions, id, b) + [] == OwnAt(s, actions, id, b);
  }

  // The thread gets past a lock or a store, and from the test of a set callback to that callback's own lock.
  predicate LeadsTo(s: State, id: nat, target: DriverPc) {
    match PcOf(s, id)
    case OutputLock => target == OutputTest
    case OutputTest => s.callback && target == CallbackTest
    case CallbackLock => target == CallbackTest
    case QueryLock => target == QueryCopy
    case SetLock => target == SetStore
    case SetStore => target == SetUnlock
    case _ => false
  }

  lemma LeadsMove(s: State, a: Action, id: nat, target: DriverPc)
    requires Inv(s) && Enabled(s, a) && LeadsTo(s, id, target)
    ensures PcOf(Do(s, a), id) == target || LeadsTo(Do(s, a), id, target)
  {
    hide Inv, Own;
    if Mover(a) == DriverThread(id) {
      OwnStep(s, id, a.choice);
      hide DriveStep, AcceptStep;
    } else {
      OthersStep(s, a, id);
      CallbackStays(s, a);
      hide DriveStep, AcceptStep;
    }
  }

  lemma CallbackStays(s: State, a: Action)
    requires Enabled(s, a)
    ensures s.callback ==> Do(s, a).callback
  {
    match a
    case Accept(result) =>
      Fields(s, AcceptThread, AcceptEffect(s.accept, result), result);
      hide AcceptEffect, Perform;
    case Drive(id, choice) =>
      Fields(s, DriverThread(id), DriveEffect(s.threads[id]), 0);
      hide DriveEffect, DriveNext, Perform;
  }

  lemma {:induction false} Reaches(s: State, actions: seq<Action>, id: nat, a: nat, b: nat, k: nat, target: DriverPc)
      returns (i: nat)
    requires Inv(s) && Runs(s, actions) && IsCall(s, actions, id, a, b)
    requires a <= k < b && LeadsTo(StateAt(s, actions, k), id, target)
    ensures k < i < b && PcAt(s, actions, id, i) == target
    decreases b - k
  {
    hide Inv, Do, Enabled, Runs, StateAt;
    RunInv(s, actions, k);
    StateNext(s, actions, k);
    LeadsMove(StateAt(s, actions, k), actions[k], id, target);
    if PcAt(s, actions, id, k + 1) == target {
      i := k + 1;
    } else {
      assert PcAt(s, actions, id, b) == Outside;
      i := Reaches(s, actions, id, a, b, k + 1, target);
    }
  }

  // One call of RawDataOutput, over every run: it gets to its test of the callback; if none is set
  // it writes nothing; if one is, it gets to the callback's test of the descriptor, and writes
  // exactly once, to the descriptor found there, which is open, or not at all if there is none.
  lemma OutputCall(ids: set<nat>, actions: seq<Action>, id: nat, a: nat, b: nat)
    requires Runs(Init(ids), actions) && IsCall(Init(ids), actions, id, a, b)
    requires PcAt(Init(ids), actions, id, a) == OutputLock
    ensures exists i :: a < i < b && PcAt(Init(ids), actions, id, i) == OutputTest
    ensures forall i :: a < i < b && PcAt(Init(ids), actions, id, i) == OutputTest ==>
      if StateAt(Init(ids), actions, i).callback then
        exists j :: i < j < b && PcAt(Init(ids), actions, id, j) == CallbackTest
      else OwnAt(Init(ids), actions, id, b) == OwnAt(Init(ids), actions, id, a)
    ensures forall j :: a < j < b && PcAt(Init(ids), actions, id, j) == CallbackTest ==>
      var m := StateAt(Init(ids), actions, j);
      if m.current >= 0 then
        && OwnAt(Init(ids), actions, id, b) == OwnAt(Init(ids), actions, id, a) + [Wrote(m.current, DriverThread(id))]
        && m.current in OpenAfter(m.log)
      else OwnAt(Init(ids), actions, id, b) == OwnAt(Init(ids), actions, id, a)
  {
    hide Inv, Runs, StateAt, Own, OpenAfter;
    var s := Init(ids);
    InitInv(ids);
    var first := Reaches(s, actions, id, a, b, a, OutputTest);
    forall i | a < i < b && PcAt(s, actions, id, i) == OutputTest
      ensures if StateAt(s, actions, i).callback then exists j :: i < j < b && PcAt(s, actions, id, j) == CallbackTest
              else OwnAt(s, actions, id, b) == OwnAt(s, actions, id, a)
    {
      if StateAt(s, actions, i).callback {
        var j := Reaches(s, actions, id, a, b, i, CallbackTest);
      } else {
        CallLeaves(s, actions, id, a, b, i);
      }
    }
    forall j | a < j < b && PcAt(s, actions, id, j) == CallbackTest
      ensures var m := StateAt(s, actions, j);
        if m.current >= 0 then
          && OwnAt(s, actions, id, b) == OwnAt(s, actions, id, a) + [Wrote(m.current, DriverThread(id))]
          && m.current in OpenAfter(m.log)
        else OwnAt(s, actions, id, b) == OwnAt(s, actions, id, a)
    {
      CallLeaves(s, actions, id, a, b, j);
      PublishedIsOpen(s, actions, j);
    }
  }

  lemma PublishedIsOpen(s: State, actions: seq<Action>, j: nat)
    requires Inv(s) && Runs(s, actions) && j <= |actions|
    ensures var m := StateAt(s, actions, j); m.current >= 0 ==> m.current in OpenAfter(m.log)
  {
    hide Runs, StateAt, Mutexes, WritesSafe, Histories, OpenAfter;
    RunInv(s, actions, j);
  }

  // One call of IsRawMode copies the raw mode of one moment during the call, and nothing else; one
  // call of SetRawDataCallback leaves a callback set from then on.
  lemma QueryCall(ids: set<nat>, actions: seq<Action>, id: nat, a: nat, b: nat)
    requires Runs(Init(ids), actions) && IsCall(Init(ids), actions, id, a, b)
    requires PcAt(Init(ids), actions, id, a) == QueryLock
    ensures exists i :: (a < i < b && PcAt(Init(ids), actions, id, i) == QueryCopy
      && OwnAt(Init(ids), actions, id, b) ==
         OwnAt(Init(ids), actions, id, a) + [Asked(DriverThread(id), StateAt(Init(ids), actions, i).raw)])
  {
    hide Inv, Runs, StateAt, Own;
    InitInv(ids);
    var i := Reaches(Init(ids), actions, id, a, b, a, QueryCopy);
    CallLeaves(Init(ids), actions, id, a, b, i);
  }

  lemma SetCall(ids: set<nat>, actions: seq<Action>, id: nat, a: nat, b: nat, k: nat)
    requires Runs(Init(ids), actions) && IsCall(Init(ids), actions, id, a, b)
    requires PcAt(Init(ids), actions, id, a) == SetLock && b <= k <= |actions|
    ensures OwnAt(Init(ids), actions, id, b) == OwnAt(Init(ids), actions, id, a) + [Set(DriverThread(id))]
    ensures StateAt(Init(ids), actions, k).callback
  {
    hide Inv, Runs, StateAt, Own;
    var s := Init(ids);
    InitInv(ids);
    var i := Reaches(s, actions, id, a, b, a, SetStore);
    CallLeaves(s, actions, id, a, b, i);
    var j := Reaches(s, actions, id, a, b, i, SetUnlock);
    CallbackSet(s, actions, id, j, k);
  }

  lemma {:induction false} CallbackSet(s: State, actions: seq<Action>, id: nat, j: nat, k: nat)
    requires Inv(s) && Runs(s, actions) && j <= k <= |actions| && PcAt(s, actions, id, j) == SetUnlock
    ensures StateAt(s, actions, k).callback
    decreases k
  {
    hide Runs, StateAt, Mutexes, WritesSafe, Histories, Do, Enabled, OpenAfter;
    RunInv(s, actions, j);
    if k > j {
      CallbackSet(s, actions, id, j, k - 1);
      StateNext(s, actions, k - 1);
      CallbackStays(StateAt(s, actions, k - 1), actions[k - 1]);
    }
  }

  // ---- Progress ----

  predicate CanMove(s: State, who: Owner) {
    match who
    case Nobody => false
    case AcceptThread => Enabled(s, Accept(0)) || Enabled(s, Accept(-1))
    case DriverThread(id) => Enabled(s, Drive(id, OutputLock))
  }

  // In every reachable state the holder of the socket mutex can move, and the holder of the driver
  // mutex can move or waits only for a socket mutex whose holder can. So a thread that cannot move
  // is at most two waits away from one that can: there is no deadlock.
  lemma NoDeadlock(ids: set<nat>, actions: seq<Action>, who: Owner)
    requires Runs(Init(ids), actions)
    requires var s := After(Init(ids), actions); who == AcceptThread || (who.DriverThread? && who.id in s.threads)
    ensures var s := After(Init(ids), actions);
      && (s.socketMutex != Nobody ==> CanMove(s, s.socketMutex))
      && (s.driverMutex != Nobody ==> CanMove(s, s.driverMutex) || CanMove(s, s.socketMutex))
      && (CanMove(s, who) || CanMove(s, s.driverMutex) || CanMove(s, s.socketMutex))
  {
    hide Mutexes, Descriptors, WritesSafe, CanMove;
    InitInv(ids);
    RunInv(Init(ids), actions, |actions|);
    var s := After(Init(ids), actions);
    if s.socketMutex != Nobody { SocketHolderMoves(s); }
    if s.driverMutex != Nobody { DriverHolderMoves(s); }
    WaitsForHolder(s, who);
  }

  lemma HoldersDoNotLock(accept: AcceptPc, pc: DriverPc, result: int)
    ensures AcceptHoldsSocket(accept) || AcceptHoldsDriver(accept) ==>
      !AcceptEffect(accept, result).LockSocket? && !AcceptEffect(accept, result).LockDriver?
      && !accept.Accepting? && !accept.Reading?
    ensures HoldsSocket(pc) ==> !DriveEffect(pc).LockSocket?
    ensures HoldsDriver(pc) ==> !DriveEffect(pc).LockDriver?
    ensures HoldsSocket(pc) ==> HoldsDriver(pc)
  {
  }

  lemma SocketHolderMoves(s: State)
    requires Mutexes(s) && s.socketMutex != Nobody
    ensures CanMove(s, s.socketMutex)
  {
    HoldersDoNotLock(s.accept, if s.socketMutex.DriverThread? then s.threads[s.socketMutex.id] else Outside, 0);
    hide AcceptEffect, DriveEffect, AcceptHoldsSocket, AcceptHoldsDriver, HoldsSocket, HoldsDriver, OpenAfter;
  }

  lemma DriverHolderMoves(s: State)
    requires Mutexes(s) && s.driverMutex != Nobody
    ensures CanMove(s, s.driverMutex) || (s.socketMutex != Nobody && CanMove(s, s.socketMutex))
  {
    if s.socketMutex != Nobody {
      SocketHolderMoves(s);
    } else {
      HoldersDoNotLock(s.accept, if s.driverMutex.DriverThread? then s.threads[s.driverMutex.id] else Outside, 0);
      hide AcceptEffect, DriveEffect, AcceptHoldsSocket, AcceptHoldsDriver, HoldsSocket, HoldsDriver, OpenAfter;
    }
  }

  lemma WaitsForHolder(s: State, who: Owner)
    requires who == AcceptThread || (who.DriverThread? && who.id in s.threads)
    ensures CanMove(s, who) || s.driverMutex != Nobody || s.socketMutex != Nobody
  {
    hide OpenAfter;
  }

  // Own steps left until a thread gives up the socket mutex, and the driver mutex.
  function AcceptRank(pc: AcceptPc): nat {
    match pc
    case Storing | Clearing | Enabling | Disabling => 2
    case UnlockingSocketStored | UnlockingSocketCleared | UnlockingDriverEnabled | UnlockingDriverDisabled => 1
    case _ => 0
  }

  function SocketRank(pc: DriverPc): nat {
    match pc
    case CallbackTest => 3
    case CallbackWrite => 2
    case CallbackUnlock => 1
    case _ => 0
  }

  function DriverRank(pc: DriverPc): nat {
    match pc
    case OutputTest => 6
    case CallbackLock => 5
    case CallbackTest => 4
    case CallbackWrite => 3
    case CallbackUnlock => 2
    case OutputUnlock => 1
    case QueryCopy | SetStore => 2
    case QueryUnlock | SetUnlock => 1
    case _ => 0
  }

  // The rank of a thread as the holder of one of the mutexes.
  function RankOf(s: State, who: Owner, socket: bool): nat {
    match who
    case AcceptThread =>
      if (if socket then AcceptHoldsSocket(s.accept) else AcceptHoldsDriver(s.accept)) then AcceptRank(s.accept) else 0
    case DriverThread(id) =>
      if id !in s.threads then 0 else if socket then SocketRank(s.threads[id]) else DriverRank(s.threads[id])
    case Nobody => 0
  }

  // A held mutex comes closer to its release with every step of its holder, and no other thread's
  // step sets it back: a thread that keeps getting scheduled releases what it holds.
  ghost predicate Advances(before: Owner, after: Owner, mover: Owner, rankBefore: nat, rankAfter: nat) {
    before != Nobody ==>
      && rankBefore > 0
      && (if mover == before then rankAfter < rankBefore else rankAfter == rankBefore)
      && (after == before || (after == Nobody && rankAfter == 0))
  }

  ghost predicate BothAdvance(s: State, s': State, mover: Owner) {
    && Advances(s.socketMutex, s'.socketMutex, mover,
                RankOf(s, s.socketMutex, true), RankOf(s', s.socketMutex, true))
    && Advances(s.driverMutex, s'.driverMutex, mover,
                RankOf(s, s.driverMutex, false), RankOf(s', s.driverMutex, false))
  }

  lemma HoldersAdvance(ids: set<nat>, actions: seq<Action>, a: Action)
    requires Runs(Init(ids), actions)
    requires Enabled(After(Init(ids), actions), a)
    ensures var s := After(Init(ids), actions);
      BothAdvance(s, Do(s, a), Mover(a))
  {
    hide Mutexes, Descriptors, WritesSafe, BothAdvance, AcceptStep, DriveStep;
    InitInv(ids);
    RunInv(Init(ids), actions, |actions|);
    var s := After(Init(ids), actions);
    match a
    case Accept(result) => AcceptAdvances(s, result);
    case Drive(id, choice) => DriveAdvances(s, id, choice);
  }

  lemma AcceptRanks(pc: AcceptPc, result: int)
    ensures AcceptHoldsSocket(pc) || AcceptHoldsDriver(pc) <==> AcceptRank(pc) > 0
    ensures AcceptRank(pc) > 0 ==> AcceptRank(AcceptNext(pc, result)) == AcceptRank(pc) - 1
  {
  }

  lemma DriverRanks(pc: DriverPc, choice: DriverPc, callback: bool, current: int)
    requires pc.Outside? ==> choice.OutputLock? || choice.QueryLock? || choice.SetLock?
    ensures var pc' := DriveNext(pc, choice, callback, current);
      && (HoldsSocket(pc) <==> SocketRank(pc) > 0) && (HoldsSocket(pc') <==> SocketRank(pc') > 0)
      && (HoldsDriver(pc) <==> DriverRank(pc) > 0) && (HoldsDriver(pc') <==> DriverRank(pc') > 0)
      && (SocketRank(pc) > 0 ==> SocketRank(pc') < SocketRank(pc))
      && (DriverRank(pc) > 0 ==> DriverRank(pc') < DriverRank(pc))
  {
  }

  lemma AcceptAdvances(s: State, result: int)
    requires Mutexes(s) && Enabled(s, Accept(result))
    ensures BothAdvance(s, AcceptStep(s, result), AcceptThread)
  {
    AcceptTable(s.accept, result);
    Fields(s, AcceptThread, AcceptEffect(s.accept, result), result);
    AcceptRanks(s.accept, result);
    if s.socketMutex.DriverThread? { DriverRanks(s.threads[s.socketMutex.id], OutputLock, true, 0); }
    if s.driverMutex.DriverThread? { DriverRanks(s.threads[s.driverMutex.id], OutputLock, true, 0); }
    hide AcceptEffect, AcceptNext, AcceptHoldsSocket, AcceptHoldsDriver, HoldsSocket, HoldsDriver, OpenAfter;
    hide InSession, Published, RawOn, AcceptRank, SocketRank, DriverRank, DriveNext, Perform;
  }

  lemma DriveAdvances(s: State, id: nat, choice: DriverPc)
    requires Mutexes(s) && Enabled(s, Drive(id, choice))
    ensures BothAdvance(s, DriveStep(s, id, choice), DriverThread(id))
  {
    DriveTable(s.threads[id], choice, s.callback, s.current);
    DriverRanks(s.threads[id], choice, s.callback, s.current);
    Fields(s, DriverThread(id), DriveEffect(s.threads[id]), 0);
    AcceptRanks(s.accept, 0);
    OwnerRanks(s);
    hide DriveEffect, DriveNext, AcceptHoldsSocket, AcceptHoldsDriver, HoldsSocket, HoldsDriver, OpenAfter;
    hide InSession, Published, RawOn, AcceptRank, SocketRank, DriverRank, Mutexes, Perform;
  }

  // Who owns a mutex has a rank for it, and a thread with a rank owns it.
  lemma OwnerRanks(s: State)
    requires Mutexes(s)
    ensures s.socketMutex != Nobody ==> RankOf(s, s.socketMutex, true) > 0
    ensures s.driverMutex != Nobody ==> RankOf(s, s.driverMutex, false) > 0
    ensures s.socketMutex.DriverThread? ==> s.socketMutex.id in s.threads
    ensures s.driverMutex.DriverThread? ==> s.driverMutex.id in s.threads
    ensures forall id :: id in s.threads ==>
      && (s.socketMutex == DriverThread(id) <==> HoldsSocket(s.threads[id]))
      && (s.driverMutex == DriverThread(id) <==> HoldsDriver(s.threads[id]))
  {
    AcceptRanks(s.accept, 0);
    if s.socketMutex.DriverThread? { DriverRanks(s.threads[s.socketMutex.id], OutputLock, true, 0); }
    if s.driverMutex.DriverThread? { DriverRanks(s.threads[s.driverMutex.id], OutputLock, true, 0); }
    hide AcceptHoldsSocket, AcceptHoldsDriver, HoldsSocket, HoldsDriver, AcceptRank, SocketRank, DriverRank;
  }
}
