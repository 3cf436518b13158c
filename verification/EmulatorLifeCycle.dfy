/**
  The two-thread life cycle of the emulator: the client thread calling start, stop, join, state and
  unload_rom, and the emulation thread spawned by start, sharing one hand-managed mutex and an atomic state.

  Every access to shared data is one step, and the two threads interleave freely. The mutex carries its owner;
  unlocking and writing the state are modelled as the code does them, without asking who owns the mutex, so that
  "only the owner does" is something to prove.

  Assumptions about the parts that are not modelled: one client thread; the core's blocking execute command
  either fails before any callback, or reports RUNNING, then any finite mix of RUNNING and PAUSED, then STOPPED,
  and then returns; these callbacks run on the emulation thread; user callbacks leave the mutex alone.
*/
module EmulatorLifeCycle {

  /** Who owns the mutex. */
  datatype Owner = Nobody | Client | Emulation

  datatype MupenState = Stopped | Stopping | Starting | Running | Paused | Joinable

  /** What the user's callback was told. */
  datatype Note = NoteRunning | NotePaused | NoteJoinable

  /** What the client may conclude from its own calls: join wants `Ended` or better, unload_rom wants `Joined`. */
  datatype Knowledge = Unknown | Ended | Joined

  datatype Call = NoCall | StartCall | StopCall | JoinCall | StateCall | UnloadCall

  datatype ClientPc =
    | Idle
    | StartLock | StartTest | StartBail | StartUnlock | StartSpawn | StartWait
    | StopLock | StopTest | StopBail | StopAssert | StopCommand | StopMark | StopUnlock | StopSpin | StopRetry
    | JoinTest | JoinAssert | JoinLock | JoinGet | JoinMark | JoinUnlock
    | StateLock | StateRead | StateUnlock
    | UnloadLock | UnloadAssert | UnloadUnlock
  {
    function Call(): Call {
      match this
      case Idle => NoCall
      case StartLock | StartTest | StartBail | StartUnlock | StartSpawn | StartWait => StartCall
      case StopLock | StopTest | StopBail | StopAssert | StopCommand | StopMark | StopUnlock | StopSpin | StopRetry =>
        StopCall
      case JoinTest | JoinAssert | JoinLock | JoinGet | JoinMark | JoinUnlock => JoinCall
      case StateLock | StateRead | StateUnlock => StateCall
      case UnloadLock | UnloadAssert | UnloadUnlock => UnloadCall
    }

    predicate Locking() {
      StartLock? || StopLock? || JoinLock? || StateLock? || UnloadLock?
    }

    predicate Writing(mupen: MupenState) {
      (StartTest? && mupen.Stopped?) || StopMark? || JoinMark?
    }

    predicate Unlocking() {
      || StartBail? || StartUnlock? || StopBail? || StopUnlock?
      || JoinUnlock? || StateUnlock? || UnloadUnlock?
    }
  }

  datatype EmuPc =
    | NoThread | TakeMutex | Signal | Attach
    | Fresh                                        // inside execute, no callback yet
    | RunTest | RunMark | RunUnlock | RunNotify    // RUNNING callback
    | Live                                         // inside execute, between callbacks
    | PauseLock | PauseMark | PauseUnlock | PauseNotify
    | HaltLock | HaltMark                          // STOPPED callback
    | Halted                                       // inside execute, after STOPPED
    | Detach(failed: bool)
    | FailTest | FailMark(early: bool) | FailUnlock(early: bool) | FailNotify(early: bool)
    | AssertJoinable | ExitUnlock
    | JoinableNotify
    | Returning                                    // the user knows, the thread is not over yet
    | Finished
  {
    predicate Locking() {
      TakeMutex? || PauseLock? || HaltLock?
    }

    predicate Writing() {
      RunMark? || PauseMark? || HaltMark? || FailMark?
    }

    predicate Unlocking() {
      RunUnlock? || PauseUnlock? || ExitUnlock? || FailUnlock?
    }
  }

  /**
    `events` bounds the RUNNING and PAUSED callbacks the core still makes in this run; `notes` are the user
    notifications of this run; `stopAsked` records that a stop command reached the core.
  */
  datatype State = State(
    mupen: MupenState, owner: Owner, client: ClientPc, emu: EmuPc,
    signalled: bool, stopAsked: bool, events: nat, notes: seq<Note>, known: Knowledge)

  ghost predicate Init(s: State) {
    && s.mupen == Stopped && s.owner == Nobody && s.client == Idle && s.emu == NoThread
    && s.known == Joined
  }

  /// The steps

  /**
    The client between calls picks one; join only when its own calls or the notification have told it that the game is
    over, and unload_rom only when they have told it that nothing is left to join.
  */
  ghost predicate CallStep(s: State, t: State) {
    && s.client.Idle?
    && (|| t == s.(client := StartLock)
        || t == s.(client := StopLock)
        || t == s.(client := StateLock)
        || (MayJoin(s) && t == s.(client := JoinTest))
        || (s.known.Joined? && t == s.(client := UnloadLock)))
  }

  predicate MayJoin(s: State) {
    !s.known.Unknown? || NoteJoinable in s.notes
  }

  ghost predicate StartStep(s: State, t: State) {
    match s.client
    case StartLock => s.owner.Nobody? && t == s.(owner := Client, client := StartTest)
    case StartTest =>
      t == if !s.mupen.Stopped? then s.(client := StartBail) else s.(mupen := Starting, client := StartUnlock)
    case StartBail => t == s.(owner := Nobody, client := Idle)
    case StartUnlock => t == s.(owner := Nobody, client := StartSpawn)
    case StartSpawn =>
      t == s.(emu := TakeMutex, signalled := false, stopAsked := false, events := t.events, notes := [],
              known := Unknown, client := StartWait)
    case StartWait => s.signalled && t == s.(client := Idle)
    case _ => false
  }

  ghost predicate StopStep(s: State, t: State) {
    match s.client
    case StopLock => s.owner.Nobody? && t == s.(owner := Client, client := StopTest)
    case StopTest =>
      t == s.(client := if s.mupen.Stopped? || s.mupen.Stopping? || s.mupen.Joinable? then StopBail else StopAssert)
    case StopBail => t == s.(owner := Nobody, known := AtLeastEnded(s.known), client := Idle)
    case StopAssert => t == s.(client := StopCommand)
    case StopCommand => t == s.(stopAsked := true, client := StopMark)
    case StopMark => t == s.(mupen := Stopping, client := StopUnlock)
    case StopUnlock => t == s.(owner := Nobody, client := StopSpin)
    case StopSpin =>
      t == if s.mupen.Joinable? then s.(known := AtLeastEnded(s.known), client := Idle)
           else s.(client := StopRetry)
    case StopRetry => t == s.(stopAsked := true, client := StopSpin)
    case _ => false
  }

  ghost predicate JoinStep(s: State, t: State) {
    match s.client
    case JoinTest =>
      t == if s.mupen.Stopped? then s.(known := Joined, client := Idle) else s.(client := JoinAssert)
    case JoinAssert => t == s.(client := JoinLock)
    case JoinLock => s.owner.Nobody? && t == s.(owner := Client, client := JoinGet)
    case JoinGet => s.emu.Finished? && t == s.(emu := NoThread, client := JoinMark)
    case JoinMark => t == s.(mupen := Stopped, client := JoinUnlock)
    case JoinUnlock => t == s.(owner := Nobody, known := Joined, client := Idle)
    case _ => false
  }

  ghost predicate QueryStep(s: State, t: State) {
    match s.client
    case StateLock => s.owner.Nobody? && t == s.(owner := Client, client := StateRead)
    case StateRead =>
      t == s.(client := StateUnlock,
              known := if s.mupen.Stopped? then Joined
                       else if s.mupen.Joinable? then AtLeastEnded(s.known) else s.known)
    case StateUnlock => t == s.(owner := Nobody, client := Idle)
    case UnloadLock => s.owner.Nobody? && t == s.(owner := Client, client := UnloadAssert)
    case UnloadAssert => t == s.(client := UnloadUnlock)
    case UnloadUnlock => t == s.(owner := Nobody, client := Idle)
    case _ => false
  }

  ghost predicate ClientStep(s: State, t: State) {
    CallStep(s, t) || StartStep(s, t) || StopStep(s, t) || JoinStep(s, t) || QueryStep(s, t)
  }

  function AtLeastEnded(k: Knowledge): Knowledge {
    if k == Unknown then Ended else k
  }

  ghost predicate BootStep(s: State, t: State) {
    match s.emu
    case TakeMutex => s.owner.Nobody? && t == s.(owner := Emulation, emu := Signal)
    case Signal => t == s.(signalled := true, emu := Attach)
    case Attach => t == s.(emu := Fresh)
    case Fresh => t == s.(emu := Detach(true)) || t == s.(emu := RunTest)
    case _ => false
  }

  ghost predicate RunningStep(s: State, t: State) {
    match s.emu
    case RunTest => t == s.(emu := if s.mupen.Starting? then RunMark else RunNotify)
    case RunMark => t == s.(mupen := Running, emu := RunUnlock)
    case RunUnlock => t == s.(owner := Nobody, emu := RunNotify)
    case RunNotify => t == s.(notes := s.notes + [NoteRunning], emu := Live)
    case Live =>
      || (s.events > 0 && t == s.(events := s.events - 1, emu := RunTest))
      || (s.events > 0 && t == s.(events := s.events - 1, emu := PauseLock))
      || t == s.(emu := HaltLock)
    case _ => false
  }

  ghost predicate PausedStep(s: State, t: State) {
    match s.emu
    case PauseLock => s.owner.Nobody? && t == s.(owner := Emulation, emu := PauseMark)
    case PauseMark => t == s.(mupen := Paused, emu := PauseUnlock)
    case PauseUnlock => t == s.(owner := Nobody, emu := PauseNotify)
    case PauseNotify => t == s.(notes := s.notes + [NotePaused], emu := Live)
    case _ => false
  }

  ghost predicate StoppedStep(s: State, t: State) {
    match s.emu
    case HaltLock => s.owner.Nobody? && t == s.(owner := Emulation, emu := HaltMark)
    case HaltMark => t == s.(mupen := Joinable, emu := Halted)
    case Halted => t == s.(emu := Detach(true)) || t == s.(emu := Detach(false))
    case Detach(failed) => t == s.(emu := if failed then FailTest else AssertJoinable)
    case _ => false
  }

  ghost predicate FailStep(s: State, t: State) {
    match s.emu
    case FailTest => t == s.(emu := FailMark(s.mupen.Starting?))
    case FailMark(early) => t == s.(mupen := Joinable, emu := FailUnlock(early))
    case FailUnlock(early) => t == s.(owner := Nobody, emu := FailNotify(early))
    case FailNotify(early) =>
      t == s.(notes := if early then s.notes + [NoteRunning] else s.notes, emu := JoinableNotify)
    case _ => false
  }

  ghost predicate ExitStep(s: State, t: State) {
    match s.emu
    case AssertJoinable => t == s.(emu := ExitUnlock)
    case ExitUnlock => t == s.(owner := Nobody, emu := JoinableNotify)
    case JoinableNotify => t == s.(notes := s.notes + [NoteJoinable], emu := Returning)
    case Returning => t == s.(emu := Finished)
    case _ => false
  }

  ghost predicate EmuStep(s: State, t: State) {
    || BootStep(s, t) || RunningStep(s, t) || PausedStep(s, t)
    || StoppedStep(s, t) || FailStep(s, t) || ExitStep(s, t)
  }

  ghost predicate Step(s: State, t: State) {
    ClientStep(s, t) || EmuStep(s, t)
  }

  ghost predicate StepAt(run: seq<State>, i: nat)
    requires 0 < i < |run|
  {
    Step(run[i - 1], run[i])
  }

  ghost predicate IsRun(run: seq<State>) {
    && run != [] && Init(run[0])
    && forall i {:trigger StepAt(run, i)} :: 0 < i < |run| ==> StepAt(run, i)
  }

  /// The invariant

  ghost predicate ClientHolds(pc: ClientPc) {
    match pc
    case StartTest | StartBail | StartUnlock => true
    case StopTest | StopBail | StopAssert | StopCommand | StopMark | StopUnlock => true
    case JoinGet | JoinMark | JoinUnlock => true
    case StateRead | StateUnlock | UnloadAssert | UnloadUnlock => true
    case _ => false
  }

  ghost predicate EmuHolds(pc: EmuPc, mupen: MupenState) {
    match pc
    case Signal | Attach | Fresh | RunMark | RunUnlock | PauseMark | PauseUnlock | HaltMark | Halted => true
    case Detach(_) | FailTest | FailMark(_) | FailUnlock(_) | AssertJoinable | ExitUnlock => true
    case RunTest => mupen.Starting?
    case _ => false
  }

  /** The mutex is owned by exactly the thread whose program point says so. */
  ghost predicate Ownership(s: State) {
    && (s.owner.Client? <==> ClientHolds(s.client))
    && (s.owner.Emulation? <==> EmuHolds(s.emu, s.mupen))
  }

  ghost predicate Begun(notes: seq<Note>) {
    |notes| > 0 && notes[0] == NoteRunning && forall i :: 0 <= i < |notes| ==> notes[i] != NoteJoinable
  }

  ghost predicate Complete(notes: seq<Note>) {
    |notes| > 0 && Begun(notes[..|notes| - 1]) && notes[|notes| - 1] == NoteJoinable
  }

  ghost predicate InGame(m: MupenState) {
    m.Running? || m.Paused? || m.Stopping?
  }

  /** The emulator state and the notifications that go with each point of the emulation thread. */
  ghost predicate EmuInv(pc: EmuPc, mupen: MupenState, notes: seq<Note>) {
    match pc
    case NoThread => mupen.Starting? || mupen.Joinable? || mupen.Stopped?
    case TakeMutex | Signal | Attach | Fresh | RunMark => mupen.Starting? && notes == []
    case RunTest => if mupen.Starting? then notes == [] else InGame(mupen) && Begun(notes)
    case RunUnlock => mupen.Running? && notes == []
    case RunNotify => InGame(mupen) && (notes == [] || Begun(notes))
    case Live | PauseLock | PauseMark | PauseNotify | HaltLock | HaltMark => InGame(mupen) && Begun(notes)
    case PauseUnlock => mupen.Paused? && Begun(notes)
    case Halted | AssertJoinable | ExitUnlock | JoinableNotify => mupen.Joinable? && Begun(notes)
    case Detach(failed) => if mupen.Starting? then failed && notes == [] else mupen.Joinable? && Begun(notes)
    case FailTest => if mupen.Starting? then notes == [] else mupen.Joinable? && Begun(notes)
    case FailMark(early) => if early then mupen.Starting? && notes == [] else mupen.Joinable? && Begun(notes)
    case FailUnlock(early) => mupen.Joinable? && if early then notes == [] else Begun(notes)
    case FailNotify(early) => mupen.Joinable? && if early then notes == [] else Begun(notes)
    case Returning | Finished => mupen.Joinable? && Complete(notes)
  }

  /** What each point of the client relies on. */
  ghost predicate ClientInv(s: State) {
    match s.client
    case StartUnlock | StartSpawn => s.mupen.Starting? && s.emu.NoThread?
    case StartWait => !s.emu.NoThread? && (s.signalled <==> !Booting(s.emu))
    case StopAssert | StopCommand => s.mupen.Running? || s.mupen.Paused?
    case StopMark => (s.mupen.Running? || s.mupen.Paused?) && s.stopAsked
    case StopBail => s.mupen.Stopped? || s.mupen.Joinable?
    case StopUnlock => s.stopAsked && s.mupen.Stopping?
    case StopSpin | StopRetry => s.stopAsked && (InGame(s.mupen) || s.mupen.Joinable?)
    case JoinTest => s.mupen.Stopped? || s.mupen.Joinable?
    case JoinAssert | JoinLock | JoinGet => s.mupen.Joinable?
    case JoinMark => s.mupen.Joinable? && s.emu.NoThread?
    case JoinUnlock | UnloadLock | UnloadAssert | UnloadUnlock => s.mupen.Stopped?
    case _ => true
  }

  ghost predicate Booting(pc: EmuPc) {
    pc.TakeMutex? || pc.Signal?
  }

  /** How the two threads fit together: who may be starting, stopping, or between runs. */
  ghost predicate Agreement(s: State) {
    && (s.emu.NoThread? && !s.mupen.Stopped? ==> s.client.StartUnlock? || s.client.StartSpawn? || s.client.JoinMark?)
    && (Booting(s.emu) ==> s.client.StartWait?)
    && (s.mupen.Stopping? ==> s.client.StopUnlock? || s.client.StopSpin? || s.client.StopRetry?)
    && (s.known.Joined? ==> s.mupen.Stopped? || s.client.StartUnlock? || s.client.StartSpawn?)
    && (s.known.Ended? ==> s.mupen.Stopped? || s.mupen.Joinable? || s.client.StartUnlock? || s.client.StartSpawn?)
  }

  ghost predicate Inv(s: State) {
    Ownership(s) && EmuInv(s.emu, s.mupen, s.notes) && ClientInv(s) && Agreement(s)
  }

  /** Bounds the steps the emulation thread has left in this run. */
  function EmuRank(s: State): nat {
    10 * s.events +
    match s.emu
    case NoThread | Finished => 0
    case Returning => 1
    case JoinableNotify => 2
    case ExitUnlock | FailNotify(_) => 3
    case AssertJoinable | FailUnlock(_) => 4
    case FailMark(_) => 5
    case FailTest => 6
    case Detach(_) => 7
    case Halted => 8
    case HaltMark => 9
    case HaltLock => 10
    case Live => 11
    case RunNotify | PauseNotify => 12
    case RunUnlock | PauseUnlock => 13
    case RunMark | PauseMark => 14
    case RunTest | PauseLock => 15
    case Fresh => 16
    case Attach => 17
    case Signal => 18
    case TakeMutex => 19
  }

  /// What one thread's step can do to the other

  ghost predicate EmuEffect(s: State, t: State) {
    && t.client == s.client && t.known == s.known && t.stopAsked == s.stopAsked
    && !s.emu.NoThread? && !t.emu.NoThread? && !t.emu.TakeMutex?
    && (Booting(t.emu) <==> s.emu.TakeMutex?)
    && t.signalled == (s.emu.Signal? || s.signalled)
    && (t.mupen != s.mupen ==>
        && s.owner == t.owner == Emulation
        && (|| (s.mupen.Starting? && t.mupen.Running?)
            || (InGame(s.mupen) && t.mupen.Paused?)
            || (!s.mupen.Stopped? && t.mupen.Joinable?)))
    && (|| t.owner == s.owner
        || (s.owner.Nobody? && t.owner == Emulation)
        || (s.owner == Emulation && t.owner.Nobody?))
    && (t.owner.Emulation? <==> EmuHolds(t.emu, t.mupen))
    && EmuRank(t) < EmuRank(s)
  }

  ghost predicate ClientEffect(s: State, t: State) {
    && (t.mupen != s.mupen ==>
        && s.owner == t.owner == Client
        && (|| (s.client.StartTest? && s.mupen.Stopped? && t.mupen.Starting?)
            || (s.client.StopMark? && InGame(s.mupen) && t.mupen.Stopping?)
            || (s.client.JoinMark? && s.mupen.Joinable? && t.mupen.Stopped?)))
    && (!s.client.StartSpawn? ==> t.notes == s.notes && t.events == s.events && t.signalled == s.signalled)
    && (!s.client.StartSpawn? && !s.client.JoinGet? ==> t.emu == s.emu)
    && (s.client.JoinGet? ==> s.emu.Finished? && t.emu.NoThread?)
  }

  ghost predicate EmuLocal(s: State) {
    EmuInv(s.emu, s.mupen, s.notes) && (s.owner.Emulation? <==> EmuHolds(s.emu, s.mupen))
  }

  lemma BootStepEffect(s: State, t: State)
    requires EmuLocal(s) && BootStep(s, t)
    ensures EmuEffect(s, t) && EmuInv(t.emu, t.mupen, t.notes)
  {
    BootStepMovesOn(s, t);
  }

  lemma BootStepMovesOn(s: State, t: State)
    requires EmuLocal(s) && BootStep(s, t)
    ensures EmuInv(t.emu, t.mupen, t.notes)
  {
  }

  lemma RunningStepEffect(s: State, t: State)
    requires EmuLocal(s) && RunningStep(s, t)
    ensures EmuEffect(s, t) && EmuInv(t.emu, t.mupen, t.notes)
  {
    RunningStepMovesOn(s, t);
  }

  lemma RunningStepMovesOn(s: State, t: State)
    requires EmuLocal(s) && RunningStep(s, t)
    ensures EmuInv(t.emu, t.mupen, t.notes)
  {
  }

  lemma PausedStepEffect(s: State, t: State)
    requires EmuLocal(s) && PausedStep(s, t)
    ensures EmuEffect(s, t) && EmuInv(t.emu, t.mupen, t.notes)
  {
    PausedStepMovesOn(s, t);
  }

  lemma PausedStepMovesOn(s: State, t: State)
    requires EmuLocal(s) && PausedStep(s, t)
    ensures EmuInv(t.emu, t.mupen, t.notes)
  {
  }

  lemma StoppedStepEffect(s: State, t: State)
    requires EmuLocal(s) && StoppedStep(s, t)
    ensures EmuEffect(s, t) && EmuInv(t.emu, t.mupen, t.notes)
  {
    StoppedStepMovesOn(s, t);
  }

  lemma StoppedStepMovesOn(s: State, t: State)
    requires EmuLocal(s) && StoppedStep(s, t)
    ensures EmuInv(t.emu, t.mupen, t.notes)
  {
  }

  lemma FailStepEffect(s: State, t: State)
    requires EmuLocal(s) && FailStep(s, t)
    ensures EmuEffect(s, t) && EmuInv(t.emu, t.mupen, t.notes)
  {
    FailStepMovesOn(s, t);
  }

  lemma FailStepMovesOn(s: State, t: State)
    requires EmuLocal(s) && FailStep(s, t)
    ensures EmuInv(t.emu, t.mupen, t.notes)
  {
  }

  lemma ExitStepEffect(s: State, t: State)
    requires EmuLocal(s) && ExitStep(s, t)
    ensures EmuEffect(s, t) && EmuInv(t.emu, t.mupen, t.notes)
  {
    ExitStepMovesOn(s, t);
  }

  lemma ExitStepMovesOn(s: State, t: State)
    requires EmuLocal(s) && ExitStep(s, t)
    ensures EmuInv(t.emu, t.mupen, t.notes)
  {
  }

  lemma EmuEffectKeepsClient(s: State, t: State)
    requires Ownership(s) && ClientInv(s) && Agreement(s) && EmuEffect(s, t)
    ensures ClientInv(t) && Agreement(t) && (t.owner.Client? <==> ClientHolds(t.client))
  {
  }

  lemma EmuStepKeepsInv(s: State, t: State)
    requires Inv(s) && EmuStep(s, t)
    ensures Inv(t) && EmuEffect(s, t)
  {
    if BootStep(s, t) {
      BootStepEffect(s, t);
    } else if RunningStep(s, t) {
      RunningStepEffect(s, t);
    } else if PausedStep(s, t) {
      PausedStepEffect(s, t);
    } else if StoppedStep(s, t) {
      StoppedStepEffect(s, t);
    } else if FailStep(s, t) {
      FailStepEffect(s, t);
    } else {
      ExitStepEffect(s, t);
    }
    EmuEffectKeepsClient(s, t);
  }

  lemma BegunIsNotOver(notes: seq<Note>)
    requires Begun(notes)
    ensures NoteJoinable !in notes
  {
  }

  /** A client that may join, on whatever it has been told, finds the game over. */
  lemma MayJoinMeansOver(s: State)
    requires Inv(s) && s.client.Idle? && MayJoin(s)
    ensures s.mupen.Stopped? || s.mupen.Joinable?
  {
    if Begun(s.notes) {
      BegunIsNotOver(s.notes);
    }
  }

  lemma CallStepKeepsInv(s: State, t: State)
    requires Inv(s) && CallStep(s, t)
    ensures Inv(t) && ClientEffect(s, t)
  {
    if t.client.JoinTest? {
      MayJoinMeansOver(s);
    }
  }

  lemma StartStepKeepsInv(s: State, t: State)
    requires Inv(s) && StartStep(s, t)
    ensures Inv(t) && ClientEffect(s, t)
  {
  }

  lemma StopStepEffect(s: State, t: State)
    requires Inv(s) && StopStep(s, t)
    ensures ClientEffect(s, t)
  {
  }

  lemma StopStepKeepsInv(s: State, t: State)
    requires Inv(s) && StopStep(s, t)
    ensures Inv(t) && ClientEffect(s, t)
  {
    StopStepEffect(s, t);
  }

  lemma JoinStepEffect(s: State, t: State)
    requires Inv(s) && JoinStep(s, t)
    ensures ClientEffect(s, t)
  {
  }

  lemma JoinStepKeepsInv(s: State, t: State)
    requires Inv(s) && JoinStep(s, t)
    ensures Inv(t) && ClientEffect(s, t)
  {
    JoinStepEffect(s, t);
  }

  lemma QueryStepKeepsInv(s: State, t: State)
    requires Inv(s) && QueryStep(s, t)
    ensures Inv(t) && ClientEffect(s, t)
  {
  }

  lemma ClientStepKeepsInv(s: State, t: State)
    requires Inv(s) && ClientStep(s, t)
    ensures Inv(t) && ClientEffect(s, t)
  {
    if CallStep(s, t) {
      CallStepKeepsInv(s, t);
    } else if StartStep(s, t) {
      StartStepKeepsInv(s, t);
    } else if StopStep(s, t) {
      StopStepKeepsInv(s, t);
    } else if JoinStep(s, t) {
      JoinStepKeepsInv(s, t);
    } else {
      QueryStepKeepsInv(s, t);
    }
  }

  lemma StepKeepsInv(s: State, t: State)
    requires Inv(s) && Step(s, t)
    ensures Inv(t)
    ensures if ClientStep(s, t) then ClientEffect(s, t) else EmuEffect(s, t)
  {
    if ClientStep(s, t) {
      ClientStepKeepsInv(s, t);
    } else {
      EmuStepKeepsInv(s, t);
    }
  }

  lemma {:induction false} RunKeepsInv(run: seq<State>, i: nat)
    requires IsRun(run) && i < |run|
    ensures Inv(run[i])
  {
    if i > 0 {
      RunKeepsInv(run, i - 1);
      assert StepAt(run, i);
      StepKeepsInv(run[i - 1], run[i]);
    }
  }

  /// Safety over every run

  /** Every assertion of the code, at the point where it is evaluated. */
  ghost predicate AssertionsHold(s: State) {
    && (s.emu.AssertJoinable? ==> s.mupen.Joinable?)
    && (s.client.StopAssert? ==> s.mupen.Running? || s.mupen.Paused?)
    && (s.client.JoinAssert? ==> s.mupen.Joinable?)
    && (s.client.StateRead? ==> s.mupen.Running? || s.mupen.Paused? || s.mupen.Joinable? || s.mupen.Stopped?)
    && (s.client.UnloadAssert? ==> s.mupen.Stopped?)
  }

  /** Locks are taken by a thread that does not hold the mutex; unlocks and state writes are made by its owner. */
  ghost predicate MutexDiscipline(s: State) {
    && (s.client.Locking() ==> s.owner != Client)
    && (s.emu.Locking() ==> s.owner != Emulation)
    && (s.client.Unlocking() ==> s.owner == Client)
    && (s.emu.Unlocking() ==> s.owner == Emulation)
    && (s.client.Writing(s.mupen) ==> s.owner == Client)
    && (s.emu.Writing() ==> s.owner == Emulation)
  }

  /** RUNNING first, then RUNNING and PAUSED in any mix, then JOINABLE once and last. */
  ghost predicate NotesInOrder(notes: seq<Note>) {
    notes == [] || Begun(notes) || Complete(notes)
  }

  lemma EveryRunIsSafe(run: seq<State>, i: nat)
    requires IsRun(run) && i < |run|
    ensures AssertionsHold(run[i]) && MutexDiscipline(run[i])
    ensures run[i].client.StopTest? ==> !run[i].mupen.Starting?
  {
    RunKeepsInv(run, i);
  }

  /** The state changes only in the hands of the thread that owns the mutex. */
  lemma ClientChangesTheStateAsOwner(run: seq<State>, i: nat)
    requires IsRun(run) && 0 < i < |run|
    requires ClientStep(run[i - 1], run[i]) && run[i].mupen != run[i - 1].mupen
    ensures run[i - 1].owner == run[i].owner == Client
  {
    RunKeepsInv(run, i - 1);
    ClientWritesAsOwner(run[i - 1], run[i]);
  }

  lemma ClientWritesAsOwner(s: State, t: State)
    requires Inv(s) && ClientStep(s, t) && t.mupen != s.mupen
    ensures s.owner == t.owner == Client
  {
    ClientStepKeepsInv(s, t);
  }

  lemma EmulationChangesTheStateAsOwner(run: seq<State>, i: nat)
    requires IsRun(run) && 0 < i < |run|
    requires EmuStep(run[i - 1], run[i]) && run[i].mupen != run[i - 1].mupen
    ensures run[i - 1].owner == run[i].owner == Emulation
  {
    RunKeepsInv(run, i - 1);
    EmuStepKeepsInv(run[i - 1], run[i]);
  }

  lemma OnlyJoinLeavesJoinable(run: seq<State>, i: nat)
    requires IsRun(run) && 0 < i < |run|
    requires run[i - 1].mupen.Joinable? && !run[i].mupen.Joinable?
    ensures run[i - 1].client.JoinMark? && run[i - 1].emu.NoThread? && run[i].mupen.Stopped?
  {
    RunKeepsInv(run, i - 1);
    assert StepAt(run, i);
    JoinableIsLeftByJoin(run[i - 1], run[i]);
  }

  lemma JoinableIsLeftByJoin(s: State, t: State)
    requires Inv(s) && Step(s, t) && s.mupen.Joinable? && !t.mupen.Joinable?
    ensures s.client.JoinMark? && s.emu.NoThread? && t.mupen.Stopped?
  {
    StepKeepsInv(s, t);
  }

  /** The notifications of a started run, complete exactly when nothing but the thread's return is left to come. */
  lemma NotificationsAreOrdered(run: seq<State>, i: nat)
    requires IsRun(run) && i < |run| && !run[i].emu.NoThread?
    ensures NotesInOrder(run[i].notes)
    ensures Complete(run[i].notes) <==> run[i].emu.Returning? || run[i].emu.Finished?
  {
    RunKeepsInv(run, i);
  }

  /** A client told by the notification alone may join, and finds what join asserts; nothing else need tell it. */
  lemma NotifiedClientMayJoin(run: seq<State>, i: nat)
    requires IsRun(run) && i < |run| && run[i].client.Idle? && NoteJoinable in run[i].notes
    ensures CallStep(run[i], run[i].(client := JoinTest))
    ensures run[i].mupen.Stopped? || run[i].mupen.Joinable?
    ensures run[i].emu.NoThread? || run[i].emu.Returning? || run[i].emu.Finished?
  {
    RunKeepsInv(run, i);
    MayJoinMeansOver(run[i]);
    if Begun(run[i].notes) {
      BegunIsNotOver(run[i].notes);
    }
  }

  /// No run gets stuck: every call returns

  /** The client waits for the emulation thread: for the mutex, for the signal, for the result, or for `Joinable`. */
  ghost predicate ClientWaits(s: State) {
    || (s.client.Locking() && !s.owner.Nobody?)
    || (s.client.StartWait? && !s.signalled)
    || (s.client.JoinGet? && !s.emu.Finished?)
    || Spinning(s)
  }

  ghost predicate Spinning(s: State) {
    (s.client.StopSpin? || s.client.StopRetry?) && !s.mupen.Joinable?
  }

  /** The emulation thread can step, and is not merely playing the game with nobody asking it to stop. */
  ghost predicate MustMove(s: State) {
    && !s.emu.NoThread? && !s.emu.Finished?
    && (s.emu.Live? ==> s.stopAsked)
    && (s.emu.Locking() ==> s.owner.Nobody?)
  }

  lemma WaitingIsForAWorkingThread(s: State)
    requires Inv(s) && ClientWaits(s)
    ensures MustMove(s)
  {
  }

  lemma WorkingThreadCanStep(s: State) returns (t: State)
    requires MustMove(s)
    ensures EmuStep(s, t)
  {
    t := match s.emu
      case TakeMutex => s.(owner := Emulation, emu := Signal)
      case Signal => s.(signalled := true, emu := Attach)
      case Attach => s.(emu := Fresh)
      case Fresh => s.(emu := RunTest)
      case RunTest => s.(emu := if s.mupen.Starting? then RunMark else RunNotify)
      case RunMark => s.(mupen := Running, emu := RunUnlock)
      case RunUnlock => s.(owner := Nobody, emu := RunNotify)
      case RunNotify => s.(notes := s.notes + [NoteRunning], emu := Live)
      case Live => s.(emu := HaltLock)
      case PauseLock => s.(owner := Emulation, emu := PauseMark)
      case PauseMark => s.(mupen := Paused, emu := PauseUnlock)
      case PauseUnlock => s.(owner := Nobody, emu := PauseNotify)
      case PauseNotify => s.(notes := s.notes + [NotePaused], emu := Live)
      case HaltLock => s.(owner := Emulation, emu := HaltMark)
      case HaltMark => s.(mupen := Joinable, emu := Halted)
      case Halted => s.(emu := Detach(false))
      case Detach(failed) => s.(emu := if failed then FailTest else AssertJoinable)
      case FailTest => s.(emu := FailMark(s.mupen.Starting?))
      case FailMark(early) => s.(mupen := Joinable, emu := FailUnlock(early))
      case FailUnlock(early) => s.(owner := Nobody, emu := FailNotify(early))
      case FailNotify(early) =>
        s.(notes := if early then s.notes + [NoteRunning] else s.notes, emu := JoinableNotify)
      case AssertJoinable => s.(emu := ExitUnlock)
      case ExitUnlock => s.(owner := Nobody, emu := JoinableNotify)
      case JoinableNotify => s.(notes := s.notes + [NoteJoinable], emu := Returning)
      case Returning => s.(emu := Finished)
      case _ => s;
  }

  /** A client in a call that does not wait has a step. */
  lemma UnhinderedClientCanStep(s: State) returns (t: State)
    requires !s.client.Idle? && !ClientWaits(s)
    ensures ClientStep(s, t)
  {
    t := match s.client
      case StartLock => s.(owner := Client, client := StartTest)
      case StartTest =>
        if !s.mupen.Stopped? then s.(client := StartBail) else s.(mupen := Starting, client := StartUnlock)
      case StartBail => s.(owner := Nobody, client := Idle)
      case StartUnlock => s.(owner := Nobody, client := StartSpawn)
      case StartSpawn =>
        s.(emu := TakeMutex, signalled := false, stopAsked := false, notes := [], known := Unknown, client := StartWait)
      case StartWait => s.(client := Idle)
      case StopLock => s.(owner := Client, client := StopTest)
      case StopTest =>
        s.(client := if s.mupen.Stopped? || s.mupen.Stopping? || s.mupen.Joinable? then StopBail else StopAssert)
      case StopBail => s.(owner := Nobody, known := AtLeastEnded(s.known), client := Idle)
      case StopAssert => s.(client := StopCommand)
      case StopCommand => s.(stopAsked := true, client := StopMark)
      case StopMark => s.(mupen := Stopping, client := StopUnlock)
      case StopUnlock => s.(owner := Nobody, client := StopSpin)
      case StopSpin =>
        if s.mupen.Joinable? then s.(known := AtLeastEnded(s.known), client := Idle) else s.(client := StopRetry)
      case StopRetry => s.(stopAsked := true, client := StopSpin)
      case JoinTest => if s.mupen.Stopped? then s.(known := Joined, client := Idle) else s.(client := JoinAssert)
      case JoinAssert => s.(client := JoinLock)
      case JoinLock => s.(owner := Client, client := JoinGet)
      case JoinGet => s.(emu := NoThread, client := JoinMark)
      case JoinMark => s.(mupen := Stopped, client := JoinUnlock)
      case JoinUnlock => s.(owner := Nobody, known := Joined, client := Idle)
      case StateLock => s.(owner := Client, client := StateRead)
      case StateRead =>
        s.(client := StateUnlock,
           known := if s.mupen.Stopped? then Joined
                    else if s.mupen.Joinable? then AtLeastEnded(s.known) else s.known)
      case StateUnlock => s.(owner := Nobody, client := Idle)
      case UnloadLock => s.(owner := Client, client := UnloadAssert)
      case UnloadAssert => s.(client := UnloadUnlock)
      case UnloadUnlock => s.(owner := Nobody, client := Idle);
  }

  /** No deadlock: every reachable state has a step, and while the client is in a call one that belongs to the call. */
  lemma EveryStateHasAStep(run: seq<State>, i: nat) returns (t: State)
    requires IsRun(run) && i < |run|
    ensures Step(run[i], t)
    ensures !run[i].client.Idle? && ClientWaits(run[i]) ==> EmuStep(run[i], t)
    ensures !run[i].client.Idle? && !ClientWaits(run[i]) ==> ClientStep(run[i], t)
  {
    var s := run[i];
    RunKeepsInv(run, i);
    if s.client.Idle? {
      t := s.(client := StartLock);
    } else if ClientWaits(s) {
      WaitingIsForAWorkingThread(s);
      t := WorkingThreadCanStep(s);
    } else {
      t := UnhinderedClientCanStep(s);
    }
  }

  function ClientRank(s: State): nat {
    match s.client
    case Idle => 0
    case StartBail | StartWait | StopBail | JoinUnlock | StateUnlock | UnloadUnlock => 1
    case StartSpawn | JoinMark | StateRead | UnloadAssert => 2
    case StartUnlock | JoinGet | StateLock | UnloadLock => 3
    case StartTest | JoinLock | StopUnlock => 4
    case StartLock | JoinAssert | StopMark => 5
    case JoinTest | StopCommand => 6
    case StopAssert => 7
    case StopTest => 8
    case StopLock => 9
    case StopSpin => if s.mupen.Joinable? then 1 else 3
    case StopRetry => if s.mupen.Joinable? then 2 else 3
  }

  /** One while the current call may still spawn a thread. */
  function SpawnRank(s: State): nat {
    if s.client.StartLock? || s.client.StartTest? || s.client.StartUnlock? || s.client.StartSpawn? then 1 else 0
  }

  ghost predicate Lower(t: State, s: State) {
    || SpawnRank(t) < SpawnRank(s)
    || (SpawnRank(t) == SpawnRank(s) && EmuRank(t) < EmuRank(s))
    || (SpawnRank(t) == SpawnRank(s) && EmuRank(t) == EmuRank(s) && ClientRank(t) < ClientRank(s))
  }

  lemma StartStepIsLower(s: State, t: State)
    requires StartStep(s, t) && !Spinning(s)
    ensures Lower(t, s) && (t.client.Idle? || t.client.Call() == s.client.Call())
  {
  }

  lemma StopStepIsLower(s: State, t: State)
    requires StopStep(s, t) && !Spinning(s)
    ensures Lower(t, s) && (t.client.Idle? || t.client.Call() == s.client.Call())
  {
  }

  lemma JoinStepIsLower(s: State, t: State)
    requires JoinStep(s, t) && !Spinning(s)
    ensures Lower(t, s) && (t.client.Idle? || t.client.Call() == s.client.Call())
  {
  }

  lemma QueryStepIsLower(s: State, t: State)
    requires QueryStep(s, t) && !Spinning(s)
    ensures Lower(t, s) && (t.client.Idle? || t.client.Call() == s.client.Call())
  {
  }

  lemma ClientStepIsLower(s: State, t: State)
    requires ClientStep(s, t) && !s.client.Idle? && !Spinning(s)
    ensures Lower(t, s) && (t.client.Idle? || t.client.Call() == s.client.Call())
  {
    if StartStep(s, t) {
      StartStepIsLower(s, t);
    } else if StopStep(s, t) {
      StopStepIsLower(s, t);
    } else if JoinStep(s, t) {
      JoinStepIsLower(s, t);
    } else {
      QueryStepIsLower(s, t);
    }
  }

  lemma SpinGoesOn(s: State, t: State)
    requires ClientStep(s, t) && Spinning(s)
    ensures t.client.Call() == s.client.Call()
    ensures Spinning(t) && EmuRank(t) == EmuRank(s) && ClientRank(t) == ClientRank(s)
  {
  }

  type Behaviour = nat -> State

  ghost predicate StepsAt(b: Behaviour, i: nat) {
    Step(b(i), b(i + 1))
  }

  ghost predicate EmuMovesAt(b: Behaviour, i: nat) {
    EmuStep(b(i), b(i + 1))
  }

  /** For every time, a time no earlier at which the emulation thread moves or need not move. */
  type Schedule = nat -> nat

  ghost predicate ServedAt(b: Behaviour, i: nat) {
    EmuMovesAt(b, i) || !MustMove(b(i))
  }

  ghost predicate ServedFrom(b: Behaviour, turn: Schedule, i: nat) {
    ServedAt(b, turn(i))
  }

  /** A thread that must move is not passed over for ever. */
  ghost predicate IsFairBehaviour(b: Behaviour, turn: Schedule) {
    && Init(b(0))
    && (forall i: nat {:trigger StepsAt(b, i)} :: StepsAt(b, i))
    && (forall i: nat :: i <= turn(i))
    && (forall i: nat {:trigger ServedFrom(b, turn, i)} :: ServedFrom(b, turn, i))
  }

  lemma {:induction false} BehaviourKeepsInv(b: Behaviour, turn: Schedule, i: nat)
    requires IsFairBehaviour(b, turn)
    ensures Inv(b(i))
  {
    if i > 0 {
      BehaviourKeepsInv(b, turn, i - 1);
      assert StepsAt(b, i - 1);
      StepKeepsInv(b(i - 1), b(i));
    }
  }

  ghost predicate InCall(b: Behaviour, i: nat, j: nat) {
    forall k :: i <= k < j ==> !b(k).client.Idle? && b(k).client.Call() == b(i).client.Call()
  }

  ghost predicate SameRank(t: State, s: State) {
    SpawnRank(t) == SpawnRank(s) && EmuRank(t) == EmuRank(s) && ClientRank(t) == ClientRank(s)
  }

  /** Within a call every step lowers the rank, except the client's spinning while the other thread must move. */
  lemma CallProgress(b: Behaviour, turn: Schedule, i: nat)
    requires IsFairBehaviour(b, turn) && !b(i).client.Idle?
    ensures b(i + 1).client.Idle? || b(i + 1).client.Call() == b(i).client.Call()
    ensures
      || Lower(b(i + 1), b(i))
      || (&& Spinning(b(i)) && Spinning(b(i + 1)) && SameRank(b(i + 1), b(i))
          && MustMove(b(i)) && !EmuMovesAt(b, i))
  {
    BehaviourKeepsInv(b, turn, i);
    assert StepsAt(b, i);
    if EmuMovesAt(b, i) {
      EmuStepIsLower(b(i), b(i + 1));
    } else {
      ClientProgress(b(i), b(i + 1));
    }
  }

  lemma EmuStepIsLower(s: State, t: State)
    requires Inv(s) && EmuStep(s, t)
    ensures Lower(t, s) && t.client == s.client
  {
    EmuStepKeepsInv(s, t);
  }

  lemma ClientProgress(s: State, t: State)
    requires Inv(s) && ClientStep(s, t) && !s.client.Idle?
    ensures t.client.Idle? || t.client.Call() == s.client.Call()
    ensures Lower(t, s) || (Spinning(s) && Spinning(t) && SameRank(t, s) && MustMove(s))
  {
    if Spinning(s) {
      SpinGoesOn(s, t);
      WaitingIsForAWorkingThread(s);
    } else {
      ClientStepIsLower(s, t);
    }
  }

  /** The rank falls no later than the turn of the emulation thread. */
  lemma {:induction false} RankFalls(b: Behaviour, turn: Schedule, from: nat, i: nat) returns (k: nat)
    requires IsFairBehaviour(b, turn) && !b(i).client.Idle? && from <= i <= turn(from)
    ensures i < k && InCall(b, i, k) && Lower(b(k), b(i))
    ensures b(k).client.Idle? || b(k).client.Call() == b(i).client.Call()
    decreases turn(from) - i
  {
    CallProgress(b, turn, i);
    if Lower(b(i + 1), b(i)) {
      k := i + 1;
    } else {
      assert i < turn(from) by { assert ServedFrom(b, turn, from); }
      k := RankFalls(b, turn, from, i + 1);
    }
  }

  /** In every fair behaviour every call of the client returns. */
  lemma {:induction false} EveryCallReturns(b: Behaviour, turn: Schedule, i: nat) returns (j: nat)
    requires IsFairBehaviour(b, turn)
    ensures i <= j && b(j).client.Idle? && InCall(b, i, j)
    decreases SpawnRank(b(i)), EmuRank(b(i)), ClientRank(b(i))
  {
    if b(i).client.Idle? {
      j := i;
    } else {
      var k := RankFalls(b, turn, i, i);
      j := EveryCallReturns(b, turn, k);
    }
  }

  /** The step that ends a call is the client's own. */
  lemma LastStepOfACall(b: Behaviour, turn: Schedule, j: nat)
    requires IsFairBehaviour(b, turn) && j > 0 && b(j).client.Idle? && !b(j - 1).client.Idle?
    ensures Inv(b(j)) && ClientStep(b(j - 1), b(j))
  {
    BehaviourKeepsInv(b, turn, j - 1);
    assert StepsAt(b, j - 1);
    StepKeepsInv(b(j - 1), b(j));
    if EmuStep(b(j - 1), b(j)) {
      EmuStepKeepsInv(b(j - 1), b(j));
    }
  }

  /** stop returns, and leaves the emulator where join may be called. */
  lemma StopEnds(b: Behaviour, turn: Schedule, i: nat) returns (j: nat)
    requires IsFairBehaviour(b, turn) && b(i).client.Call() == StopCall
    ensures i < j && b(j).client.Idle? && InCall(b, i, j)
    ensures b(j).mupen.Stopped? || b(j).mupen.Joinable?
    ensures b(j).known != Unknown
  {
    j := EveryCallReturns(b, turn, i);
    LastStepOfACall(b, turn, j);
  }

  /** join returns, and leaves the emulator stopped, without a thread, and the mutex free. */
  lemma JoinEnds(b: Behaviour, turn: Schedule, i: nat) returns (j: nat)
    requires IsFairBehaviour(b, turn) && b(i).client.Call() == JoinCall
    ensures i < j && b(j).client.Idle? && InCall(b, i, j)
    ensures b(j).mupen.Stopped? && b(j).emu.NoThread? && b(j).owner.Nobody? && b(j).known.Joined?
  {
    j := EveryCallReturns(b, turn, i);
    LastStepOfACall(b, turn, j);
  }

  ghost predicate IdleBetween(b: Behaviour, i: nat, j: nat) {
    forall k :: i <= k <= j ==> b(k).client.Idle?
  }

  /** While the client is idle nothing takes back what its calls have told it: after stop it may call join. */
  lemma {:induction false} StopAllowsJoin(b: Behaviour, turn: Schedule, i: nat, j: nat)
    requires IsFairBehaviour(b, turn) && i <= j && IdleBetween(b, i, j) && !b(i).known.Unknown?
    ensures b(j).known == b(i).known
    ensures CallStep(b(j), b(j).(client := JoinTest))
  {
    if i < j {
      StopAllowsJoin(b, turn, i, j - 1);
      BehaviourKeepsInv(b, turn, j - 1);
      assert StepsAt(b, j - 1);
      assert b(j - 1).client.Idle? && b(j).client.Idle?;
      IdleKeepsKnowledge(b(j - 1), b(j));
    }
    assert b(j).client.Idle?;
    KnowingAllowsJoin(b(j));
  }

  lemma KnowingAllowsJoin(s: State)
    requires s.client.Idle? && !s.known.Unknown?
    ensures CallStep(s, s.(client := JoinTest))
  {
  }

  lemma IdleKeepsKnowledge(s: State, t: State)
    requires Inv(s) && Step(s, t) && s.client.Idle? && t.client.Idle?
    ensures t.known == s.known
  {
    if EmuStep(s, t) {
      EmuStepKeepsInv(s, t);
    }
  }

  /** The client, once back from a call at `j`, stays idle until `m` and then calls join. */
  ghost predicate CallsJoin(b: Behaviour, j: nat, m: nat) {
    j <= m && IdleBetween(b, j, m) && b(m + 1).client.JoinTest?
  }

  /** What a client does that calls stop at `i` and join next, after however long a pause. */
  ghost predicate StopsThenJoins(b: Behaviour, i: nat, pause: Schedule) {
    && b(i).client.Idle? && b(i + 1).client.StopLock?
    && forall j {:trigger InCall(b, i + 1, j)} :: i < j && InCall(b, i + 1, j) && b(j).client.Idle? ==>
         CallsJoin(b, j, pause(j))
  }

  /**
    The destructor: whenever an idle client calls stop and then join, both return, in a state with the emulator stopped,
    no thread, the mutex free, and unload_rom allowed.
  */
  lemma StopThenJoinEnds(b: Behaviour, turn: Schedule, i: nat, pause: Schedule) returns (j: nat, k: nat)
    requires IsFairBehaviour(b, turn) && StopsThenJoins(b, i, pause)
    ensures i < j < k && b(j).client.Idle? && b(k).client.Idle?
    ensures InCall(b, i + 1, j) && CallsJoin(b, j, pause(j)) && InCall(b, pause(j) + 1, k)
    ensures CallStep(b(j), b(j).(client := JoinTest))
    ensures b(k).mupen.Stopped? && b(k).emu.NoThread? && b(k).owner.Nobody?
    ensures CallStep(b(k), b(k).(client := UnloadLock))
  {
    j := StopEnds(b, turn, i + 1);
    StopAllowsJoin(b, turn, j, j);
    k := JoinEnds(b, turn, pause(j) + 1);
  }

  /// What a call does to the game

  ghost predicate SameGame(s: State, t: State) {
    && t.emu == s.emu && t.mupen == s.mupen && t.notes == s.notes && t.events == s.events
    && t.signalled == s.signalled && t.stopAsked == s.stopAsked
  }

  /** Between `i` and `j` only the emulation thread itself has changed anything about the game. */
  ghost predicate LeftAlone(b: Behaviour, i: nat, j: nat) {
    forall k :: i <= k < j ==> EmuMovesAt(b, k) || SameGame(b(k), b(k + 1))
  }

  /** A call of start that finds, or has found, the emulator stopped. */
  ghost predicate StartGoing(s: State) {
    || ((s.client.StartLock? || s.client.StartTest?) && s.mupen.Stopped?)
    || s.client.StartUnlock? || s.client.StartSpawn? || s.client.StartWait?
  }

  /** A call of start that finds, or has found, it in another state. */
  ghost predicate StartRefused(s: State) {
    || ((s.client.StartLock? || s.client.StartTest?) && !s.mupen.Stopped?)
    || s.client.StartBail?
  }

  /** A thread is there and has the mutex for as long as the state is Starting. */
  ghost predicate IsStarted(s: State) {
    && !s.emu.NoThread? && s.signalled && !s.mupen.Stopped?
    && (s.mupen.Starting? ==> s.owner.Emulation?)
  }

  lemma StartGoesOn(s: State, t: State)
    requires Inv(s) && Step(s, t) && StartGoing(s)
    ensures StartGoing(t) || (t.client.Idle? && IsStarted(t))
  {
    StepKeepsInv(s, t);
    if EmuStep(s, t) {
      EmuStepKeepsInv(s, t);
    }
  }

  lemma RefusalGoesOn(s: State, t: State)
    requires Inv(s) && Step(s, t) && StartRefused(s)
    ensures StartRefused(t) || t.client.Idle?
    ensures EmuStep(s, t) || SameGame(s, t)
  {
    if EmuStep(s, t) {
      EmuStepKeepsInv(s, t);
    }
  }

  lemma {:induction false} StartGoesThrough(b: Behaviour, turn: Schedule, i: nat, j: nat)
    requires IsFairBehaviour(b, turn) && StartGoing(b(i)) && i < j && InCall(b, i, j)
    ensures StartGoing(b(j)) || (b(j).client.Idle? && IsStarted(b(j)))
    decreases j
  {
    if i < j - 1 {
      StartGoesThrough(b, turn, i, j - 1);
    }
    BehaviourKeepsInv(b, turn, j - 1);
    assert StepsAt(b, j - 1);
    assert !b(j - 1).client.Idle?;
    StartGoesOn(b(j - 1), b(j));
  }

  lemma {:induction false} RefusalGoesThrough(b: Behaviour, turn: Schedule, i: nat, j: nat)
    requires IsFairBehaviour(b, turn) && StartRefused(b(i)) && i <= j && InCall(b, i, j)
    ensures StartRefused(b(j)) || b(j).client.Idle?
    ensures LeftAlone(b, i, j)
    decreases j
  {
    if i < j {
      RefusalGoesThrough(b, turn, i, j - 1);
      BehaviourKeepsInv(b, turn, j - 1);
      assert StepsAt(b, j - 1);
      assert !b(j - 1).client.Idle?;
      RefusalGoesOn(b(j - 1), b(j));
    }
  }

  /**
    start returns. Called in the state Stopped it has made a thread, and nobody can come between that thread and the
    state before it is no longer Starting; called in any other state it has left the game alone.
  */
  lemma StartEnds(b: Behaviour, turn: Schedule, i: nat) returns (j: nat)
    requires IsFairBehaviour(b, turn) && b(i).client.StartLock?
    ensures i < j && b(j).client.Idle? && InCall(b, i, j)
    ensures if b(i).mupen.Stopped? then b(i).emu.NoThread? && IsStarted(b(j)) else LeftAlone(b, i, j)
  {
    j := EveryCallReturns(b, turn, i);
    BehaviourKeepsInv(b, turn, i);
    if b(i).mupen.Stopped? {
      StartGoesThrough(b, turn, i, j);
    } else {
      RefusalGoesThrough(b, turn, i, j);
    }
  }

  /** A thread that has notified nobody yet is on its way to do so. */
  lemma UnannouncedMoves(s: State)
    requires Inv(s) && !s.emu.NoThread? && s.notes == []
    ensures MustMove(s)
  {
  }

  ghost predicate Announced(s: State) {
    s.notes == [NoteRunning] && ((s.emu.Live? && InGame(s.mupen)) || (s.emu.JoinableNotify? && s.mupen.Joinable?))
  }

  lemma UnannouncedStep(s: State, t: State)
    requires Inv(s) && Step(s, t) && !s.emu.NoThread? && s.notes == []
    ensures !t.emu.NoThread? && (t.notes == [] || Announced(t))
    ensures if EmuStep(s, t) then EmuRank(t) < EmuRank(s) else EmuRank(t) == EmuRank(s)
  {
    StepKeepsInv(s, t);
    if EmuStep(s, t) {
      EmuStepKeepsInv(s, t);
      AnnouncingStep(s, t);
    }
  }

  lemma AnnouncingStep(s: State, t: State)
    requires Inv(s) && EmuStep(s, t) && s.notes == []
    ensures t.notes == [] || Announced(t)
  {
  }

  /** Every game that is started is announced as running, be it that it plays or that it has failed. */
  lemma {:induction false} StartedGameIsAnnounced(b: Behaviour, turn: Schedule, from: nat, i: nat) returns (k: nat)
    requires IsFairBehaviour(b, turn) && from <= i <= turn(from)
    requires !b(i).emu.NoThread? && b(i).notes == []
    ensures i < k && Announced(b(k))
    decreases EmuRank(b(i)), turn(from) - i
  {
    BehaviourKeepsInv(b, turn, i);
    UnannouncedMoves(b(i));
    assert StepsAt(b, i);
    UnannouncedStep(b(i), b(i + 1));
    if b(i + 1).notes != [] {
      k := i + 1;
    } else if EmuMovesAt(b, i) {
      k := StartedGameIsAnnounced(b, turn, i + 1, i + 1);
    } else {
      assert i < turn(from) by { assert ServedFrom(b, turn, from); }
      k := StartedGameIsAnnounced(b, turn, from, i + 1);
    }
  }

  /// A game from its start to its end

  ghost predicate Reaches(run: seq<State>, s: State) {
    IsRun(run) && run[|run| - 1] == s
  }

  lemma Onward(run: seq<State>, s: State, t: State) returns (longer: seq<State>)
    requires Reaches(run, s) && Step(s, t)
    ensures Reaches(longer, t) && run <= longer
  {
    longer := run + [t];
    forall i | 0 < i < |longer| ensures StepAt(longer, i) {
      assert i < |run| ==> StepAt(run, i);
    }
  }

  lemma ClientOnward(run: seq<State>, s: State, t: State) returns (longer: seq<State>)
    requires Reaches(run, s) && ClientStep(s, t)
    ensures Reaches(longer, t) && run <= longer
  {
    longer := Onward(run, s, t);
  }

  lemma EmuOnward(run: seq<State>, s: State, t: State) returns (longer: seq<State>)
    requires Reaches(run, s) && EmuStep(s, t)
    ensures Reaches(longer, t) && run <= longer
  {
    longer := Onward(run, s, t);
  }

  ghost predicate Playing(s: State) {
    s.mupen.Running? && s.client.Idle? && s.owner.Nobody? && s.emu.Live? && s.notes == [NoteRunning]
  }

  lemma StoppedIsFree(run: seq<State>, s: State)
    requires Reaches(run, s) && s.client.Idle? && s.mupen.Stopped?
    ensures s.owner.Nobody?
  {
    RunKeepsInv(run, |run| - 1);
  }

  /** From any idle state with the emulator stopped a call of start can lead to a running game. */
  lemma StartLeadsToPlaying(run: seq<State>, s: State) returns (longer: seq<State>, t: State)
    requires Reaches(run, s) && s.client.Idle? && s.mupen.Stopped?
    ensures Reaches(longer, t) && run <= longer && Playing(t)
  {
    StoppedIsFree(run, s);
    var s1 := s.(client := StartLock);
    var s2 := s1.(owner := Client, client := StartTest);
    var s3 := s2.(mupen := Starting, client := StartUnlock);
    var s4 := s3.(owner := Nobody, client := StartSpawn);
    var s5 := s4.(emu := TakeMutex, signalled := false, stopAsked := false, notes := [], known := Unknown,
                  client := StartWait);
    longer := ClientOnward(run, s, s1);
    longer := ClientOnward(longer, s1, s2);
    longer := ClientOnward(longer, s2, s3);
    longer := ClientOnward(longer, s3, s4);
    longer := ClientOnward(longer, s4, s5);
    longer, t := BootLeadsToPlaying(longer, s5);
  }

  lemma BootLeadsToPlaying(run: seq<State>, s: State) returns (longer: seq<State>, t: State)
    requires Reaches(run, s) && s.client.StartWait? && s.owner.Nobody? && s.emu.TakeMutex?
    requires s.mupen.Starting? && s.notes == []
    ensures Reaches(longer, t) && run <= longer && Playing(t)
  {
    var s1 := s.(owner := Emulation, emu := Signal);
    var s2 := s1.(signalled := true, emu := Attach);
    var s3 := s2.(client := Idle);
    var s4 := s3.(emu := Fresh);
    var s5 := s4.(emu := RunTest);
    longer := EmuOnward(run, s, s1);
    longer := EmuOnward(longer, s1, s2);
    longer := ClientOnward(longer, s2, s3);
    longer := EmuOnward(longer, s3, s4);
    longer := EmuOnward(longer, s4, s5);
    longer, t := RunningIsAnnounced(longer, s5);
  }

  lemma RunningIsAnnounced(run: seq<State>, s: State) returns (longer: seq<State>, t: State)
    requires Reaches(run, s) && s.client.Idle? && s.emu.RunTest? && s.mupen.Starting? && s.notes == []
    ensures Reaches(longer, t) && run <= longer && Playing(t)
  {
    var s1 := s.(emu := RunMark);
    var s2 := s1.(mupen := Running, emu := RunUnlock);
    var s3 := s2.(owner := Nobody, emu := RunNotify);
    t := s3.(notes := s3.notes + [NoteRunning], emu := Live);
    longer := EmuOnward(run, s, s1);
    longer := EmuOnward(longer, s1, s2);
    longer := EmuOnward(longer, s2, s3);
    longer := EmuOnward(longer, s3, t);
  }

  ghost predicate Over(s: State) {
    && s.mupen.Joinable? && s.client.Idle? && s.owner.Nobody? && s.emu.Returning?
    && Complete(s.notes) && !s.known.Unknown?
  }

  /** Once it runs a call of stop can lead to its end. */
  lemma StopLeadsToOver(run: seq<State>, s: State) returns (longer: seq<State>, t: State)
    requires Reaches(run, s) && Playing(s)
    ensures Reaches(longer, t) && run <= longer && Over(t)
  {
    var s1 := s.(client := StopLock);
    var s2 := s1.(owner := Client, client := StopTest);
    var s3 := s2.(client := StopAssert);
    longer := ClientOnward(run, s, s1);
    longer := ClientOnward(longer, s1, s2);
    longer := ClientOnward(longer, s2, s3);
    longer, t := CommandLeadsToOver(longer, s3);
  }

  lemma CommandLeadsToOver(run: seq<State>, s: State) returns (longer: seq<State>, t: State)
    requires Reaches(run, s) && s.client.StopAssert? && s.emu.Live? && s.notes == [NoteRunning]
    ensures Reaches(longer, t) && run <= longer && Over(t)
  {
    var s1 := s.(client := StopCommand);
    var s2 := s1.(stopAsked := true, client := StopMark);
    var s3 := s2.(mupen := Stopping, client := StopUnlock);
    var s4 := s3.(owner := Nobody, client := StopSpin);
    longer := ClientOnward(run, s, s1);
    longer := ClientOnward(longer, s1, s2);
    longer := ClientOnward(longer, s2, s3);
    longer := ClientOnward(longer, s3, s4);
    longer, t := HaltLeadsToOver(longer, s4);
  }

  lemma HaltLeadsToOver(run: seq<State>, s: State) returns (longer: seq<State>, t: State)
    requires Reaches(run, s) && s.client.StopSpin? && s.owner.Nobody? && s.emu.Live? && s.notes == [NoteRunning]
    ensures Reaches(longer, t) && run <= longer && Over(t)
  {
    var s1 := s.(emu := HaltLock);
    var s2 := s1.(owner := Emulation, emu := HaltMark);
    var s3 := s2.(mupen := Joinable, emu := Halted);
    var s4 := s3.(known := AtLeastEnded(s3.known), client := Idle);
    longer := EmuOnward(run, s, s1);
    longer := EmuOnward(longer, s1, s2);
    longer := EmuOnward(longer, s2, s3);
    longer := ClientOnward(longer, s3, s4);
    longer, t := DetachLeadsToOver(longer, s4);
  }

  lemma DetachLeadsToOver(run: seq<State>, s: State) returns (longer: seq<State>, t: State)
    requires Reaches(run, s) && s.client.Idle? && s.mupen.Joinable? && s.emu.Halted? && s.notes == [NoteRunning]
    requires !s.known.Unknown?
    ensures Reaches(longer, t) && run <= longer && Over(t)
  {
    var s1 := s.(emu := Detach(false));
    var s2 := s1.(emu := AssertJoinable);
    longer := EmuOnward(run, s, s1);
    longer := EmuOnward(longer, s1, s2);
    longer, t := ExitLeadsToOver(longer, s2);
  }

  lemma ExitLeadsToOver(run: seq<State>, s: State) returns (longer: seq<State>, t: State)
    requires Reaches(run, s) && s.client.Idle? && s.mupen.Joinable? && s.emu.AssertJoinable?
    requires s.notes == [NoteRunning] && !s.known.Unknown?
    ensures Reaches(longer, t) && run <= longer && Over(t)
  {
    var s1 := s.(emu := ExitUnlock);
    var s2 := s1.(owner := Nobody, emu := JoinableNotify);
    t := s2.(notes := [NoteRunning, NoteJoinable], emu := Returning);
    assert s2.notes + [NoteJoinable] == t.notes;
    ShortGame();
    longer := EmuOnward(run, s, s1);
    longer := EmuOnward(longer, s1, s2);
    longer := EmuOnward(longer, s2, t);
  }

  lemma ShortGame()
    ensures Complete([NoteRunning, NoteJoinable])
  {
  }

  /** From any idle state with the emulator stopped, the next game can be played and can be ended. */
  lemma NextGame(run: seq<State>) returns (longer: seq<State>, i: nat)
    requires IsRun(run) && run[|run| - 1].client.Idle? && run[|run| - 1].mupen.Stopped?
    ensures IsRun(longer) && run <= longer && |run| <= i < |longer| - 1
    ensures Playing(longer[i])
    ensures Over(longer[|longer| - 1])
    ensures CallStep(longer[|longer| - 1], longer[|longer| - 1].(client := JoinTest))
  {
    var s, t;
    longer, s := StartLeadsToPlaying(run, run[|run| - 1]);
    i := |longer| - 1;
    longer, t := StopLeadsToOver(longer, s);
  }

  /** A run that plays a game and ends it. */
  lemma AGameIsPlayed() returns (run: seq<State>, i: nat)
    ensures IsRun(run) && i < |run| - 1 && Playing(run[i]) && Over(run[|run| - 1])
  {
    run, i := NextGame([State(Stopped, Nobody, Idle, NoThread, false, false, 0, [], Joined)]);
  }
}
