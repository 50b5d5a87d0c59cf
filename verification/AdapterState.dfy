// The camera adapter's command state machine (hardware/libcamera/BaseCameraAdapter.cpp):
// setState / commitState / rollbackState around a hook, and the rollback loops.
// State values are the bit patterns of hardware/libcamera/inc/CameraHal.h.
module AdapterState {

  const PREVIEW_ACTIVE: bv8 := 0x04
  const AF_ACTIVE: bv8 := 0x40
  const ZOOM_ACTIVE: bv8 := 0x80
  const FLAGS: bv8 := 0xC0

  const INITIALIZED: bv8 := 0x01
  const LOADED_PREVIEW: bv8 := 0x03
  const PREVIEW: bv8 := 0x05
  const LOADED_CAPTURE: bv8 := 0x0D
  const CAPTURE: bv8 := 0x15
  const VIDEO: bv8 := 0x25
  const VIDEO_LOADED_CAPTURE: bv8 := 0x2D
  const VIDEO_CAPTURE: bv8 := 0x35

  const NO_ERROR: int := 0
  const EINVAL: int := 22
  const INVALID_OPERATION: int := -38
  const NO_INIT: int := -19

  datatype Op =
    | StartPreview | StopPreview | StartVideo | StopVideo | StartImageCapture | StopImageCapture
    | PerformAutofocus | CancelAutofocus | PreviewFlushBuffers | StartSmoothZoom | StopSmoothZoom
    | UseBuffersPreview | UseBuffersImageCapture | QueryResolutionPreview | QueryBufferSizeImageCapture
    | StartFd | StopFd | SwitchToExecuting | Unsupported

  datatype Option<T> = None | Some(value: T)

  function Base(s: bv8): bv8 { s & 0x3F }
  function Flags(s: bv8): bv8 { s & FLAGS }

  // The first switch of setState.
  function BaseTarget(s: bv8, op: Op): Option<bv8> {
    var f := Flags(s);
    if Base(s) == INITIALIZED then
      match op
      case UseBuffersPreview => Some(LOADED_PREVIEW)
      case QueryResolutionPreview => Some(INITIALIZED)
      case QueryBufferSizeImageCapture => Some(INITIALIZED)
      case _ => None
    else if Base(s) == LOADED_PREVIEW then
      match op
      case StartPreview => Some(PREVIEW)
      case StopPreview => Some(INITIALIZED)
      case QueryBufferSizeImageCapture => Some(LOADED_PREVIEW)
      case _ => None
    else if Base(s) == PREVIEW then
      match op
      case StopPreview => if f != 0 then None else Some(INITIALIZED)
      case UseBuffersImageCapture => Some(LOADED_CAPTURE | f)
      case StartVideo => Some(VIDEO | f)
      case QueryBufferSizeImageCapture => Some(PREVIEW | f)
      case _ => None
    else if Base(s) == LOADED_CAPTURE then
      if op == StartImageCapture then Some(CAPTURE | f) else None
    else if Base(s) == CAPTURE then
      if op == StopImageCapture then Some(PREVIEW | f) else None
    else if Base(s) == VIDEO then
      match op
      case StopVideo => Some(PREVIEW | f)
      case UseBuffersImageCapture => Some(VIDEO_LOADED_CAPTURE | f)
      case QueryBufferSizeImageCapture => Some(VIDEO | f)
      case _ => None
    else if Base(s) == VIDEO_LOADED_CAPTURE then
      if op == StartImageCapture then Some(VIDEO_CAPTURE | f) else None
    else if Base(s) == VIDEO_CAPTURE then
      if op == StopImageCapture then Some(VIDEO | f) else None
    else None
  }

  // The autofocus and zoom switches, tried when the first one refuses.
  function FlagTarget(s: bv8, op: Op): Option<bv8> {
    if s & PREVIEW_ACTIVE == 0 then None
    else if s & AF_ACTIVE != 0 && op == CancelAutofocus then Some(s & 0xBF)
    else if s & AF_ACTIVE == 0 && op == PerformAutofocus then Some(s | AF_ACTIVE)
    else if s & ZOOM_ACTIVE != 0 && op == StopSmoothZoom then Some(s & 0x7F)
    else if s & ZOOM_ACTIVE == 0 && op == StartSmoothZoom then Some(s | ZOOM_ACTIVE)
    else None
  }

  // The next state setState proposes, or None if it refuses the command.
  function Target(s: bv8, op: Op): Option<bv8> {
    var t := BaseTarget(s, op);
    if t.Some? then t else FlagTarget(s, op)
  }

  // Commands that take the state lock.
  predicate Locks(op: Op) { !(op.StartFd? || op.StopFd? || op.SwitchToExecuting? || op.Unsupported?) }

  predicate UsesBuffers(op: Op) { op.UseBuffersPreview? || op.UseBuffersImageCapture? }

  // A command with its outside circumstances: is a descriptor given, and what its hook returns.
  datatype Command = Command(op: Op, hasDesc: bool, hook: int)

  datatype Adapter = Adapter(state: bv8, next: bv8, recording: bool, locked: bool, commits: nat, rollbacks: nat)

  // The hook of a command: new recording flag and status. Video commands use the base class.
  function Hook(recording: bool, c: Command): (bool, int) {
    if c.op == StartVideo then (true, if recording then NO_INIT else NO_ERROR)
    else if c.op == StopVideo then (false, if recording then NO_ERROR else NO_INIT)
    else (recording, c.hook)
  }

  // ----- What a command does, as a whole -----

  predicate Known(s: bv8) {
    var b := Base(s);
    b == INITIALIZED || b == LOADED_PREVIEW || b == PREVIEW || b == LOADED_CAPTURE || b == CAPTURE ||
    b == VIDEO || b == VIDEO_LOADED_CAPTURE || b == VIDEO_CAPTURE
  }

  predicate VideoState(s: bv8) {
    Base(s) == VIDEO || Base(s) == VIDEO_LOADED_CAPTURE || Base(s) == VIDEO_CAPTURE
  }

  predicate LoadedState(s: bv8) {
    Base(s) == LOADED_PREVIEW || Base(s) == LOADED_CAPTURE || Base(s) == VIDEO_LOADED_CAPTURE
  }

  // What holds whenever the lock is free.
  predicate Inv(a: Adapter) {
    && !a.locked && a.next == a.state
    && WellFormed(a.state)
    && (a.recording <==> VideoState(a.state))
  }

  predicate Refused(a: Adapter, c: Command) { Target(a.state, c.op).None? }

  // The command gets past the lock.
  predicate Enters(c: Command) { Locks(c.op) && (UsesBuffers(c.op) ==> c.hasDesc) }

  // The command's effect on an adapter that is not in the middle of another command.
  ghost predicate Outcome(a: Adapter, c: Command, a': Adapter, ret: int) {
    && !a'.locked && a'.next == a'.state
    && (!Enters(c) ==>
          a' == a && ret == if Locks(c.op) then -EINVAL else if c.op == Unsupported then NO_ERROR else c.hook)
    && (Enters(c) ==> a'.commits + a'.rollbacks == a.commits + a.rollbacks + 1)
    && (Enters(c) && Refused(a, c) ==>
          && a'.state == a.state && a'.recording == a.recording
          && ret == if UsesBuffers(c.op) then c.hook else INVALID_OPERATION)
    && (Enters(c) && !Refused(a, c) ==>
          && ret == Hook(a.recording, c).1
          && a'.state == (if ret == NO_ERROR then Target(a.state, c.op).value else a.state)
          && a'.recording == (if c.op == StartVideo then true else if c.op == StopVideo then false else a.recording))
  }

  // A well-formed state: autofocus and zoom are active only where the preview is.
  predicate WellFormed(s: bv8) { Known(s) && (Flags(s) != 0 ==> s & PREVIEW_ACTIVE != 0) }

  // How a transition relates to recording.
  predicate TracksVideo(s: bv8, op: Op, t: bv8) {
    && (op == StartVideo ==> VideoState(t) && !VideoState(s))
    && (op == StopVideo ==> !VideoState(t) && VideoState(s))
    && (op != StartVideo && op != StopVideo ==> (VideoState(t) <==> VideoState(s)))
  }

  lemma BaseTargetKnown(s: bv8, op: Op)
    requires WellFormed(s) && BaseTarget(s, op).Some?
    ensures WellFormed(BaseTarget(s, op).value) && TracksVideo(s, op, BaseTarget(s, op).value)
  {
  }

  lemma FlagTargetKnown(s: bv8, op: Op)
    requires WellFormed(s) && FlagTarget(s, op).Some?
    ensures WellFormed(FlagTarget(s, op).value) && TracksVideo(s, op, FlagTarget(s, op).value)
  {
  }

  // Every legal transition keeps the state well-formed and tracks recording.
  lemma TargetKnown(s: bv8, op: Op)
    requires WellFormed(s) && Target(s, op).Some?
    ensures WellFormed(Target(s, op).value) && TracksVideo(s, op, Target(s, op).value)
  {
    hide BaseTarget, FlagTarget, WellFormed, TracksVideo;
    if BaseTarget(s, op).Some? {
      BaseTargetKnown(s, op);
    } else {
      FlagTargetKnown(s, op);
    }
  }

  lemma OutcomeKeepsInv(a: Adapter, c: Command, a': Adapter, ret: int)
    requires Inv(a) && Outcome(a, c, a', ret)
    ensures Inv(a')
  {
    hide BaseTarget, FlagTarget, WellFormed, VideoState;
    if Enters(c) && !Refused(a, c) {
      TargetKnown(a.state, c.op);
    }
  }

  // ----- What each command does to the state bits -----

  // The base state a command leads to from another one, per command.
  predicate Leads(from: bv8, op: Op, to: bv8) {
    match op
    case UseBuffersPreview => from == INITIALIZED && to == LOADED_PREVIEW
    case StartPreview => from == LOADED_PREVIEW && to == PREVIEW
    case StopPreview => (from == LOADED_PREVIEW || from == PREVIEW) && to == INITIALIZED
    case UseBuffersImageCapture =>
      (from == PREVIEW && to == LOADED_CAPTURE) || (from == VIDEO && to == VIDEO_LOADED_CAPTURE)
    case StartImageCapture =>
      (from == LOADED_CAPTURE && to == CAPTURE) || (from == VIDEO_LOADED_CAPTURE && to == VIDEO_CAPTURE)
    case StopImageCapture => (from == CAPTURE && to == PREVIEW) || (from == VIDEO_CAPTURE && to == VIDEO)
    case StartVideo => from == PREVIEW && to == VIDEO
    case StopVideo => from == VIDEO && to == PREVIEW
    case QueryResolutionPreview => from == INITIALIZED && to == from
    case QueryBufferSizeImageCapture =>
      (from == INITIALIZED || from == LOADED_PREVIEW || from == PREVIEW || from == VIDEO) && to == from
    case _ => false
  }

  predicate FlagOp(op: Op) {
    op == PerformAutofocus || op == CancelAutofocus || op == StartSmoothZoom || op == StopSmoothZoom
  }

  // A base command is accepted exactly where it leads somewhere, except that the preview
  // cannot be stopped while a flag is active; it leaves the flags alone.
  lemma BaseCommand(s: bv8, op: Op)
    requires WellFormed(s) && !FlagOp(op)
    ensures Target(s, op).Some? ==> Leads(Base(s), op, Base(Target(s, op).value))
    ensures Target(s, op).Some? ==> Flags(Target(s, op).value) == Flags(s)
    ensures Target(s, op).Some? <==>
              (exists to :: Leads(Base(s), op, to)) && !(op == StopPreview && Base(s) == PREVIEW && Flags(s) != 0)
  {
    hide Leads;
    BaseAccepts(s, op);
    if Target(s, op).Some? {
      assert Leads(Base(s), op, Base(Target(s, op).value));
    }
  }

  lemma BaseAccepts(s: bv8, op: Op)
    requires WellFormed(s) && !FlagOp(op)
    ensures Target(s, op).Some? ==>
      Leads(Base(s), op, Base(Target(s, op).value)) && Flags(Target(s, op).value) == Flags(s)
    ensures Target(s, op).None? && !(op == StopPreview && Base(s) == PREVIEW && Flags(s) != 0) ==>
      forall to :: !Leads(Base(s), op, to)
    ensures op == StopPreview && Base(s) == PREVIEW && Flags(s) != 0 ==> Target(s, op).None?
  {
  }

  // Autofocus and zoom start and stop exactly where the preview is active and the flag is not
  // there yet, or is; they change that flag and nothing else.
  lemma FlagCommand(s: bv8, op: Op)
    requires WellFormed(s) && FlagOp(op)
    ensures var bit := if op == PerformAutofocus || op == CancelAutofocus then 0x40 else 0x80;
            var on := op == PerformAutofocus || op == StartSmoothZoom;
      && (Target(s, op).Some? <==> s & 0x04 != 0 && (s & bit == 0 <==> on))
      && (Target(s, op).Some? ==> Target(s, op).value == if on then s | bit else s & !bit)
  {
  }

  // What a command does, in full, if its descriptor is there and its hook succeeds: accepted
  // commands commit the state they lead to; refused ones, and those outside the machine, none.
  lemma CommandCommits(a: Adapter, c: Command, a': Adapter, ret: int)
    requires Inv(a) && Outcome(a, c, a', ret) && c.hasDesc && c.hook == NO_ERROR
    ensures c.op != StartFd && c.op != StopFd && c.op != SwitchToExecuting && c.op != Unsupported ==>
      && a'.commits + a'.rollbacks == a.commits + a.rollbacks + 1
      && (Target(a.state, c.op).Some? ==> ret == NO_ERROR && a'.state == Target(a.state, c.op).value)
      && (Target(a.state, c.op).None? ==> a'.state == a.state)
      && (Target(a.state, c.op).None? && c.op != UseBuffersPreview && c.op != UseBuffersImageCapture ==>
            ret == INVALID_OPERATION)
    ensures c.op == StartFd || c.op == StopFd || c.op == SwitchToExecuting || c.op == Unsupported ==>
      a' == a && ret == NO_ERROR
  {
    hide Target, WellFormed;
    if Target(a.state, c.op).Some? {
      VideoCommand(a, c);
    }
  }

  // Recording starts only from outside the video states and stops only inside, so the base
  // class's own hooks succeed whenever setState accepts.
  lemma VideoCommand(a: Adapter, c: Command)
    requires Inv(a) && Target(a.state, c.op).Some?
    ensures c.op == StartVideo ==> Hook(a.recording, c).1 == NO_ERROR
    ensures c.op == StopVideo ==> Hook(a.recording, c).1 == NO_ERROR
  {
  }

  // The rollback command, by the state: zoom first, then autofocus, then the base state.
  lemma StepDownLeads(s: bv8)
    requires WellFormed(s)
    ensures s & 0x80 != 0 ==> StepDown(s) == Some(StopSmoothZoom)
    ensures s & 0x80 == 0 && s & 0x40 != 0 ==> StepDown(s) == Some(CancelAutofocus)
    ensures Flags(s) == 0 && StepDown(s).Some? ==>
      exists to :: Leads(s, StepDown(s).value, to) && Measure(to) + 1 == Measure(s)
    ensures Flags(s) == 0 ==> (StepDown(s).None? <==> s == INITIALIZED || LoadedState(s))
  {
    if Flags(s) == 0 && StepDown(s).Some? {
      var to := if s == PREVIEW then INITIALIZED else if s == VIDEO_CAPTURE then VIDEO else PREVIEW;
      assert Leads(s, StepDown(s).value, to);
    }
  }

  class BaseCameraAdapter {
    var mAdapterState: bv8
    var mNextState: bv8
    var mRecording: bool
    var locked: bool       // mLock is held
    var commits: nat
    var rollbacks: nat

    ghost function Value(): Adapter
      reads this
    {
      Adapter(mAdapterState, mNextState, mRecording, locked, commits, rollbacks)
    }

    constructor ()
      ensures Inv(Value()) && mAdapterState == INITIALIZED
    {
      mAdapterState, mNextState, mRecording, locked, commits, rollbacks := INITIALIZED, INITIALIZED, false, false, 0, 0;
    }

    // Takes the lock and proposes the next state; a refusal leaves mNextState alone.
    method SetState(op: Op) returns (ret: int)
      requires !locked
      modifies this`locked, this`mNextState
      ensures locked
      ensures match Target(mAdapterState, op)
              case Some(t) => ret == NO_ERROR && mNextState == t
              case None => ret == INVALID_OPERATION && mNextState == old(mNextState)
    {
      locked := true;
      match Target(mAdapterState, op) {
        case Some(t) =>
          mNextState := t;
          ret := NO_ERROR;
        case None =>
          ret := INVALID_OPERATION;
      }
    }

    method CommitState() returns (ret: int)
      requires locked
      modifies this`locked, this`mAdapterState, this`commits
      ensures !locked && ret == NO_ERROR && mAdapterState == mNextState && commits == old(commits) + 1
    {
      mAdapterState, locked, commits, ret := mNextState, false, commits + 1, NO_ERROR;
    }

    method RollbackState() returns (ret: int)
      requires locked
      modifies this`locked, this`mNextState, this`rollbacks
      ensures !locked && ret == NO_ERROR && mNextState == mAdapterState && rollbacks == old(rollbacks) + 1
    {
      mNextState, locked, rollbacks, ret := mAdapterState, false, rollbacks + 1, NO_ERROR;
    }

    method StartVideoCapture() returns (ret: int)
      modifies this`mRecording
      ensures mRecording && ret == if old(mRecording) then NO_INIT else NO_ERROR
    {
      ret := if mRecording then NO_INIT else NO_ERROR;
      mRecording := true;
    }

    method StopVideoCapture() returns (ret: int)
      modifies this`mRecording
      ensures !mRecording && ret == if old(mRecording) then NO_ERROR else NO_INIT
    {
      ret := if mRecording then NO_ERROR else NO_INIT;
      mRecording := false;
    }

    method SendCommand(c: Command) returns (ret: int)
      requires !locked && mNextState == mAdapterState
      modifies this
      ensures Outcome(old(Value()), c, Value(), ret)
      ensures Inv(old(Value())) ==> Inv(Value())
    {
      hide Target, WellFormed, VideoState;
      ghost var a := Value();
      if !Locks(c.op) {
        ret := if c.op == Unsupported then NO_ERROR else c.hook;
      } else if UsesBuffers(c.op) && !c.hasDesc {
        ret := -EINVAL;
      } else {
        ret := Transact(c);
      }
      if Inv(a) {
        OutcomeKeepsInv(a, c, Value(), ret);
      }
    }

    // The part of sendCommand between taking and releasing the lock.
    method Transact(c: Command) returns (ret: int)
      requires !locked && mNextState == mAdapterState && Enters(c)
      modifies this
      ensures Outcome(old(Value()), c, Value(), ret)
    {
      hide Target;
      ret := SetState(c.op);
      ret := RunHook(c, ret);
      if ret == NO_ERROR {
        ret := CommitState();
      } else {
        var _ := RollbackState();
      }
    }

    // The command's hook, between setState and the commit or rollback. useBuffers runs, and
    // its status counts, even if setState refused.
    method RunHook(c: Command, proposed: int) returns (ret: int)
      modifies this`mRecording
      ensures if UsesBuffers(c.op) then mRecording == old(mRecording) && ret == c.hook
              else if proposed != NO_ERROR then mRecording == old(mRecording) && ret == proposed
              else (mRecording, ret) == Hook(old(mRecording), c)
    {
      ret := proposed;
      if UsesBuffers(c.op) {
        ret := c.hook;
      } else if ret == NO_ERROR {
        if c.op == StartVideo {
          ret := StartVideoCapture();
        } else if c.op == StopVideo {
          ret := StopVideoCapture();
        } else {
          ret := c.hook;
        }
      }
    }

    // Any run of commands with any hook outcomes keeps the invariant.
    method RunCommands(cs: seq<Command>)
      requires Inv(Value())
      modifies this
      ensures Inv(Value())
      ensures commits + rollbacks == old(commits + rollbacks) + EnterCount(cs)
    {
      hide Inv, Outcome;
      for i := 0 to |cs|
        invariant Inv(Value()) && commits + rollbacks == old(commits + rollbacks) + EnterCount(cs[..i])
      {
        InvFree(Value());
        ghost var a := Value();
        var ret := SendCommand(cs[i]);
        OutcomeCounts(a, cs[i], Value(), ret);
        assert cs[..i + 1][..i] == cs[..i];
      }
      assert cs[..|cs|] == cs;
    }

    // The ways forward, and back: with succeeding hooks, preview, capture, video and capture
    // during video are reached by the commands meant for them, whatever flags are on.
    method PreviewSession()
      requires Inv(Value()) && mAdapterState == INITIALIZED
      modifies this
      ensures Inv(Value()) && mAdapterState == PREVIEW
    {
      hide Inv, Outcome, Target, WellFormed;
      Drive(UseBuffersPreview, LOADED_PREVIEW);
      Drive(StartPreview, PREVIEW);
    }

    method CaptureSession()
      requires Inv(Value()) && (Base(mAdapterState) == PREVIEW || Base(mAdapterState) == VIDEO)
      modifies this
      ensures Inv(Value()) && mAdapterState == old(mAdapterState)
    {
      hide Inv, Outcome, Target, WellFormed, Flags, Base;
      ghost var before := mAdapterState;
      var video := Base(mAdapterState) == VIDEO;
      Drive(UseBuffersImageCapture, if video then VIDEO_LOADED_CAPTURE else LOADED_CAPTURE);
      Drive(StartImageCapture, if video then VIDEO_CAPTURE else CAPTURE);
      Drive(StopImageCapture, if video then VIDEO else PREVIEW);
      SameBits(before, mAdapterState);
    }

    method VideoSession()
      requires Inv(Value()) && Base(mAdapterState) == PREVIEW
      modifies this
      ensures Inv(Value()) && mAdapterState == old(mAdapterState)
    {
      hide Inv, Outcome, Target, WellFormed, Flags, Base;
      ghost var before := mAdapterState;
      Drive(StartVideo, VIDEO);
      CaptureSession();
      Drive(StopVideo, PREVIEW);
      SameBits(before, mAdapterState);
    }

    // A base command with a succeeding hook.
    method Drive(op: Op, ghost to: bv8)
      requires Inv(Value()) && Leads(Base(mAdapterState), op, to) && op != StopPreview
      modifies this
      ensures Inv(Value()) && Base(mAdapterState) == to && Flags(mAdapterState) == Flags(old(mAdapterState))
    {
      hide Inv, Outcome, Target, WellFormed, Flags, Base;
      ghost var a := Value();
      var c := Command(op, true, NO_ERROR);
      InvFree(a);
      DriveTarget(a, op, to);
      var ret := SendCommand(c);
      CommandCommits(a, c, Value(), ret);
    }

    // ----- Rollback -----

    // One command towards INITIALIZED; hook is what its hook returns.
    method RollbackToPreviousState(hook: int) returns (ret: int)
      requires Inv(Value())
      modifies this
      ensures Inv(Value())
      ensures old(mAdapterState) == INITIALIZED ==> ret == NO_ERROR && mAdapterState == old(mAdapterState)
      ensures StepDown(old(mAdapterState)).None? && old(mAdapterState) != INITIALIZED ==>
                ret == INVALID_OPERATION && mAdapterState == old(mAdapterState)
      ensures StepDown(old(mAdapterState)).Some? && ret == NO_ERROR ==>
                Target(old(mAdapterState), StepDown(old(mAdapterState)).value) == Some(mAdapterState)
      ensures StepDown(old(mAdapterState)).Some? && ret != NO_ERROR ==> mAdapterState == old(mAdapterState)
      ensures StepDown(old(mAdapterState)).Some? && hook == NO_ERROR ==> ret == NO_ERROR
    {
      var s := mAdapterState;
      StepDownAccepted(s, mRecording);
      match StepDown(s) {
        case Some(op) =>
          ret := SendCommand(Command(op, false, hook));
        case None =>
          ret := if s == INITIALIZED then NO_ERROR else INVALID_OPERATION;
      }
    }

    // hooks(i) is what the hook of the i-th command returns; n counts the commands that succeeded.
    method RollbackToInitializedState(hooks: nat -> int) returns (ret: int, n: nat)
      requires Inv(Value())
      modifies this
      ensures Inv(Value())
      ensures ret == NO_ERROR <==> mAdapterState == INITIALIZED
      ensures n <= Measure(old(mAdapterState)) <= 5
      ensures (forall i :: hooks(i) == NO_ERROR) && !LoadedState(old(mAdapterState)) ==>
                ret == NO_ERROR && mAdapterState == INITIALIZED && n == Measure(old(mAdapterState))
      ensures (forall i :: hooks(i) == NO_ERROR) && LoadedState(old(mAdapterState)) ==>
                && ret == INVALID_OPERATION && mAdapterState == Base(old(mAdapterState))
                && n == Measure(old(mAdapterState))
    {
      hide Inv, Rolling, Measure, LoadedState, Base, Flags, StepDown, Target, WellFormed;
      ret, n := NO_ERROR, 0;
      ghost var s0, ok := mAdapterState, forall i :: hooks(i) == NO_ERROR;
      RollStart(Value());
      while mAdapterState != INITIALIZED && ret == NO_ERROR
        invariant Inv(Value()) && Rolling(mAdapterState, s0, n, ret, ok)
        decreases Measure(mAdapterState), if ret == NO_ERROR then 1 else 0
      {
        ghost var a := Value();
        ret := RollbackToPreviousState(hooks(n));
        RollStep(a, s0, n, mAdapterState, ret, ok, hooks(n));
        if ret == NO_ERROR {
          n := n + 1;
        }
      }
      RollEnd(Value(), s0, n, ret, ok);
    }

    // The same, stopping at PREVIEW; states are compared as numbers.
    method RollbackToPreviewState(hooks: nat -> int) returns (ret: int, n: nat)
      requires Inv(Value())
      modifies this
      ensures Inv(Value())
      ensures old(mAdapterState) <= PREVIEW ==> ret == NO_ERROR && n == 0 && mAdapterState == old(mAdapterState)
      ensures old(mAdapterState) > PREVIEW ==> (ret == NO_ERROR <==> mAdapterState == PREVIEW) && n <= 4
      ensures old(mAdapterState) > PREVIEW && (forall i :: hooks(i) == NO_ERROR) ==>
                if LoadedState(old(mAdapterState))
                then ret == INVALID_OPERATION && mAdapterState == Base(old(mAdapterState))
                else ret == NO_ERROR && n == Measure(old(mAdapterState)) - 1
    {
      hide Inv, Rolling, Measure, LoadedState, Base, Flags, StepDown, Target, WellFormed;
      ret, n := NO_ERROR, 0;
      ghost var s0, ok := mAdapterState, forall i :: hooks(i) == NO_ERROR;
      RollStart(Value());
      while mAdapterState > PREVIEW && ret == NO_ERROR
        invariant Inv(Value()) && Rolling(mAdapterState, s0, n, ret, ok)
        invariant s0 <= PREVIEW ==> mAdapterState == s0 && n == 0 && ret == NO_ERROR
        invariant s0 > PREVIEW ==> mAdapterState >= PREVIEW && (ret != NO_ERROR ==> mAdapterState > PREVIEW)
        decreases Measure(mAdapterState), if ret == NO_ERROR then 1 else 0
      {
        ghost var a := Value();
        AbovePreview(a);
        ret := RollbackToPreviousState(hooks(n));
        RollStep(a, s0, n, mAdapterState, ret, ok, hooks(n));
        if ret == NO_ERROR {
          n := n + 1;
        }
      }
      if s0 > PREVIEW {
        RollEndPreview(Value(), s0, n, ret, ok);
      }
    }
  }

  lemma AbovePreview(a: Adapter)
    requires Inv(a) && a.state > PREVIEW
    ensures StepDown(a.state).Some? && Target(a.state, StepDown(a.state).value).Some? ==>
              Target(a.state, StepDown(a.state).value).value >= PREVIEW
  {
  }

  lemma RollEndPreview(a: Adapter, s0: bv8, n: nat, ret: int, ok: bool)
    requires Inv(a) && Rolling(a.state, s0, n, ret, ok) && s0 > PREVIEW
    requires a.state >= PREVIEW && (ret == NO_ERROR ==> a.state == PREVIEW) && (ret != NO_ERROR ==> a.state > PREVIEW)
    requires Measure(s0) <= 5
    ensures n <= 4
    ensures ok ==> if LoadedState(s0) then ret == INVALID_OPERATION && a.state == Base(s0)
                   else ret == NO_ERROR && n == Measure(s0) - 1
  {
    BaseAlone(a.state);
  }

  // The rollback loop: n commands succeeded since state s0; ret is the status of the last one sent.
  predicate Rolling(s: bv8, s0: bv8, n: nat, ret: int, ok: bool) {
    && n + Measure(s) <= Measure(s0) && (ret == NO_ERROR ==> n + Measure(s) == Measure(s0))
    && (LoadedState(s) <==> LoadedState(s0)) && (LoadedState(s0) ==> Base(s) == Base(s0))
    && (ret != NO_ERROR ==> s != INITIALIZED)
    && (ok && ret != NO_ERROR ==>
          ret == INVALID_OPERATION && LoadedState(s) && Flags(s) == 0 && n + Measure(s) == Measure(s0))
  }

  lemma RollStart(a: Adapter)
    requires Inv(a)
    ensures Rolling(a.state, a.state, 0, NO_ERROR, true) && Rolling(a.state, a.state, 0, NO_ERROR, false)
    ensures Measure(a.state) <= 5
  {
  }

  lemma RollStep(a: Adapter, s0: bv8, n: nat, t: bv8, ret: int, ok: bool, hook: int)
    requires Inv(a) && a.state != INITIALIZED && Rolling(a.state, s0, n, NO_ERROR, ok) && (ok ==> hook == NO_ERROR)
    requires StepDown(a.state).None? ==> ret == INVALID_OPERATION && t == a.state
    requires StepDown(a.state).Some? && ret == NO_ERROR ==> Target(a.state, StepDown(a.state).value) == Some(t)
    requires StepDown(a.state).Some? && ret != NO_ERROR ==> t == a.state
    requires StepDown(a.state).Some? && hook == NO_ERROR ==> ret == NO_ERROR
    ensures Rolling(t, s0, if ret == NO_ERROR then n + 1 else n, ret, ok)
    ensures ret == NO_ERROR ==> Measure(t) < Measure(a.state)
  {
    hide Inv, Target, StepDown, Measure, LoadedState, Base, Flags;
    StepDownDescends(a);
  }

  lemma RollEnd(a: Adapter, s0: bv8, n: nat, ret: int, ok: bool)
    requires Inv(a) && Rolling(a.state, s0, n, ret, ok) && (a.state == INITIALIZED || ret != NO_ERROR)
    ensures ret == NO_ERROR <==> a.state == INITIALIZED
    ensures n <= Measure(s0) <= 5
    ensures ok ==> n == Measure(s0)
    ensures ok && !LoadedState(s0) ==> ret == NO_ERROR && a.state == INITIALIZED
    ensures ok && LoadedState(s0) ==> ret == INVALID_OPERATION && a.state == Base(s0)
  {
    MeasureBound(a);
    BaseAlone(a.state);
  }

  // The command rollbackToPreviousState sends, if it has one.
  function StepDown(s: bv8): Option<Op> {
    if s & ZOOM_ACTIVE != 0 then Some(StopSmoothZoom)
    else if s & AF_ACTIVE != 0 then Some(CancelAutofocus)
    else if s == PREVIEW then Some(StopPreview)
    else if s == CAPTURE then Some(StopImageCapture)
    else if s == VIDEO then Some(StopVideo)
    else if s == VIDEO_CAPTURE then Some(StopImageCapture)
    else None
  }

  // Commands still to send: one per active flag and one per level of the base state.
  function Measure(s: bv8): nat {
    (if s & ZOOM_ACTIVE != 0 then 1 else 0) + (if s & AF_ACTIVE != 0 then 1 else 0) +
    if Base(s) == PREVIEW then 1 else if Base(s) == CAPTURE || Base(s) == VIDEO then 2
    else if Base(s) == VIDEO_CAPTURE then 3 else 0
  }

  lemma MeasureBound(a: Adapter)
    requires Inv(a)
    ensures Measure(a.state) <= 5
    ensures Measure(a.state) == 0 <==> a.state == INITIALIZED || (LoadedState(a.state) && Flags(a.state) == 0)
  {
  }

  lemma BaseAlone(s: bv8)
    ensures Flags(s) == 0 ==> s == Base(s)
  {
  }

  // setState accepts the chosen command, and its hook can succeed.
  lemma StepDownAccepted(s: bv8, recording: bool)
    requires WellFormed(s) && (recording <==> VideoState(s))
    ensures StepDown(s).Some? ==> Target(s, StepDown(s).value).Some? && StepDown(s).value != StartVideo
    ensures StepDown(s) == Some(StopVideo) ==> recording
    ensures StepDown(s).Some? ==> Locks(StepDown(s).value) && !UsesBuffers(StepDown(s).value)
  {
  }

  // It lowers the measure by one, and keeps a LOADED base state where it is.
  lemma StepDownDescends(a: Adapter)
    requires Inv(a)
    ensures var s := a.state;
      && (StepDown(s).None? ==> s == INITIALIZED || (LoadedState(s) && Flags(s) == 0))
      && (StepDown(s).Some? && Target(s, StepDown(s).value).Some? ==>
            var t := Target(s, StepDown(s).value).value;
            && Measure(t) + 1 == Measure(s)
            && (LoadedState(s) <==> LoadedState(t)) && (LoadedState(s) ==> Base(t) == Base(s)))
  {
  }

  lemma SameBits(s: bv8, t: bv8)
    ensures Base(s) == Base(t) && Flags(s) == Flags(t) ==> s == t
  {
  }

  lemma DriveTarget(a: Adapter, op: Op, to: bv8)
    requires Inv(a) && Leads(Base(a.state), op, to) && op != StopPreview
    ensures Target(a.state, op).Some? && Base(Target(a.state, op).value) == to
    ensures Flags(Target(a.state, op).value) == Flags(a.state)
    ensures op != StartFd && op != StopFd && op != SwitchToExecuting && op != Unsupported
  {
    hide Target, WellFormed, Flags, Base;
    BaseCommand(a.state, op);
  }

  function EnterCount(cs: seq<Command>): nat {
    if cs == [] then 0 else EnterCount(cs[..|cs| - 1]) + if Enters(cs[|cs| - 1]) then 1 else 0
  }

  lemma InvFree(a: Adapter)
    requires Inv(a)
    ensures !a.locked && a.next == a.state
  {
  }

  lemma OutcomeCounts(a: Adapter, c: Command, a': Adapter, ret: int)
    requires Outcome(a, c, a', ret)
    ensures a'.commits + a'.rollbacks == a.commits + a.rollbacks + if Enters(c) then 1 else 0
  {
  }
}
