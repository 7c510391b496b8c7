/**
 The platform-neutral lifecycle engine: the order of forward steps, the point at which the
 update may still be undone, and the point after which it may not.
 */
module Engine {
  import opened Receipts
  import opened Transaction
  import opened Coordinators

  // ---------------------------------------------------------------- the lifecycle as a table

  /** The callback that follows a finished one, or nothing where the engine returns. */
  function Next(call: Call): Option<Step> {
    match call.step
    case Accepting => if call.ok then Some(AwaitingExit) else None
    case AwaitingExit => if call.ok then Some(Promoting) else None
    case Promoting => Some(if call.ok then Registering else Restoring)
    case Registering => Some(if call.ok then Starting(false) else Restoring)
    case Starting(restoring) =>
      if restoring then Some(if call.ok then Awaiting(Receipt(RestoredVerify, Intent)) else Holding)
      else Some(if call.ok then Awaiting(Receipt(Verify, Intent)) else StoppingStart)
    case Awaiting(expected) => Some(NextAwaited(expected, call.ok))
    case Looking => Some(if call.ok then Holding else Stopping)
    case Stopping => Some(if call.ok then Reconciling else Holding)
    case Reconciling => if call.ok then Some(Restoring) else None
    case StoppingStart => if call.ok then Some(Restoring) else None
    case AwaitingAck => Some(if call.ok then Cleaning else Holding)
    case Cleaning => Some(Holding)
    case Restoring => Some(if call.ok then Starting(true) else Holding)
    case Holding => None
  }

  function NextAwaited(expected: Receipt, ok: bool): Step {
    match (expected.kind, expected.outcome)
    case (Verify, Intent) => if ok then Awaiting(Receipt(Verify, Completed)) else Looking
    case (Verify, Completed) => if ok then AwaitingAck else Holding
    case (RestoredVerify, Intent) => if ok then Awaiting(Receipt(RestoredVerify, Completed)) else Holding
    case _ => Holding
  }

  predicate Follows(calls: seq<Call>, step: Step) {
    if calls == [] then step == Accepting else Next(calls[|calls| - 1]) == Some(step)
  }

  /** Every callback is the one that the table asks for. */
  predicate Scripted(calls: seq<Call>) {
    forall i | 0 <= i < |calls| :: Follows(calls[..i], calls[i].step)
  }

  /** No deadline could be set, or the table asks for nothing more. */
  predicate AtItsEnd(calls: seq<Call>) {
    calls == [] || Next(calls[|calls| - 1]) == None
  }

  /** The last verification receipt of the restored application, or the finished cleanup. */
  predicate Concludes(call: Call) {
    call.ok && (call.step == Cleaning || call.step == Awaiting(Receipt(RestoredVerify, Completed)))
  }

  /** The installation failed, or a candidate that was started has provably stopped. */
  predicate AsksForUndo(call: Call) {
    || (call.step == Promoting && !call.ok)
    || (call.step == Registering && !call.ok)
    || (call.step == StoppingStart && call.ok)
    || (call.step == Reconciling && call.ok)
  }

  predicate NoneAsks(calls: seq<Call>, from: nat, to: nat)
    requires to <= |calls|
  {
    forall i | from <= i < to :: !AsksForUndo(calls[i])
  }

  predicate NoneConcludes(calls: seq<Call>) {
    forall i | 0 <= i < |calls| :: !Concludes(calls[i])
  }

  lemma OneMore(calls: seq<Call>, call: Call, from: nat)
    ensures var more := calls + [call];
            && (Scripted(calls) && Follows(calls, call.step) ==> Scripted(more))
            && (NoneAsks(calls, from, |calls|) && !AsksForUndo(call) ==> NoneAsks(more, from, |more|))
            && (NoneConcludes(more) <==> NoneConcludes(calls) && !Concludes(call))
            && (forall step :: Follows(more, step) <==> Next(call) == Some(step))
            && (AtItsEnd(more) <==> Next(call) == None)
  {
    hide Next, AsksForUndo, Concludes;
    var more := calls + [call];
    forall i | 0 <= i < |calls|
      ensures more[..i] == calls[..i] && more[i] == calls[i]
    {
    }
    assert more[..|calls|] == calls && more[|calls|] == call;
  }

  lemma StillNoneAsks(calls: seq<Call>, longer: seq<Call>, from: nat)
    requires calls <= longer && NoneAsks(calls, from, |calls|) && NoneAsks(longer, |calls|, |longer|)
    ensures NoneAsks(longer, from, |longer|)
  {
    hide AsksForUndo;
    forall i | from <= i < |calls|
      ensures longer[i] == calls[i]
    {
    }
  }

  // ------------------------------------------------------------------ what is promised

  /** The process itself holds the last receipt of a completed update or of a completed restoration. */
  predicate Finished(c: Coordinator)
    reads c
  {
    c.sequence == c.world.Length() && (c.world.forward == 14 || c.world.restore == 6)
  }

  predicate NewVersionInstalled(w: World) {
    w.forward == 14 && w.restore == 0 && w.acknowledged
    && w.disk == Disk(Holds(Candidate), Absent, Absent, Gone, PreparedFile)
  }

  predicate OldVersionRestored(w: World) {
    w.restore == 6 && w.forward <= 9 && w.disk.managed == Holds(Current) && w.disk.registration == PreviousFile
  }

  /** The restoration is recorded as completed, and the previous version is in place. */
  predicate BroughtBackTo(w: World) {
    w.restore >= 2 && w.disk.managed == Holds(Current) && w.disk.registration == PreviousFile
  }

  lemma RecordedAsRestored(w: World)
    requires Inv(w) && w.restore >= 2
    ensures BroughtBackTo(w)
  {
  }

  /** What may be undone: the candidate has not been verified and nothing of it is running. */
  predicate Undoable(c: Coordinator)
    reads c
  {
    && c.world.restore == 0 && 3 <= c.sequence <= 9 && c.world.forward <= 11
    && !c.world.oldApp && !c.world.successor.Live() && c.world.restored == NotStarted
    && !c.supervisor
  }

  /** The table has been followed, and a successful end has not been reached. */
  predicate UnderWay(c: Coordinator)
    reads c
  {
    Scripted(c.calls) && NoneConcludes(c.calls)
  }

  /** The callback that has just returned asks for the update to be undone, and no earlier one did. */
  predicate UndoAsked(c: Coordinator)
    reads c
  {
    && UnderWay(c) && Follows(c.calls, Restoring) && |c.calls| > 0
    && var last := |c.calls| - 1;
       NoneAsks(c.calls, 0, last) && c.calls[last].operation == c.operations && c.calls[last].free == c.SlotFree()
  }

  /** The last callback: lets go of the supervisor, and releases its runtime if the update ends well. */
  method LetGo(c: Coordinator, release: bool, ghost from: nat)
    requires c.Valid() && Scripted(c.calls) && Follows(c.calls, Holding) && NoneAsks(c.calls, from, |c.calls|)
    modifies c`world, c`effects, c`operations, c`supervisor, c`releaseAllowed, c`releaseCompleted, c`calls
    ensures c.Valid() && old(c.effects) <= c.effects && old(c.operations) <= c.operations
    ensures Drifts(old(c.world), c.world)
    ensures c.releaseAllowed == (release || old(c.releaseAllowed))
    ensures c.releaseCompleted && !old(c.releaseCompleted) ==> c.native && c.releaseAllowed
    ensures c.WorksFrom(old(c.operations)) && old(c.supervisor) && c.native && release ==> c.releaseCompleted
    ensures old(c.calls) <= c.calls && Scripted(c.calls) && AtItsEnd(c.calls) && NoneAsks(c.calls, from, |c.calls|)
    ensures NoneConcludes(c.calls) <==> NoneConcludes(old(c.calls))
  {
    hide Follows, Scripted, NoneAsks, NoneConcludes, AtItsEnd;
    if release { c.releaseAllowed := true; }
    ghost var calls := c.calls;
    c.HoldRuntime();
    OneMore(calls, c.calls[|calls|], from);
  }

  /** Waits until the restored application has verified itself. */
  method AwaitRestoredVerification(c: Coordinator) returns (ok: bool)
    requires c.Valid() && c.world.restore >= 4 && c.sequence == c.world.forward + 4
    requires UnderWay(c) && Follows(c.calls, Awaiting(Receipt(RestoredVerify, Intent)))
    modifies c`world, c`effects, c`sequence, c`operations, c`calls
    ensures c.Valid() && old(c.effects) <= c.effects && old(c.operations) <= c.operations
    ensures c.world.forward == old(c.world).forward && c.world.restore >= 4 && c.sequence <= c.world.Length()
    ensures ok <==> c.sequence == c.world.forward + 6
    ensures old(c.calls) < c.calls && Scripted(c.calls) && Follows(c.calls, Holding)
    ensures NoneAsks(c.calls, |old(c.calls)|, |c.calls|)
    ensures ok <==> !NoneConcludes(c.calls)
  {
    hide Run, ValidRun, DiskFits, Classify, Follows, Scripted, NoneAsks, NoneConcludes;
    ghost var from := |c.calls|;
    NothingAsked(c.calls);
    var polls: nat, later: nat := *, *;
    ghost var calls := c.calls;
    ok := c.WaitReceipt(Receipt(RestoredVerify, Intent), polls);
    OneMore(calls, c.calls[|calls|], from);
    if ok {
      calls := c.calls;
      ok := c.WaitReceipt(Receipt(RestoredVerify, Completed), later);
      OneMore(calls, c.calls[|calls|], from);
    }
  }

  lemma NothingAsked(calls: seq<Call>)
    ensures NoneAsks(calls, |calls|, |calls|)
  {
  }

  /** The restoration and the restart of the previous version. */
  method RestoreAndRestart(c: Coordinator) returns (ok: bool)
    requires c.Valid() && c.role == Coordinating && Undoable(c) && UnderWay(c) && Follows(c.calls, Restoring)
    requires !c.releaseCompleted && !c.releaseAllowed
    modifies c
    ensures c.Valid() && old(c.effects) <= c.effects && old(c.operations) <= c.operations
    ensures old(c.SlotFree()) && c.WorksFrom(old(c.operations)) ==> c.world.restore >= 2
    ensures c.world.restore <= 2 ==> !ok
    ensures !c.releaseCompleted && !c.releaseAllowed
    ensures ok ==> c.world.restore >= 4 && c.supervisor && c.attempt
    ensures if ok then c.sequence == c.world.forward + 4 else c.sequence < c.world.forward + 6
    ensures c.world.forward == old(c.world).forward
    ensures old(c.calls) < c.calls && UnderWay(c) && NoneAsks(c.calls, |old(c.calls)|, |c.calls|)
    ensures Follows(c.calls, if ok then Awaiting(Receipt(RestoredVerify, Intent)) else Holding)
  {
    hide Run, ValidRun, DiskFits, Classify, Follows, Scripted, NoneAsks, NoneConcludes;
    ghost var from := |c.calls|;
    NothingAsked(c.calls);
    ghost var calls := c.calls;
    ok := c.RestorePrevious();
    OneMore(calls, c.calls[|calls|], from);
    if ok {
      calls := c.calls;
      ok := c.StartRestored();
      OneMore(calls, c.calls[|calls|], from);
    }
  }

  /**
   Undoes the update.  Once it has been asked for, it happens unless an operation fails from
   there on or somebody else has taken the next slot of the journal.
   */
  method RestoreWithoutRuntime(c: Coordinator) returns (ok: bool)
    requires c.Valid() && c.role == Coordinating && Undoable(c)
    requires !c.releaseCompleted && !c.releaseAllowed && UndoAsked(c)
    modifies c
    ensures c.Valid() && old(c.effects) <= c.effects && old(c.operations) <= c.operations
    ensures ok <==> Finished(c)
    ensures ok ==> OldVersionRestored(c.world)
    ensures c.releaseCompleted ==> ok && c.native && c.attempt
    ensures old(c.SlotFree()) && c.WorksFrom(old(c.operations)) ==> BroughtBackTo(c.world)
    ensures ok && c.native && c.WorksFrom(old(c.operations)) ==> c.releaseCompleted
    ensures old(c.calls) <= c.calls && Scripted(c.calls) && AtItsEnd(c.calls)
    ensures NoneAsks(c.calls, |old(c.calls)|, |c.calls|)
    ensures ok <==> !NoneConcludes(c.calls)
  {
    hide Run, ValidRun, DiskFits, Classify, Follows, Scripted, NoneAsks, NoneConcludes;
    ghost var from := |c.calls|;
    ok := RestoreAndRestart(c);
    if ok {
      ghost var restarted := c.calls;
      ok := AwaitRestoredVerification(c);
      StillNoneAsks(restarted, c.calls, from);
    }
    LetGo(c, ok, from);
    if c.world.restore >= 2 { RecordedAsRestored(c.world); }
  }

  /** Nothing has happened yet: the old application runs and the journal is empty. */
  predicate Untried(c: Coordinator)
    reads c
  {
    c.role == Coordinating && c.Fresh() && IsInitial(c.world)
  }

  /** The table has been followed, and no callback has asked for the update to be undone. */
  predicate Forward(c: Coordinator)
    reads c
  {
    UnderWay(c) && NoneAsks(c.calls, 0, |c.calls|)
  }

  /** The engine is about to return, and the update is not undone. */
  predicate Ended(c: Coordinator, ok: bool)
    reads c
  {
    && Scripted(c.calls) && AtItsEnd(c.calls) && NoneAsks(c.calls, 0, |c.calls|)
    && (ok <==> !NoneConcludes(c.calls))
  }

  lemma OneMoreForward(calls: seq<Call>, call: Call)
    requires Scripted(calls) && NoneConcludes(calls) && NoneAsks(calls, 0, |calls|) && Follows(calls, call.step)
    ensures var more := calls + [call];
            && Scripted(more)
            && (NoneConcludes(more) <==> !Concludes(call))
            && NoneAsks(more, 0, |calls|)
            && (!AsksForUndo(call) ==> NoneAsks(more, 0, |more|))
            && (forall step :: Follows(more, step) <==> Next(call) == Some(step))
            && (AtItsEnd(more) <==> Next(call) == None)
  {
    hide Next, AsksForUndo, Concludes, Follows, Scripted, NoneConcludes, AtItsEnd;
    OneMore(calls, call, 0);
    assert (calls + [call])[..|calls|] == calls;
  }

  /** Deadlines, acceptance and the exit of the old application; nothing is moved before it. */
  method Admit(c: Coordinator) returns (ok: bool)
    requires c.Valid() && Untried(c)
    modifies c`world, c`effects, c`sequence, c`operations, c`calls
    ensures c.Valid() && old(c.effects) <= c.effects && old(c.operations) <= c.operations
    ensures c.sequence <= 3
    ensures ok ==> c.sequence == 3 && c.Untouched(3) && !c.world.oldApp
    ensures !ok ==> c.world.disk == INITIAL_DISK && Ended(c, false)
    ensures ok ==> Forward(c) && Follows(c.calls, Promoting)
  {
    hide Run, ValidRun, DiskFits, Classify, Coordinator.Valid, Follows, Scripted, NoneAsks, NoneConcludes, AtItsEnd;
    NothingCalled();
    var start := c.NextFault();
    var verify := c.NextFault();
    var cleanup := c.NextFault();
    if start != Works || verify != Works || cleanup != Works { return false; }
    ghost var calls := c.calls;
    ok := c.EmitAcceptance();
    OneMoreForward(calls, c.calls[|calls|]);
    if !ok { return; }
    calls := c.calls;
    ok := c.WaitOldExit();
    OneMoreForward(calls, c.calls[|calls|]);
  }

  lemma NothingCalled()
    ensures Scripted([]) && NoneAsks([], 0, 0) && NoneConcludes([]) && AtItsEnd([])
    ensures forall step :: Follows([], step) <==> step == Accepting
  {
  }

  /** Promotion and registration; whatever they leave behind can be undone. */
  method Install(c: Coordinator) returns (ok: bool)
    requires c.Valid() && c.role == Coordinating && !c.supervisor
    requires c.sequence == 3 && c.Untouched(3) && !c.world.oldApp
    requires Forward(c) && Follows(c.calls, Promoting)
    modifies c`world, c`effects, c`sequence, c`operations, c`calls
    ensures c.Valid() && old(c.effects) <= c.effects && old(c.operations) <= c.operations
    ensures Undoable(c)
    ensures ok ==> c.Idle() && c.sequence == 7 == c.world.forward && !c.world.torn
    ensures c.WorksFrom(old(c.operations)) ==> ok
    ensures ok ==> Forward(c) && Follows(c.calls, Starting(false))
    ensures !ok ==> UndoAsked(c)
    ensures old(c.calls) < c.calls && c.calls[|old(c.calls)|].step == Promoting
  {
    hide Run, ValidRun, DiskFits, Classify, Follows, Scripted, NoneAsks, NoneConcludes;
    ghost var calls := c.calls;
    ok := c.Promote();
    OneMoreForward(calls, c.calls[|calls|]);
    if !ok { return; }
    calls := c.calls;
    ok := c.PublishRegistration();
    OneMoreForward(calls, c.calls[|calls|]);
  }

  /** The successor has been started; its first verification receipt decides what follows. */
  predicate Deciding(c: Coordinator)
    reads c
  {
    c.StartedAtMost() && c.sequence == 9 && !c.releaseCompleted && !c.releaseAllowed
  }

  /** Stops the successor and asks for an independent proof that nothing of it is left. */
  method ConfirmStop(c: Coordinator) returns (undo: bool)
    requires c.Valid() && Deciding(c) && Forward(c) && Follows(c.calls, Stopping)
    requires c.world.forward <= 9
    modifies c
    ensures c.Valid() && old(c.effects) <= c.effects && old(c.operations) <= c.operations
    ensures undo ==> Undoable(c) && !c.releaseAllowed && UndoAsked(c)
    ensures !undo ==> Ended(c, false)
    ensures !c.releaseCompleted && c.sequence == 9 && c.world.restore == 0 && c.world.forward <= 11
    ensures old(c.calls) <= c.calls
  {
    hide Run, ValidRun, DiskFits, Classify, Follows, Scripted, NoneAsks, NoneConcludes, AtItsEnd, Word, Recorded;
    ghost var calls := c.calls;
    undo := c.StopRuntime();
    OneMoreForward(calls, c.calls[|calls|]);
    if !undo {
      LetGo(c, false, 0);
      return;
    }
    calls := c.calls;
    undo := c.ReconcileStoppedRuntime();
    OneMoreForward(calls, c.calls[|calls|]);
  }

  /**
   No verification receipt arrived in time.  The update is undone only if the slot is still
   empty and the successor has provably stopped.
   */
  method StopUnverified(c: Coordinator) returns (undo: bool)
    requires c.Valid() && c.role == Coordinating && Deciding(c) && Forward(c) && Follows(c.calls, Looking)
    modifies c
    ensures c.Valid() && old(c.effects) <= c.effects && old(c.operations) <= c.operations
    ensures undo ==> Undoable(c) && !c.releaseAllowed && UndoAsked(c)
    ensures !undo ==> Ended(c, false)
    ensures !c.releaseCompleted && c.sequence == 9 && c.world.restore == 0 && c.world.forward <= 11
    ensures old(c.calls) <= c.calls
  {
    hide Run, ValidRun, DiskFits, Classify, Follows, Scripted, NoneAsks, NoneConcludes, AtItsEnd, Word, Recorded;
    ghost var calls := c.calls;
    var exists_ := c.NextReceiptExists();
    OneMoreForward(calls, c.calls[|calls|]);
    if exists_ {
      LetGo(c, false, 0);
      return false;
    }
    undo := ConfirmStop(c);
  }

  /** The point of no return has been passed: from here the update can only be completed. */
  method Complete(c: Coordinator) returns (ok: bool)
    requires c.Valid() && c.role == Coordinating
    requires c.sequence == 10 && c.world.restore == 0 && !c.releaseCompleted && !c.releaseAllowed && !c.attempt
    requires Forward(c) && Follows(c.calls, Awaiting(Receipt(Verify, Completed)))
    modifies c
    ensures c.Valid() && old(c.effects) <= c.effects && old(c.operations) <= c.operations
    ensures ok <==> Finished(c)
    ensures ok ==> NewVersionInstalled(c.world)
    ensures c.releaseCompleted ==> ok && c.native && !c.attempt
    ensures ok && c.native && old(c.supervisor) && c.WorksFrom(old(c.operations)) ==> c.releaseCompleted
    ensures Ended(c, ok)
    ensures old(c.calls) <= c.calls
  {
    hide Run, ValidRun, Classify, Word, Follows, Scripted, NoneAsks, NoneConcludes, AtItsEnd;
    ok := AwaitVerified(c);
    if !ok {
      LetGo(c, false, 0);
      return;
    }
    ghost var calls := c.calls;
    ok := c.CleanupVerified();
    OneMoreForward(calls, c.calls[|calls|]);
    if !ok {
      LetGo(c, false, 0);
      return;
    }
    LetGo(c, true, 0);
  }

  /** The second verification receipt and the acknowledgement. */
  method AwaitVerified(c: Coordinator) returns (ok: bool)
    requires c.Valid() && c.sequence == 10 && c.world.restore == 0
    requires Forward(c) && Follows(c.calls, Awaiting(Receipt(Verify, Completed)))
    modifies c`world, c`effects, c`sequence, c`operations, c`calls
    ensures c.Valid() && old(c.effects) <= c.effects && old(c.operations) <= c.operations
    ensures c.world.restore == 0 && 10 <= c.sequence <= 11
    ensures ok ==> c.sequence == 11 && c.world.acknowledged
    ensures Forward(c) && Follows(c.calls, if ok then Cleaning else Holding)
    ensures old(c.calls) <= c.calls
  {
    hide Run, ValidRun, Classify, Word, Follows, Scripted, NoneAsks, NoneConcludes;
    var polls: nat := *;
    ghost var calls := c.calls;
    ok := c.WaitReceipt(Receipt(Verify, Completed), polls);
    OneMoreForward(calls, c.calls[|calls|]);
    if !ok { return; }
    calls := c.calls;
    ok := c.WaitVerifiedAck();
    OneMoreForward(calls, c.calls[|calls|]);
  }

  /** A start that failed is undone once it has provably stopped. */
  method StartOrStop(c: Coordinator) returns (ok: bool, undo: bool)
    requires c.Valid() && c.role == Coordinating && c.Idle() && !c.supervisor && !c.attempt
    requires c.sequence == 7 == c.world.forward && c.world.restore == 0 && !c.world.torn
    requires !c.releaseCompleted && !c.releaseAllowed
    requires Forward(c) && Follows(c.calls, Starting(false))
    modifies c
    ensures c.Valid() && old(c.effects) <= c.effects && old(c.operations) <= c.operations
    ensures ok ==> Deciding(c) && c.supervisor && Forward(c) && Follows(c.calls, Awaiting(Receipt(Verify, Intent)))
    ensures undo ==> !ok && Undoable(c) && UndoAsked(c)
    ensures !c.releaseAllowed && !c.releaseCompleted
    ensures !ok && !undo ==> c.sequence <= 9 && c.world.restore == 0 && c.world.forward <= 11 && Ended(c, false)
    ensures old(c.calls) <= c.calls
  {
    hide Run, ValidRun, DiskFits, Classify, Follows, Scripted, NoneAsks, NoneConcludes, AtItsEnd, Word, Recorded;
    ghost var calls := c.calls;
    ok := c.StartSuccessor();
    OneMoreForward(calls, c.calls[|calls|]);
    if ok { return true, false; }
    calls := c.calls;
    undo := c.StopFailedStart();
    OneMoreForward(calls, c.calls[|calls|]);
  }

  /**
   Starts the successor of an installed candidate.  `undo` asks for the update to be undone;
   otherwise `ok` is the final verdict.
   */
  method Launch(c: Coordinator) returns (ok: bool, undo: bool)
    requires c.Valid() && c.role == Coordinating && c.Idle() && !c.supervisor && !c.attempt
    requires c.sequence == 7 == c.world.forward && c.world.restore == 0 && !c.world.torn
    requires !c.releaseCompleted && !c.releaseAllowed
    requires Forward(c) && Follows(c.calls, Starting(false))
    modifies c
    ensures c.Valid() && old(c.effects) <= c.effects && old(c.operations) <= c.operations
    ensures undo ==> !ok && Undoable(c) && !c.releaseAllowed && !c.releaseCompleted && UndoAsked(c)
    ensures !undo ==> (ok <==> Finished(c)) && Ended(c, ok)
    ensures ok ==> NewVersionInstalled(c.world)
    ensures !undo && c.releaseCompleted ==> ok && c.native && !c.attempt
    ensures ok && c.native && c.WorksFrom(old(c.operations)) ==> c.releaseCompleted
    ensures old(c.calls) <= c.calls
  {
    hide Run, ValidRun, DiskFits, Classify, Follows, Scripted, NoneAsks, NoneConcludes, AtItsEnd, Word, Recorded;
    ok, undo := StartOrStop(c);
    if !ok { return; }
    var polls: nat := *;
    ghost var calls := c.calls;
    ok := c.WaitReceipt(Receipt(Verify, Intent), polls);
    OneMoreForward(calls, c.calls[|calls|]);
    if ok {
      ok := Complete(c);
    } else {
      undo := StopUnverified(c);
    }
  }

  /**
   One whole update.  It calls back exactly as the table says.  It reports success exactly when
   the process itself holds the last receipt of the completed update or of the completed
   restoration, and only then may a successor have been handed over.  Whenever a callback asks
   for the update to be undone, the previous version is brought back unless an operation fails
   from there on or somebody else has taken the next slot of the journal.
   */
  method Execute(c: Coordinator) returns (ok: bool)
    requires c.Valid() && Untried(c)
    modifies c
    ensures c.Valid() && old(c.effects) <= c.effects && old(c.operations) <= c.operations
    ensures ok <==> Finished(c)
    ensures ok ==> NewVersionInstalled(c.world) || OldVersionRestored(c.world)
    ensures c.releaseCompleted ==> ok && c.native
    ensures c.releaseCompleted && !c.attempt ==> NewVersionInstalled(c.world)
    ensures c.releaseCompleted && c.attempt ==> OldVersionRestored(c.world)
    ensures ok && c.native && c.WorksFrom(old(c.operations)) ==> c.releaseCompleted
    ensures forall i | 0 <= i < |c.calls| && AsksForUndo(c.calls[i]) ::
              c.calls[i].free && c.WorksFrom(c.calls[i].operation) ==> BroughtBackTo(c.world)
    ensures Scripted(c.calls) && AtItsEnd(c.calls)
    ensures ok <==> exists i :: 0 <= i < |c.calls| && Concludes(c.calls[i])
    ensures (forall i | 0 <= i < |c.calls| :: c.calls[i].step != Promoting) ==> c.world.disk == INITIAL_DISK
  {
    hide Run, ValidRun, DiskFits, Classify, Follows, Scripted, AtItsEnd, AsksForUndo, Concludes;
    ok := Admit(c);
    if !ok { return; }
    ghost var promoting := |c.calls|;
    ok := Install(c);
    assert c.calls[promoting].step == Promoting;
    if ok {
      var undo;
      ok, undo := Launch(c);
      if !undo { return; }
    }
    ok := RestoreWithoutRuntime(c);
  }

  /** A native hand-over must also have been committed. */
  method ExecutePosix(c: Coordinator) returns (ok: bool)
    requires c.Valid() && Untried(c)
    modifies c
    ensures c.Valid() && old(c.effects) <= c.effects && old(c.operations) <= c.operations
    ensures ok <==> Finished(c) && (c.native ==> c.releaseCompleted)
    ensures c.WorksFrom(old(c.operations)) ==> (ok <==> Finished(c))
  {
    ok := Execute(c);
    ok := ok && (!c.native || c.releaseCompleted);
  }
}
