/**
 The POSIX update coordinator: the steps that the lifecycle engine and recovery are made of.

 `Coordinator.world` is everything outside the process; the other fields are the process's own
 context.  After every atomic effect the runtimes get a chance to run (`Interfere`), so each
 method is proved for every interleaving.  Which I/O operation fails, and how, is an input
 (`faults`), so "without an I/O failure" is a condition on inputs.
 */
module Coordinators {
  import opened Receipts
  import opened Transaction

  /** How one operation ends: `FailsAfter` has its effect but reports failure. */
  datatype Fault = Works | FailsBefore | FailsPartway | FailsAfter

  /** The runtimes' own steps: what may happen while the coordinator is between two effects. */
  predicate FromRuntimes(w: World, e: Effect) {
    || e.SuccessorAppend? || e.RestoredAppend? || e.Acknowledge? || e.OldExits? || e.RuntimeExits?
    || (e.Tear? && w.successor == Running && 9 <= w.forward <= 10 && w.restore == 0)
    || (e.Tear? && w.restored == Running && 2 <= w.restore <= 5)
  }

  /** Any number of the runtimes' steps: the disk stays, the journal grows only at a runtime's hand. */
  predicate Drifts(w: World, v: World) {
    && v.disk == w.disk
    && w.forward <= v.forward && w.restore <= v.restore
    && (w.forward < v.forward ==> w.successor == Running && w.restore == 0 && 9 <= w.forward && v.forward <= 11)
    && (w.restore < v.restore ==> w.restored == Running && 2 <= w.restore)
    && (w.torn ==> v.torn && v.forward == w.forward && v.restore == w.restore)
    && (v.torn && !w.torn ==>
          || (w.successor == Running && 9 <= v.forward <= 10 && v.restore == 0)
          || (w.restored == Running && 2 <= v.restore <= 5))
    && (v.oldApp ==> w.oldApp)
    && (v.successor == w.successor || (w.successor.Live() && v.successor == Stopped))
    && (v.restored == w.restored || (w.restored.Live() && v.restored == Stopped))
    && (w.acknowledged ==> v.acknowledged)
    && (v.acknowledged && !w.acknowledged ==> w.successor == Running)
  }

  /** This receipt stands at this position of the journal. */
  predicate Recorded(w: World, position: nat, receipt: Receipt)
    requires Inv(w)
  {
    position < w.Length() && w.Log()[position] == receipt
  }

  lemma DriftContinues(w: World, v: World, e: Effect)
    requires Inv(w) && Inv(v) && Drifts(w, v) && Enabled(v, e) && FromRuntimes(v, e)
    ensures Drifts(w, Apply(v, e))
  {
    if e.SuccessorAppend? { assert e.verify == ForwardReceipt(v.forward); }
  }

  /** The callbacks of the lifecycle engine. */
  datatype Step =
    | Accepting | AwaitingExit | Promoting | Registering | Starting(restoring: bool)
    | Awaiting(expected: Receipt) | Looking | Stopping | Reconciling | StoppingStart
    | AwaitingAck | Cleaning | Restoring | Holding

  /**
   One finished callback: its answer, how many operations had been attempted by then, and
   whether the next slot of the journal was free for this process.
   */
  datatype Call = Call(step: Step, ok: bool, operation: nat, free: bool)

  class Coordinator {
    const role: Role
    const native: bool
    const faults: nat -> Fault
    var operations: nat

    var world: World
    const start: World
    var effects: seq<Effect>   // every step taken so far, by this process or by a runtime
    var calls: seq<Call>       // the callbacks that have finished

    var sequence: nat          // receipts this process has written or read
    var supervisor: bool       // a spawned supervisor is held and not yet reaped
    var attempt: bool          // the last spawned runtime was the restored one
    var owned: bool            // some native supervisor has been spawned
    var stopConfirmed: bool
    var releaseAllowed: bool
    var releaseCompleted: bool

    constructor (role: Role, native: bool, faults: nat -> Fault, world: World)
      requires Inv(world)
      ensures Valid() && Fresh() && this.world == world
      ensures this.role == role && this.native == native && this.faults == faults && start == world && effects == []
    {
      this.role, this.native, this.faults, this.operations := role, native, faults, 0;
      this.world, this.start, this.effects, this.calls := world, world, [], [];
      sequence, supervisor, attempt, owned := 0, false, false, false;
      stopConfirmed, releaseAllowed, releaseCompleted := false, false, false;
    }

    /** The world was reached by a valid run, and the process knows a prefix of the journal. */
    ghost predicate Valid()
      reads `world, `effects, `sequence
    {
      && Inv(world)
      && ValidRun(start, effects) && world == Run(start, effects)
      && sequence <= world.Length()
    }

    /** The context of a process that has not done anything yet. */
    predicate Fresh()
      reads this
    {
      sequence == 0 && !supervisor && !attempt && !stopConfirmed && !releaseAllowed && !releaseCompleted && calls == []
    }

    /** From the n-th operation on nothing fails. */
    ghost predicate WorksFrom(n: nat) {
      forall k | n <= k :: faults(k) == Works
    }

    /** How a callback that returns now is recorded. */
    function Done(step: Step, ok: bool): Call
      reads `operations, `world, `sequence
    {
      Call(step, ok, operations, SlotFree())
    }

    /** Exclusive creation of the next receipt file can succeed. */
    predicate SlotFree()
      reads `world, `sequence
    {
      !world.torn && world.Length() == sequence
    }

    function Attempted(): Runtime
      reads `attempt, `world
    {
      if attempt then world.restored else world.successor
    }

    /** Takes one atomic step. */
    method Do(e: Effect)
      requires Valid() && Enabled(world, e)
      modifies `world, `effects
      ensures Valid() && world == Apply(old(world), e) && effects == old(effects) + [e]
    {
      StepKeepsInvariant(world, e);
      effects := effects + [e];
      assert effects[..|effects| - 1] == old(effects);
      world := Apply(world, e);
    }

    method NextFault() returns (fault: Fault)
      modifies `operations
      ensures fault == faults(old(operations)) && operations == old(operations) + 1
    {
      fault := faults(operations);
      operations := operations + 1;
    }

    /** The runtimes take any number of steps. */
    method Interfere()
      requires Valid()
      modifies `world, `effects
      ensures Valid() && old(effects) <= effects
      ensures Drifts(old(world), world)
    {
      var steps: nat := *;
      while steps > 0
        invariant Valid() && old(effects) <= effects
        invariant Drifts(old(world), world)
      {
        var e: Effect := *;
        if FromRuntimes(world, e) && Enabled(world, e) {
          DriftContinues(old(world), world, e);
          Do(e);
        }
        steps := steps - 1;
      }
    }

    // ------------------------------------------------------------- receipts

    /**
     Exclusive append at the slot this process believes to be next.  The file may end up
     durable, absent, torn, or complete although the final directory sync reported failure.
     */
    method AppendReceipt(receipt: Receipt) returns (ok: bool)
      requires Valid()
      requires SlotFree() ==> Enabled(world, Append(role, receipt))
      modifies `world, `effects, `sequence, `operations
      ensures Valid() && old(effects) <= effects && old(operations) <= operations
      ensures ok ==>
                && old(SlotFree())
                && sequence == old(sequence) + 1
                && Drifts(AppendTo(old(world), receipt), world)
      ensures !ok ==>
                && sequence == old(sequence)
                && (|| Drifts(old(world), world)
                    || (old(SlotFree()) && (|| Drifts(AppendTo(old(world), receipt), world)
                                            || Drifts(old(world).(torn := true), world))))
      ensures WorksFrom(old(operations)) && old(SlotFree()) ==> ok
    {
      hide Run, ValidRun, DiskFits, Classify, Word;
      var fault := NextFault();
      ok := false;
      if !SlotFree() || fault == FailsBefore {
        Interfere();
      } else if fault == FailsPartway {
        Do(Tear);
        Interfere();
      } else {
        PublishReceipt(receipt);
        if fault == Works {
          sequence := sequence + 1;
          ok := true;
        }
      }
    }

    method PublishReceipt(receipt: Receipt)
      requires Valid() && Enabled(world, Append(role, receipt))
      modifies `world, `effects
      ensures Valid() && old(effects) <= effects
      ensures Drifts(AppendTo(old(world), receipt), world)
      ensures world.Length() > old(world).Length()
    {
      Do(Append(role, receipt));
      Interfere();
    }

    /** The append of a forward receipt while no runtime may write to the journal. */
    method AppendForward(receipt: Receipt) returns (ok: bool)
      requires Valid()
      requires sequence < FORWARD_RECEIPTS && receipt == ForwardReceipt(sequence)
      requires world.restore == 0 && (world.successor == Running ==> world.forward >= 11)
      requires Justified(world, role, receipt)
      modifies `world, `effects, `sequence, `operations
      ensures Valid() && old(effects) <= effects && old(operations) <= operations
      ensures OnlyJournalMoved(old(world), world)
      ensures ok ==> old(SlotFree()) && sequence == old(sequence) + 1 == world.forward && !world.torn
      ensures !ok ==> sequence == old(sequence)
      ensures WorksFrom(old(operations)) && old(SlotFree()) ==> ok
    {
      ok := AppendReceipt(receipt);
    }

    /** The append of a restore receipt; a free slot means that nobody else has written since. */
    method AppendRestore(receipt: Receipt) returns (ok: bool)
      requires Valid()
      requires SlotFree() ==>
                 && world.restore < RESTORE_RECEIPTS && receipt == RestoreReceipt(world.restore)
                 && 3 <= world.forward <= 9
                 && Justified(world, role, receipt)
      modifies `world, `effects, `sequence, `operations
      ensures Valid() && old(effects) <= effects && old(operations) <= operations
      ensures ok ==> sequence == old(sequence) + 1 && old(SlotFree())
      ensures ok ==> Drifts(old(world).(restore := old(world).restore + 1), world)
      ensures !ok ==> sequence == old(sequence) && MayHaveRestored(old(world), world)
      ensures WorksFrom(old(operations)) && old(SlotFree()) ==> ok
    {
      ok := AppendReceipt(receipt);
    }

    /**
     Looks for the expected receipt as often as the deadline allows; only the complete expected
     file advances the sequence.
     */
    method WaitReceipt(expected: Receipt, polls: nat) returns (ok: bool)
      requires Valid()
      modifies `world, `effects, `sequence, `operations, `calls
      ensures Valid() && old(effects) <= effects && old(operations) <= operations
      ensures calls == old(calls) + [Done(Awaiting(expected), ok)]
      ensures Drifts(old(world), world)
      ensures ok ==> sequence == old(sequence) + 1 && Recorded(world, old(sequence), expected)
      ensures !ok ==> sequence == old(sequence)
      ensures WorksFrom(old(operations)) && polls > 0 && Recorded(old(world), old(sequence), expected) ==> ok
    {
      hide Run, ValidRun, DiskFits;
      ok := false;
      var left := polls;
      while left > 0 && !ok
        invariant Valid() && old(effects) <= effects && old(operations) <= operations && calls == old(calls)
        invariant Drifts(old(world), world) && left <= polls
        invariant ok ==> sequence == old(sequence) + 1 && Recorded(world, old(sequence), expected)
        invariant !ok ==> sequence == old(sequence)
        invariant left < polls && WorksFrom(old(operations)) && Recorded(old(world), old(sequence), expected) ==> ok
      {
        InterfereAgain(old(world));
        DriftKeepsLog(old(world), world);
        if Recorded(world, sequence, expected) {
          var fault := NextFault();
          ok := fault == Works;
          if ok { sequence := sequence + 1; }
        }
        left := left - 1;
      }
      calls := calls + [Done(Awaiting(expected), ok)];
    }

    method InterfereAgain(ghost w: World)
      requires Valid() && Inv(w) && Drifts(w, world)
      modifies `world, `effects
      ensures Valid() && old(effects) <= effects
      ensures Drifts(w, world)
    {
      ghost var v := world;
      Interfere();
      DriftsCompose(w, v, world);
    }

    /** Whether anything occupies the next slot; an unreadable directory counts as occupied. */
    method NextReceiptExists() returns (exists_: bool)
      requires Valid()
      modifies `world, `effects, `operations, `calls
      ensures Valid() && old(effects) <= effects && old(operations) <= operations
      ensures calls == old(calls) + [Done(Looking, exists_)]
      ensures Drifts(old(world), world)
      ensures !exists_ ==> !world.torn && world.Length() <= sequence
      ensures WorksFrom(old(operations)) && !world.torn && world.Length() <= sequence ==> !exists_
    {
      Interfere();
      var fault := NextFault();
      exists_ := fault != Works || world.torn || sequence < world.Length();
      calls := calls + [Done(Looking, exists_)];
    }

    method WaitVerifiedAck() returns (ok: bool)
      requires Valid()
      modifies `world, `effects, `operations, `calls
      ensures Valid() && old(effects) <= effects && old(operations) <= operations
      ensures calls == old(calls) + [Done(AwaitingAck, ok)]
      ensures Drifts(old(world), world)
      ensures ok ==> world.acknowledged
      ensures WorksFrom(old(operations)) && old(world).acknowledged ==> ok
    {
      Interfere();
      var fault := NextFault();
      ok := fault == Works && world.acknowledged;
      calls := calls + [Done(AwaitingAck, ok)];
    }

    /** Records the first two receipts and tells the parent that it may exit. */
    method EmitAcceptance() returns (ok: bool)
      requires Valid() && role == Coordinating
      requires sequence == 0 && IsInitial(world)
      modifies `world, `effects, `sequence, `operations, `calls
      ensures Valid() && old(effects) <= effects && old(operations) <= operations
      ensures calls == old(calls) + [Done(Accepting, ok)]
      ensures ok ==> sequence == 2 && Untouched(2)
      ensures sequence <= 2
      ensures WorksFrom(old(operations)) ==> ok
      ensures world.disk == old(world).disk
    {
      ok := AppendForward(Receipt(Prepared, Completed));
      if ok { ok := AppendForward(Receipt(OldExit, Intent)); }
      if ok {
        var fault := NextFault();
        ok := fault == Works;
      }
      calls := calls + [Done(Accepting, ok)];
    }

    /** Nothing but the journal has changed, and no runtime has been started. */
    predicate Untouched(forward: nat)
      reads `world
    {
      && world.forward == forward && world.restore == 0 && !world.torn
      && world.disk == INITIAL_DISK
      && world.successor == NotStarted && world.restored == NotStarted
      && !world.acknowledged
    }

    method WaitOldExit() returns (ok: bool)
      requires Valid() && role == Coordinating
      requires sequence == 2 && Untouched(2)
      modifies `world, `effects, `sequence, `operations, `calls
      ensures Valid() && old(effects) <= effects && old(operations) <= operations
      ensures calls == old(calls) + [Done(AwaitingExit, ok)]
      ensures ok ==> sequence == 3 && Untouched(3) && !world.oldApp
      ensures sequence <= 3
      ensures WorksFrom(old(operations)) && !old(world).oldApp ==> ok
      ensures world.disk == old(world).disk
    {
      Interfere();
      var fault := NextFault();
      ok := fault == Works && !world.oldApp;
      if ok { ok := AppendForward(Receipt(OldExit, Completed)); }
      calls := calls + [Done(AwaitingExit, ok)];
    }

    // ---------------------------------------------------- roots and registration

    /** No update runtime exists and the old application has exited. */
    predicate Idle()
      reads `world
    {
      !world.oldApp && world.successor == NotStarted && world.restored == NotStarted
    }

    method ExchangeRoots() returns (ok: bool)
      requires Valid() && world.forward == 4 && world.restore == 0 && Idle()
      requires Classify(world.disk) == Some(Initial)
      modifies `world, `effects, `operations
      ensures Valid() && old(effects) <= effects && old(operations) <= operations
      ensures Drifts(old(world).(disk := world.disk), world)
      ensures ok ==> Classify(world.disk) == Some(Exchanged)
      ensures WorksFrom(old(operations)) ==> ok
    {
      var fault := NextFault();
      if fault == FailsBefore { return false; }
      Do(PromoteExchange);
      Interfere();
      ok := fault == Works;
    }

    method RelocateBackup() returns (ok: bool)
      requires Valid() && world.forward == 4 && world.restore == 0 && Idle()
      requires Classify(world.disk) == Some(Exchanged)
      modifies `world, `effects, `operations
      ensures Valid() && old(effects) <= effects && old(operations) <= operations
      ensures Drifts(old(world).(disk := world.disk), world)
      ensures ok ==> Classify(world.disk) == Some(Promoted)
      ensures WorksFrom(old(operations)) ==> ok
    {
      var fault := NextFault();
      if fault == FailsBefore { return false; }
      Do(PromoteRelocate);
      Interfere();
      ok := fault == Works;
    }

    /** Exchange and no-replace relocation, entered from wherever an earlier attempt stopped. */
    method PromoteRoots() returns (ok: bool)
      requires Valid() && world.forward == 4 && world.restore == 0 && Idle()
      modifies `world, `effects, `operations
      ensures Valid() && old(effects) <= effects && old(operations) <= operations
      ensures Drifts(old(world).(disk := world.disk), world)
      ensures ok ==> Classify(world.disk) == Some(Promoted)
      ensures WorksFrom(old(operations)) ==> ok
      ensures ok ==> world.disk.managed == Holds(Candidate) && world.disk.backup == Holds(Current)
      ensures ok ==> world.disk.candidate == Absent
    {
      hide Classify, DiskFits, Run, ValidRun;
      var fault := NextFault();
      if fault != Works { return false; }
      var shape := Classify(world.disk);
      BeforePromotion(world);
      if world.disk.registration != PreviousFile || shape == None || shape == Some(RestoredBackup) { return false; }
      if shape == Some(Initial) {
        ok := ExchangeRoots();
        if !ok { return; }
      } else if shape == Some(Promoted) {
        PromotedPlacement(world.disk);
        return true;
      }
      ghost var before := world;
      ok := RelocateBackup();
      DriftsBeside(old(world), before, world);
      PromotedPlacement(world.disk);
    }

    method Promote() returns (ok: bool)
      requires Valid() && role == Coordinating
      requires sequence == 3 && Untouched(3) && !world.oldApp
      modifies `world, `effects, `sequence, `operations, `calls
      ensures Valid() && old(effects) <= effects && old(operations) <= operations && Idle()
      ensures calls == old(calls) + [Done(Promoting, ok)]
      ensures world.restore == 0 && 3 <= sequence <= 5
      ensures ok ==> sequence == 5 == world.forward && !world.torn
      ensures WorksFrom(old(operations)) ==> ok
    {
      hide Run, ValidRun, Classify, DiskFits, Word;
      ok := AppendForward(Receipt(Kind.Promote, Intent));
      if ok { ok := PromoteRoots(); }
      if ok { ok := AppendForward(Receipt(Kind.Promote, Completed)); }
      calls := calls + [Done(Promoting, ok)];
    }

    method RenameRegistration() returns (ok: bool)
      requires Valid() && Idle() && world.forward == 6 && world.restore == 0
      modifies `world, `effects, `operations
      ensures Valid() && old(effects) <= effects && old(operations) <= operations
      ensures Drifts(old(world).(disk := world.disk), world)
      ensures ok ==> world.disk.registration == PreparedFile
      ensures WorksFrom(old(operations)) ==> ok
    {
      hide Run, ValidRun;
      var fault := NextFault();
      if fault == FailsBefore { return false; }
      Do(Transaction.Effect.PublishRegistration);
      Interfere();
      ok := fault == Works;
    }

    method PublishRegistration() returns (ok: bool)
      requires Valid() && role == Coordinating && Idle()
      requires sequence == 5 == world.forward && world.restore == 0 && !world.torn
      modifies `world, `effects, `sequence, `operations, `calls
      ensures Valid() && old(effects) <= effects && old(operations) <= operations && Idle()
      ensures calls == old(calls) + [Done(Registering, ok)]
      ensures world.restore == 0 && 5 <= sequence <= 7
      ensures ok ==> sequence == 7 == world.forward && !world.torn
      ensures WorksFrom(old(operations)) ==> ok
      ensures ok ==> world.disk == Disk(Holds(Candidate), Absent, Holds(Current), Whole, PreparedFile)
    {
      hide Run, ValidRun;
      var fault := NextFault();
      ok := fault == Works && Classify(world.disk) == Some(Promoted);
      // An already prepared file would be recorded at once; no run reaches that case.
      if ok && world.disk.registration == PreparedFile { assert false; }
      if ok { ok := AppendForward(Receipt(Register, Intent)); }
      if ok { ok := RenameRegistration(); }
      if ok { ok := AppendForward(Receipt(Register, Completed)); }
      calls := calls + [Done(Registering, ok)];
    }

    /** One `RENAME_EXCHANGE` brings the current tree back under the managed name. */
    method ExchangeRootsBack() returns (ok: bool)
      requires Valid() && world.restore >= 1
      requires Classify(world.disk) == Some(Exchanged) || Classify(world.disk) == Some(Promoted)
      modifies `world, `effects, `operations
      ensures Valid() && old(effects) <= effects && old(operations) <= operations
      ensures Drifts(old(world).(disk := world.disk), world)
      ensures ok ==> world.disk == ExchangeBack(old(world).disk)
      ensures ok ==> Classify(world.disk) == Some(Initial) || Classify(world.disk) == Some(RestoredBackup)
      ensures WorksFrom(old(operations)) ==> ok
    {
      hide Run, ValidRun, DiskFits;
      var fault := NextFault();
      if fault == FailsBefore { return false; }
      Do(RestoreExchange);
      Interfere();
      ok := fault == Works;
    }

    method RestoreRegistrationFile() returns (ok: bool)
      requires Valid() && world.restore >= 1
      requires Classify(world.disk) == Some(Initial) || Classify(world.disk) == Some(RestoredBackup)
      modifies `world, `effects, `operations
      ensures Valid() && old(effects) <= effects && old(operations) <= operations
      ensures Drifts(old(world).(disk := world.disk), world)
      ensures ok ==> world.disk == old(world).disk.(registration := PreviousFile)
      ensures WorksFrom(old(operations)) ==> ok
    {
      hide Run, ValidRun, DiskFits;
      var fault := NextFault();
      if fault == FailsBefore { return false; }
      Do(RestoreRegistration);
      Interfere();
      ok := fault == Works;
    }

    /** Puts the current tree and the previous registration back, from wherever promotion stopped. */
    method RestoreRoots() returns (ok: bool)
      requires Valid() && world.restore >= 1
      modifies `world, `effects, `operations
      ensures Valid() && old(effects) <= effects && old(operations) <= operations
      ensures Drifts(old(world).(disk := world.disk), world)
      ensures ok ==> world.disk == BroughtBack(old(world).disk)
      ensures ok ==> world.disk.managed == Holds(Current) && world.disk.registration == PreviousFile
      ensures WorksFrom(old(operations)) ==> ok
    {
      hide DiskFits, Run, ValidRun, Classify, BroughtBack, ExchangeBack;
      RestorationInSteps(world);
      var fault := NextFault();
      if fault != Works { return false; }
      var shape, registration := Classify(world.disk), world.disk.registration;
      if shape == None { return false; }
      if shape == Some(Exchanged) || shape == Some(Promoted) {
        ok := ExchangeRootsBack();
        if !ok { return; }
      }
      if registration == PreparedFile {
        ghost var before := world;
        ok := RestoreRegistrationFile();
        DriftsBeside(old(world), before, world);
        if !ok { return; }
      }
      fault := NextFault();
      ok := fault == Works;
    }

    method RestorePrevious() returns (ok: bool)
      requires Valid() && world.restore == 0 && 3 <= sequence <= 9 && !world.successor.Live()
      modifies `world, `effects, `sequence, `operations, `calls
      ensures Valid() && old(effects) <= effects && old(operations) <= operations
      ensures calls == old(calls) + [Done(Restoring, ok)]
      ensures ok ==>
                && old(SlotFree())
                && world.forward == old(world).forward && world.restore == 2 && !world.torn
                && sequence == world.Length()
                && world.disk == BroughtBack(old(world).disk) && world.disk.managed == Holds(Current)
                && world.restored == NotStarted
                && world.successor == old(world).successor
      ensures world.forward == old(world).forward && world.restore <= 2
      ensures world.oldApp ==> old(world).oldApp
      ensures WorksFrom(old(operations)) && old(SlotFree()) ==> ok
    {
      hide BroughtBack, Classify, DiskFits, Run, ValidRun;
      ok := AppendRestore(Receipt(Restore, Intent));
      if ok { ok := RestoreRoots(); }
      if ok { ok := AppendRestore(Receipt(Restore, Completed)); }
      calls := calls + [Done(Restoring, ok)];
    }

    // --------------------------------------------------------------- runtimes

    method SpawnSupervisor(restoring: bool) returns (ok: bool)
      requires Valid() && !supervisor && Enabled(world, Spawn(restoring))
      modifies `world, `effects, `operations, `supervisor, `attempt, `owned,
               `stopConfirmed, `releaseAllowed, `releaseCompleted
      ensures Valid() && old(effects) <= effects && old(operations) <= operations
      ensures supervisor ==> attempt == restoring && Drifts(Spawned(old(world), restoring), world)
      ensures !supervisor ==> world == old(world)
      ensures !supervisor ==> attempt == old(attempt)
      ensures ok ==> supervisor
      ensures releaseAllowed ==> old(releaseAllowed) && !(native && supervisor)
      ensures releaseCompleted ==> old(releaseCompleted) && !(native && supervisor)
      ensures WorksFrom(old(operations)) ==> ok
    {
      hide Run, ValidRun;
      var fault := NextFault();
      if fault == FailsBefore { return false; }
      Fork(restoring);
      Adopt(restoring);
      ok := fault == Works;
    }

    /** A new native attempt starts with nothing proved about it. */
    method Adopt(restoring: bool)
      modifies `supervisor, `attempt, `owned, `stopConfirmed, `releaseAllowed, `releaseCompleted
      ensures supervisor && attempt == restoring
      ensures owned == (native || old(owned))
      ensures stopConfirmed == (!native && old(stopConfirmed))
      ensures releaseAllowed == (!native && old(releaseAllowed))
      ensures releaseCompleted == (!native && old(releaseCompleted))
    {
      supervisor, attempt := true, restoring;
      if native { owned, stopConfirmed, releaseAllowed, releaseCompleted := true, false, false, false; }
    }

    method Fork(restoring: bool)
      requires Valid() && Enabled(world, Spawn(restoring))
      modifies `world, `effects
      ensures Valid() && old(effects) <= effects
      ensures Drifts(Spawned(old(world), restoring), world)
    {
      Do(Spawn(restoring));
      Interfere();
    }

    /** Writes the start gate; the runtime may have been released even when this reports failure. */
    method ReleaseGate() returns (ok: bool)
      requires Valid()
      requires attempt ==> world.restore >= 4
      requires !attempt ==> world.forward >= 9 && world.restore == 0
      modifies `world, `effects, `operations
      ensures Valid() && old(effects) <= effects && old(operations) <= operations
      ensures Released(old(world), world, attempt)
      ensures ok ==> Attempted() == Running || Attempted() == Stopped
      ensures WorksFrom(old(operations)) && old(Attempted()) == Gated ==> ok
      ensures old(Attempted()) == Stopped ==> Attempted() == Stopped
    {
      hide Run, ValidRun, DiskFits;
      var fault := NextFault();
      ok := fault == Works && Attempted() == Gated;
      if fault != FailsBefore && Attempted() == Gated { Do(Release(attempt)); }
      Interfere();
    }

    /** The successor has been spawned behind its gate, and nothing has been recorded since. */
    predicate SuccessorHeld()
      reads `world, `sequence, `supervisor, `attempt
    {
      && StartedAtMost() && supervisor
      && sequence == 8 == world.forward && !world.torn
      && (world.successor == Gated || world.successor == Stopped)
    }

    method SpawnSuccessor() returns (ok: bool)
      requires Valid() && role == Coordinating && Idle() && !supervisor
      requires sequence == 7 == world.forward && world.restore == 0 && !world.torn
      modifies `world, `effects, `sequence, `operations, `supervisor, `attempt, `owned,
               `stopConfirmed, `releaseAllowed, `releaseCompleted
      ensures Valid() && old(effects) <= effects && old(operations) <= operations
      ensures StartedAtMost()
      ensures ok ==> SuccessorHeld()
      ensures releaseAllowed ==> old(releaseAllowed)
      ensures releaseCompleted ==> old(releaseCompleted)
      ensures WorksFrom(old(operations)) ==> ok
    {
      ok := AppendForward(Receipt(Start, Intent));
      if !ok { return; }
      assert Enabled(world, Spawn(false));
      ok := SpawnSupervisor(false);
    }

    method GateSuccessor() returns (ok: bool)
      requires Valid() && role == Coordinating && SuccessorHeld()
      modifies `world, `effects, `sequence, `operations
      ensures Valid() && old(effects) <= effects && old(operations) <= operations
      ensures StartedAtMost()
      ensures ok ==> sequence == 9 && supervisor
      ensures ok ==> world.successor == Running || world.successor == Stopped
      ensures WorksFrom(old(operations)) ==> ok || world.successor == Stopped
    {
      ok := AppendForward(Receipt(Start, Completed));
      if !ok { return; }
      ok := ReleaseGate();
    }

    method StartSuccessor() returns (ok: bool)
      requires Valid() && role == Coordinating && Idle() && !supervisor
      requires sequence == 7 == world.forward && world.restore == 0 && !world.torn
      modifies `world, `effects, `sequence, `operations, `supervisor, `attempt, `owned,
               `stopConfirmed, `releaseAllowed, `releaseCompleted, `calls
      ensures Valid() && old(effects) <= effects && old(operations) <= operations
      ensures calls == old(calls) + [Done(Starting(false), ok)]
      ensures StartedAtMost()
      ensures ok ==> sequence == 9 && supervisor
      ensures releaseAllowed ==> old(releaseAllowed)
      ensures releaseCompleted ==> old(releaseCompleted)
      ensures ok ==> world.successor == Running || world.successor == Stopped
      ensures WorksFrom(old(operations)) ==> ok || world.successor == Stopped
    {
      ok := SpawnSuccessor();
      if ok { ok := GateSuccessor(); }
      calls := calls + [Done(Starting(false), ok)];
    }

    /** After an attempt to start the successor: it lives only under a held supervisor. */
    predicate StartedAtMost()
      reads `world, `sequence, `supervisor, `attempt
    {
      && world.restore == 0 && !world.oldApp && world.restored == NotStarted
      && 7 <= sequence <= 9 && world.forward <= 11
      && (world.successor.Live() ==> supervisor)
      && (supervisor ==> !attempt)
    }

    /** The roots are back and the restored application may be started. */
    predicate ReadyToRestart()
      reads `world, `sequence
    {
      && world.restore == 2 && !world.torn && sequence == world.Length()
      && !world.oldApp && !world.successor.Live() && world.restored == NotStarted
    }

    predicate RestoredHeld()
      reads `world, `sequence, `supervisor, `attempt
    {
      && world.restore == 3 && !world.torn && sequence == world.Length()
      && supervisor && attempt
      && (world.restored == Gated || world.restored == Stopped)
    }

    method SpawnRestored() returns (ok: bool)
      requires Valid() && role == Coordinating && !supervisor && ReadyToRestart()
      modifies `world, `effects, `sequence, `operations, `supervisor, `attempt, `owned,
               `stopConfirmed, `releaseAllowed, `releaseCompleted
      ensures Valid() && old(effects) <= effects && old(operations) <= operations
      ensures Restarting(old(world).forward) && sequence <= world.forward + 3
      ensures ok ==> RestoredHeld()
      ensures releaseAllowed ==> old(releaseAllowed)
      ensures releaseCompleted ==> old(releaseCompleted)
      ensures WorksFrom(old(operations)) ==> ok
    {
      ok := AppendRestore(Receipt(RestoredStart, Intent));
      if !ok { return; }
      assert Enabled(world, Spawn(true));
      ok := SpawnSupervisor(true);
    }

    method GateRestored() returns (ok: bool)
      requires Valid() && role == Coordinating && RestoredHeld()
      modifies `world, `effects, `sequence, `operations
      ensures Valid() && old(effects) <= effects && old(operations) <= operations
      ensures Restarting(old(world).forward) && sequence <= world.forward + 4
      ensures ok ==> sequence == world.forward + 4
      ensures supervisor && attempt
      ensures ok ==> world.restored == Running || world.restored == Stopped
      ensures WorksFrom(old(operations)) ==> ok || world.restored == Stopped
    {
      hide Run, ValidRun, DiskFits, Classify, Word;
      ok := AppendRestore(Receipt(RestoredStart, Completed));
      if !ok { return; }
      ok := ReleaseGate();
    }

    /** From here on the journal is in its restore part, with the forward part unchanged. */
    predicate Restarting(forward: nat)
      reads `world
    {
      world.forward == forward && world.restore >= 2
    }

    method StartRestored() returns (ok: bool)
      requires Valid() && role == Coordinating && !supervisor && ReadyToRestart()
      modifies `world, `effects, `sequence, `operations, `supervisor, `attempt, `owned,
               `stopConfirmed, `releaseAllowed, `releaseCompleted, `calls
      ensures Valid() && old(effects) <= effects && old(operations) <= operations
      ensures calls == old(calls) + [Done(Starting(true), ok)]
      ensures Restarting(old(world).forward) && sequence <= world.forward + 4
      ensures ok ==> sequence == world.forward + 4 && supervisor && attempt
      ensures releaseAllowed ==> old(releaseAllowed)
      ensures releaseCompleted ==> old(releaseCompleted)
      ensures ok ==> world.restored == Running || world.restored == Stopped
      ensures WorksFrom(old(operations)) ==> ok || world.restored == Stopped
    {
      ok := SpawnRestored();
      if ok { ok := GateRestored(); }
      calls := calls + [Done(Starting(true), ok)];
    }

    /** The attempted runtime exits, by request or on its own. */
    method AttemptExits()
      requires Valid()
      modifies `world, `effects
      ensures Valid() && old(effects) <= effects
      ensures Drifts(old(world), world) && !Attempted().Live()
    {
      hide Run, ValidRun, DiskFits;
      Interfere();
      if Attempted().Live() {
        DriftContinues(old(world), world, RuntimeExits(attempt));
        Do(RuntimeExits(attempt));
      }
    }

    /** Closes gate and control pipe and waits for proof that nothing of the attempt is left. */
    method CollectAttempt() returns (ok: bool)
      requires Valid()
      modifies `world, `effects, `operations, `supervisor
      ensures Valid() && old(effects) <= effects && old(operations) <= operations
      ensures Drifts(old(world), world)
      ensures ok ==> !supervisor && (old(supervisor) ==> !Attempted().Live())
      ensures supervisor ==> old(supervisor)
      ensures WorksFrom(old(operations)) && (native ==> owned) ==> ok
      ensures old(supervisor) && !supervisor ==> !Attempted().Live()
      ensures WorksFrom(old(operations)) ==> !supervisor
      ensures ok && native ==> owned
    {
      hide Run, ValidRun, DiskFits;
      if supervisor {
        var fault := NextFault();
        if fault == FailsBefore {
          Interfere();
          return false;
        }
        AttemptExits();
        if fault != Works { return false; }
        supervisor := false;
      } else {
        Interfere();
      }
      var proof := NextFault();
      ok := proof == Works && (native ==> owned);
    }

    method StopFailedStart() returns (ok: bool)
      requires Valid()
      modifies `world, `effects, `operations, `supervisor, `calls
      ensures Valid() && old(effects) <= effects && old(operations) <= operations
      ensures calls == old(calls) + [Done(StoppingStart, ok)]
      ensures Drifts(old(world), world)
      ensures ok ==> !supervisor && (old(supervisor) ==> !Attempted().Live())
      ensures supervisor ==> old(supervisor)
      ensures WorksFrom(old(operations)) && (native ==> owned) ==> ok
      ensures ok && native ==> owned
    {
      ok := CollectAttempt();
      calls := calls + [Done(StoppingStart, ok)];
    }

    /** Asks the held supervisor to stop; success needs its zero-live reply and its reaped exit. */
    method StopRuntime() returns (ok: bool)
      requires Valid()
      modifies `world, `effects, `operations, `supervisor, `stopConfirmed, `calls
      ensures Valid() && old(effects) <= effects && old(operations) <= operations
      ensures calls == old(calls) + [Done(Stopping, ok)]
      ensures Drifts(old(world), world)
      ensures ok ==> old(supervisor) && !supervisor && !Attempted().Live()
      ensures supervisor ==> old(supervisor)
      ensures WorksFrom(old(operations)) && old(supervisor) ==> ok
      ensures ok && native ==> stopConfirmed
    {
      hide Run, ValidRun, DiskFits;
      ok := supervisor;
      if ok {
        var fault := NextFault();
        ok := fault == Works;
        if fault != FailsBefore { AttemptExits(); } else { Interfere(); }
      } else {
        Interfere();
      }
      if ok {
        supervisor := false;
        if native { stopConfirmed := true; }
      }
      calls := calls + [Done(Stopping, ok)];
    }

    /** Independent proof that the stopped runtime left nothing behind. */
    method ReconcileStoppedRuntime() returns (ok: bool)
      requires Valid()
      modifies `world, `effects, `operations, `calls
      ensures Valid() && old(effects) <= effects && old(operations) <= operations
      ensures calls == old(calls) + [Done(Reconciling, ok)]
      ensures Drifts(old(world), world)
      ensures ok ==> native ==> stopConfirmed
      ensures WorksFrom(old(operations)) && (native ==> stopConfirmed) ==> ok
    {
      Interfere();
      var fault := NextFault();
      ok := fault == Works && (native ==> stopConfirmed);
      calls := calls + [Done(Reconciling, ok)];
    }

    // ---------------------------------------------------------------- cleanup

    /** Removes the backup tree entry by entry; it is damaged before it is gone. */
    method RemoveBackupTree() returns (ok: bool)
      requires Valid() && world.forward == 12
      modifies `world, `effects, `operations
      ensures Valid() && old(effects) <= effects && old(operations) <= operations
      ensures world == old(world).(disk := old(world).disk.(backup := world.disk.backup))
      ensures ok ==> world.disk.backup == Absent && old(world).disk.backup != Absent
      ensures WorksFrom(old(operations)) && old(world).disk.backup != Absent ==> ok
    {
      hide DiskFits, Classify;
      var fault := NextFault();
      if fault == FailsBefore || world.disk.backup == Absent { return false; }
      Do(DamageBackup);
      if fault != Works { return false; }
      fault := NextFault();
      if fault == FailsBefore { return false; }
      Do(RemoveBackup);
      ok := fault == Works;
    }

    /** Empties the stage directory, in whatever order; its parent of the candidate slot goes too. */
    method EmptyStage() returns (ok: bool)
      requires Valid() && world.forward == 12 && world.disk.backup == Absent && world.disk.stage != Gone
      modifies `world, `effects, `operations
      ensures Valid() && old(effects) <= effects && old(operations) <= operations
      ensures world == old(world).(disk := old(world).disk.(stage := world.disk.stage))
      ensures ok ==> world.disk.stage == Broken(false)
      ensures WorksFrom(old(operations)) ==> ok
    {
      hide DiskFits, Classify;
      var fault := NextFault();
      if fault == FailsBefore { return false; }
      var parentStays: bool := *;
      if world.disk.stage == Whole && parentStays { BreakStage(true); }
      if fault != Works { return false; }
      BreakStage(false);
      ok := true;
    }

    method BreakStage(parentPresent: bool)
      requires Valid() && world.forward == 12 && world.disk.backup == Absent
      requires world.disk.stage == Whole || (world.disk.stage.Broken? && !parentPresent)
      modifies `world, `effects
      ensures Valid() && old(effects) <= effects
      ensures world == old(world).(disk := old(world).disk.(stage := Broken(parentPresent)))
    {
      hide DiskFits, Classify;
      Do(DamageStage(parentPresent));
    }

    method RemoveStageTree() returns (ok: bool)
      requires Valid() && world.forward == 12 && world.disk.backup == Absent
      modifies `world, `effects, `operations
      ensures Valid() && old(effects) <= effects && old(operations) <= operations
      ensures world == old(world).(disk := old(world).disk.(stage := world.disk.stage))
      ensures ok ==> world.disk.stage == Gone && old(world).disk.stage != Gone
      ensures WorksFrom(old(operations)) && old(world).disk.stage != Gone ==> ok
    {
      hide DiskFits, Classify;
      if world.disk.stage == Gone { return false; }
      ok := EmptyStage();
      if !ok { return; }
      var fault := NextFault();
      if fault == FailsBefore { return false; }
      Do(RemoveStage);
      ok := fault == Works;
    }

    /** Everything the update leaves behind once it has completed. */
    predicate CleanedUp()
      reads `world
    {
      && world.disk == Disk(Holds(Candidate), Absent, Absent, Gone, PreparedFile)
      && world.restore == 0 && world.acknowledged
    }

    method RemoveTrees() returns (ok: bool)
      requires Valid() && world.forward == 12
      modifies `world, `effects, `operations
      ensures Valid() && old(effects) <= effects && old(operations) <= operations
      ensures world == old(world).(disk := world.disk)
      ensures ok ==> world.disk.backup == Absent && world.disk.stage == Gone
      ensures WorksFrom(old(operations)) && old(world).disk.backup != Absent && old(world).disk.stage != Gone ==> ok
    {
      hide DiskFits, Classify;
      ok := RemoveBackupTree();
      if !ok { return; }
      ok := RemoveStageTree();
    }

    /** Records that nothing of the previous version is left. */
    method RecordCleanup() returns (ok: bool)
      requires Valid()
      requires sequence == 12 == world.forward && world.restore == 0
      requires world.disk.backup == Absent && world.disk.stage == Gone
      modifies `world, `effects, `sequence, `operations
      ensures Valid() && old(effects) <= effects && old(operations) <= operations
      ensures world.disk == old(world).disk && (old(world).acknowledged ==> world.acknowledged)
      ensures world.restore == 0 && world.forward >= 12 && 12 <= sequence <= 14
      ensures ok <==> sequence == 14
      ensures ok ==> world.forward == 14
      ensures WorksFrom(old(operations)) && old(SlotFree()) ==> ok
    {
      ok := AppendForward(Receipt(Cleanup, Completed));
      if !ok { return; }
      ok := AppendForward(Receipt(Complete, Completed));
    }

    method CleanupVerified() returns (ok: bool)
      requires Valid() && role == Coordinating
      requires sequence == 11 && world.restore == 0 && world.acknowledged
      modifies `world, `effects, `sequence, `operations, `calls
      ensures Valid() && old(effects) <= effects && old(operations) <= operations
      ensures calls == old(calls) + [Done(Cleaning, ok)]
      ensures world.restore == 0 && 11 <= sequence <= 14
      ensures ok <==> sequence == 14
      ensures ok ==> world.forward == 14 && CleanedUp()
      ensures WorksFrom(old(operations)) && old(SlotFree()) ==> ok
    {
      hide Run, ValidRun, DiskFits;
      if SlotFree() { NothingRemovedYet(world); }
      ok := AppendForward(Receipt(Cleanup, Intent));
      if ok { ok := RemoveTrees(); }
      if ok {
        ok := RecordCleanup();
        if ok { NothingElseLeft(world); }
      }
      calls := calls + [Done(Cleaning, ok)];
    }

    // ------------------------------------------------------------------- hold

    /**
     Lets go of a held supervisor: a released native attempt is committed to its own owner, an
     unreleased one is stopped, any other is held until it exits.
     */
    method HoldRuntime()
      requires Valid()
      modifies `world, `effects, `operations, `supervisor, `releaseCompleted, `calls
      ensures Valid() && old(effects) <= effects && old(operations) <= operations
      ensures calls == old(calls) + [Done(Holding, true)]
      ensures Drifts(old(world), world)
      ensures releaseCompleted && !old(releaseCompleted) ==> native && releaseAllowed
      ensures WorksFrom(old(operations)) && old(supervisor) && native && releaseAllowed ==> releaseCompleted
      ensures supervisor ==> old(supervisor)
      ensures !native ==> !supervisor && (old(supervisor) ==> !Attempted().Live())
      ensures native && !releaseAllowed && old(supervisor) && !supervisor ==> !Attempted().Live()
      ensures native && !releaseAllowed && WorksFrom(old(operations)) ==> !supervisor
      ensures native && releaseAllowed && old(supervisor) ==> (supervisor <==> !releaseCompleted) || old(releaseCompleted)
    {
      hide Run, ValidRun, DiskFits;
      if supervisor && native && releaseAllowed {
        Interfere();
        var fault := NextFault();
        if fault == Works { releaseCompleted, supervisor := true, false; }
      } else if supervisor && native {
        var stopped := CollectAttempt();
      } else if supervisor {
        AttemptExits();
        supervisor := false;
      } else {
        Interfere();
      }
      calls := calls + [Done(Holding, true)];
    }
  }

  /** Going forward: the slots stay, the runtimes at most exit, the journal gains at most one receipt. */
  predicate OnlyJournalMoved(w: World, v: World) {
    && v.restore == 0 && w.forward <= v.forward <= w.forward + 1
    && v.disk == w.disk
    && (v.oldApp ==> w.oldApp)
    && (v.successor == w.successor || (w.successor.Live() && v.successor == Stopped))
    && v.restored == w.restored
    && (w.acknowledged ==> v.acknowledged)
    && (v.acknowledged && !w.acknowledged ==> w.successor == Running)
  }

  /** One runtime may have been let through its gate, and may have recorded what it is entitled to. */
  predicate Released(w: World, v: World, restoring: bool) {
    && v.disk == w.disk
    && (v.oldApp ==> w.oldApp)
    && (v.successor.Live() ==> w.successor.Live())
    && w.forward <= v.forward && w.restore <= v.restore
    && (v.forward == w.forward || v.forward <= 11)
    && (if restoring then v.forward == w.forward else v.restore == w.restore && v.restored == w.restored)
  }

  /** A restore append that was reported as failed: nothing, the receipt, or a torn file is there. */
  predicate MayHaveRestored(w: World, v: World) {
    || Drifts(w, v)
    || (!w.torn && Drifts(w.(restore := w.restore + 1), v))
    || (!w.torn && Drifts(w.(torn := true), v))
  }

  function Spawned(w: World, restoring: bool): World {
    if restoring then w.(restored := Gated) else w.(successor := Gated)
  }

  /** The exchange, where one is needed, and then the registration: that is the whole restoration. */
  lemma RestorationInSteps(w: World)
    requires Inv(w) && w.restore >= 1
    ensures Classify(w.disk).Some?
    ensures var exchange := Classify(w.disk) == Some(Exchanged) || Classify(w.disk) == Some(Promoted);
            var exchanged := if exchange then ExchangeBack(w.disk) else w.disk;
            && exchanged.(registration := PreviousFile) == BroughtBack(w.disk)
            && (w.disk.registration == PreviousFile ==> exchanged == BroughtBack(w.disk))
            && (Classify(exchanged) == Some(Initial) || Classify(exchanged) == Some(RestoredBackup))
    ensures BroughtBack(w.disk).managed == Holds(Current) && BroughtBack(w.disk).registration == PreviousFile
  {
  }

  lemma BeforePromotion(w: World)
    requires Inv(w) && w.forward == 4 && w.restore == 0
    ensures w.disk.registration == PreviousFile
    ensures var shape := Classify(w.disk); shape == Some(Initial) || shape == Some(Exchanged) || shape == Some(Promoted)
  {
  }

  lemma PromotedPlacement(d: Disk)
    ensures Classify(d) == Some(Promoted) ==>
              d.managed == Holds(Candidate) && d.backup == Holds(Current) && d.candidate == Absent
  {
  }

  lemma DriftKeepsLog(w: World, v: World)
    requires Inv(w) && Inv(v) && Drifts(w, v)
    ensures w.Log() <= v.Log()
  {
  }

  lemma NothingRemovedYet(w: World)
    requires Inv(w) && w.restore == 0 && 9 <= w.forward <= 11
    ensures w.disk.backup == Holds(Current) && w.disk.stage == Whole
  {
  }

  lemma NothingElseLeft(w: World)
    requires Inv(w) && w.restore == 0 && w.forward >= 13
    ensures w.disk == Disk(Holds(Candidate), Absent, Absent, Gone, PreparedFile)
  {
  }

  lemma DriftsBeside(u: World, v: World, w: World)
    requires Inv(u) && Inv(v) && Inv(w)
    requires Drifts(u.(disk := v.disk), v) && Drifts(v.(disk := w.disk), w)
    ensures Drifts(u.(disk := w.disk), w)
  {
  }

  /** Two stretches of runtime steps are one. */
  lemma DriftsCompose(u: World, v: World, w: World)
    requires Inv(u) && Inv(v) && Drifts(u, v) && Drifts(v, w)
    ensures Drifts(u, w)
  {
  }
}
