/**
 The portable update as a transition system over what survives a crash: the directory
 slots, the registration file, the receipt journal and the three runtimes.

 `Effect` lists every atomic step that anyone takes.  `Enabled` says when a step may be
 taken.  For the steps of the coordinator and of recovery this is an obligation that the
 modules Coordinator, Engine and Recovery discharge for their code; for the steps of the
 runtimes it is the assumption made about them.  A crash is one more step, so every
 theorem about valid runs holds at every crash point and across repeated recoveries.
 */
module Transaction {
  import opened Receipts

  // ------------------------------------------------------------------- state

  datatype Tree = Current | Candidate

  /** `Damaged` is a directory whose digest matches neither tree, such as a partly removed one. */
  datatype Slot = Absent | Holds(tree: Tree) | Damaged

  /** The stage directory, which contains the parent of the candidate slot. */
  datatype Stage = Whole | Broken(parentPresent: bool) | Gone

  datatype Registration = PreviousFile | PreparedFile

  /**
   The slots are three separate directories.  That is a premise on the paths of the plan;
   `Paths.SlotsAreSeparate` says exactly when an accepted plan meets it.
   */
  datatype Disk = Disk(managed: Slot, candidate: Slot, backup: Slot, stage: Stage, registration: Registration)

  datatype Shape = Initial | Exchanged | Promoted | RestoredBackup

  /** Gated: spawned, but blocked until the coordinator writes its start gate. */
  datatype Runtime = NotStarted | Gated | Running | Stopped {
    predicate Live() { this == Gated || this == Running }
  }

  /** `torn`: an unfinished file occupies the slot after the last receipt. */
  datatype World = World(
    forward: nat, restore: nat, torn: bool, disk: Disk,
    oldApp: bool, successor: Runtime, restored: Runtime, acknowledged: bool)
  {
    function Length(): nat { forward + restore }

    function Log(): seq<Receipt>
      requires forward <= FORWARD_RECEIPTS && restore <= RESTORE_RECEIPTS
    {
      Word(forward, restore)
    }
  }

  const INITIAL_DISK := Disk(Holds(Current), Holds(Candidate), Absent, Whole, PreviousFile)

  /** Before the update: the old application runs and nothing has been recorded or moved. */
  predicate IsInitial(w: World) {
    && w.forward == 0 && w.restore == 0 && !w.torn && w.disk == INITIAL_DISK
    && w.oldApp && w.successor == NotStarted && w.restored == NotStarted && !w.acknowledged
  }

  /** The cutover classifier: it needs the parent of every slot and recognises four placements. */
  function Classify(d: Disk): Option<Shape> {
    if d.stage == Gone || d.stage == Broken(false) then None
    else match (d.managed, d.candidate, d.backup)
      case (Holds(Current), Holds(Candidate), Absent) => Some(Initial)
      case (Holds(Candidate), Holds(Current), Absent) => Some(Exchanged)
      case (Holds(Candidate), Absent, Holds(Current)) => Some(Promoted)
      case (Holds(Current), Absent, Holds(Candidate)) => Some(RestoredBackup)
      case _ => None
  }

  /** Were the managed root its own backup, no placement would be recognised at all. */
  lemma OneSlotIsNeverClassified(d: Disk)
    requires d.managed == d.backup
    ensures Classify(d) == None
  {
  }

  // ----------------------------------------------------------------- effects

  datatype Role = Coordinating | Recovering

  datatype Effect =
    | Append(role: Role, receipt: Receipt)
    | SuccessorAppend(verify: Receipt)
    | RestoredAppend(restored: Receipt)
    | Tear
    | PromoteExchange | PromoteRelocate | PublishRegistration
    | RestoreExchange | RestoreRegistration
    | DamageBackup | RemoveBackup | DamageStage(parentPresent: bool) | RemoveStage
    | OldExits
    | Spawn(restoring: bool) | Release(restoring: bool) | RuntimeExits(restoring: bool)
    | Acknowledge
    | Crash
    | Relaunch

  predicate ExtendsForward(w: World, receipt: Receipt) {
    w.restore == 0 && w.forward < FORWARD_RECEIPTS && receipt == ForwardReceipt(w.forward)
  }

  predicate ExtendsRestore(w: World, receipt: Receipt) {
    && w.restore < RESTORE_RECEIPTS
    && (w.restore == 0 ==> 3 <= w.forward <= 9)
    && receipt == RestoreReceipt(w.restore)
  }

  /** What must hold in the world before a native process records the receipt. */
  predicate Justified(w: World, role: Role, receipt: Receipt) {
    match (receipt.kind, receipt.outcome)
    case (OldExit, Completed) => role == Recovering || !w.oldApp
    case (Promote, Intent) => role == Coordinating && !w.oldApp
    case (Promote, Completed) => Classify(w.disk) == Some(Promoted)
    case (Register, Completed) => w.disk.registration == PreparedFile
    case (Start, Completed) => w.successor == Gated || w.successor == Stopped
    case (Verify, _) => false
    case (Cleanup, Intent) => role == Recovering || w.acknowledged
    case (Cleanup, Completed) => w.disk.backup == Absent && w.disk.stage == Gone
    case (Complete, _) => w.disk.backup == Absent && w.disk.stage == Gone
    case (Restore, Intent) => !w.successor.Live()
    case (Restore, Completed) => w.disk.managed == Holds(Current) && w.disk.registration == PreviousFile
    case (RestoredStart, Completed) => w.restored == Gated || w.restored == Stopped
    case (RestoredVerify, _) => false
    case _ => true
  }

  predicate Enabled(w: World, e: Effect) {
    match e
    case Append(role, receipt) =>
      && !w.torn
      && (ExtendsForward(w, receipt) || ExtendsRestore(w, receipt))
      && Justified(w, role, receipt)
    case SuccessorAppend(receipt) =>
      !w.torn && w.successor == Running && ExtendsForward(w, receipt) && receipt.kind == Verify
    case RestoredAppend(receipt) =>
      !w.torn && w.restored == Running && w.restore >= 2 && ExtendsRestore(w, receipt)
    case Tear => !w.torn
    case PromoteExchange => w.forward == 4 && w.restore == 0 && Classify(w.disk) == Some(Initial)
    case PromoteRelocate => w.forward == 4 && w.restore == 0 && Classify(w.disk) == Some(Exchanged)
    case PublishRegistration => w.forward == 6 && w.restore == 0 && Classify(w.disk) == Some(Promoted)
    case RestoreExchange =>
      w.restore >= 1 && (Classify(w.disk) == Some(Exchanged) || Classify(w.disk) == Some(Promoted))
    case RestoreRegistration =>
      w.restore >= 1 && (Classify(w.disk) == Some(Initial) || Classify(w.disk) == Some(RestoredBackup))
    case DamageBackup => w.forward == 12 && w.disk.backup != Absent
    case RemoveBackup => w.forward == 12 && w.disk.backup == Damaged
    case DamageStage(parentPresent) =>
      && w.forward == 12 && w.disk.backup == Absent && w.disk.stage != Gone
      && (w.disk.stage == Broken(false) ==> !parentPresent)
    case RemoveStage => w.forward == 12 && w.disk.backup == Absent && w.disk.stage == Broken(false)
    case OldExits => w.oldApp
    case Spawn(restoring) =>
      && !w.oldApp && !w.successor.Live() && !w.restored.Live()
      && if restoring then w.restore == 3 else w.forward == 8 && w.restore == 0 && w.successor == NotStarted
    case Release(restoring) =>
      if restoring then w.restored == Gated && w.restore >= 4
      else w.successor == Gated && w.forward >= 9
    case RuntimeExits(restoring) => if restoring then w.restored.Live() else w.successor.Live()
    case Acknowledge => w.successor == Running && w.forward >= 11
    case Crash => true
    case Relaunch => w.restore >= 2 && !w.oldApp && !w.successor.Live() && !w.restored.Live()
  }

  function AppendTo(w: World, receipt: Receipt): World {
    if ExtendsForward(w, receipt) then w.(forward := w.forward + 1) else w.(restore := w.restore + 1)
  }

  /** `RENAME_EXCHANGE` of the managed slot with whichever slot holds the current tree. */
  function ExchangeBack(d: Disk): Disk {
    if Classify(d) == Some(Exchanged)
    then d.(managed := d.candidate, candidate := d.managed)
    else d.(managed := d.backup, backup := d.managed)
  }

  /** The disk after a complete restoration: the exchange, where one is needed, and the old registration. */
  function BroughtBack(d: Disk): Disk {
    var exchanged := Classify(d) == Some(Exchanged) || Classify(d) == Some(Promoted);
    (if exchanged then ExchangeBack(d) else d).(registration := PreviousFile)
  }

  function Apply(w: World, e: Effect): World {
    match e
    case Append(_, receipt) => AppendTo(w, receipt)
    case SuccessorAppend(receipt) => AppendTo(w, receipt)
    case RestoredAppend(receipt) => AppendTo(w, receipt)
    case Tear => w.(torn := true)
    case PromoteExchange => w.(disk := w.disk.(managed := w.disk.candidate, candidate := w.disk.managed))
    case PromoteRelocate => w.(disk := w.disk.(backup := w.disk.candidate, candidate := Absent))
    case PublishRegistration => w.(disk := w.disk.(registration := PreparedFile))
    case RestoreExchange => w.(disk := ExchangeBack(w.disk))
    case RestoreRegistration => w.(disk := w.disk.(registration := PreviousFile))
    case DamageBackup => w.(disk := w.disk.(backup := Damaged))
    case RemoveBackup => w.(disk := w.disk.(backup := Absent))
    case DamageStage(parentPresent) => w.(disk := w.disk.(stage := Broken(parentPresent)))
    case RemoveStage => w.(disk := w.disk.(stage := Gone))
    case OldExits => w.(oldApp := false)
    case Spawn(restoring) => if restoring then w.(restored := Gated) else w.(successor := Gated)
    case Release(restoring) => if restoring then w.(restored := Running) else w.(successor := Running)
    case RuntimeExits(restoring) => if restoring then w.(restored := Stopped) else w.(successor := Stopped)
    case Acknowledge => w.(acknowledged := true)
    case Crash => w.(successor := if w.successor == Gated then Stopped else w.successor,
                     restored := if w.restored == Gated then Stopped else w.restored)
    case Relaunch => w.(restored := Running)
  }

  // --------------------------------------------------------------- invariant

  /** The placements of the three slots that the journal allows. */
  predicate DiskFits(forward: nat, restore: nat, d: Disk) {
    var shape := Classify(d);
    if restore >= 1 then
      && d.stage == Whole
      && (forward == 3 ==> shape == Some(Initial))
      && (forward >= 5 ==> shape == Some(Promoted) || shape == Some(RestoredBackup))
      && shape.Some?
      && (d.registration == PreparedFile ==> forward >= 6)
      && (forward >= 7 && shape == Some(Promoted) ==> d.registration == PreparedFile)
      && (restore >= 2 ==> d.managed == Holds(Current) && d.registration == PreviousFile)
    else if forward <= 3 then d == INITIAL_DISK
    else if forward == 4 then
      d.stage == Whole && d.registration == PreviousFile && shape.Some? && shape != Some(RestoredBackup)
    else if forward <= 11 then
      && d.stage == Whole && shape == Some(Promoted)
      && (forward == 5 ==> d.registration == PreviousFile)
      && (forward >= 7 ==> d.registration == PreparedFile)
    else
      && d.managed == Holds(Candidate) && d.candidate == Absent && d.registration == PreparedFile
      && (d.backup == Absent || (d.stage == Whole && d.backup != Holds(Candidate)))
      && (forward >= 13 ==> d.backup == Absent && d.stage == Gone)
  }

  predicate Inv(w: World) {
    && w.forward <= FORWARD_RECEIPTS && w.restore <= RESTORE_RECEIPTS
    && (w.restore > 0 ==> 3 <= w.forward <= 9)
    && DiskFits(w.forward, w.restore, w.disk)
    && (w.oldApp ==> w.forward <= 3 && w.successor == NotStarted && w.restored == NotStarted)
    && (w.successor != NotStarted ==> w.forward >= 8)
    && (w.forward >= 9 ==> w.successor != NotStarted)
    && (w.successor.Live() ==> w.restore == 0)
    && (w.successor == Running ==> w.forward >= 9)
    && (w.restored != NotStarted ==> w.restore >= 2)
    && (w.restore >= 4 ==> w.restored != NotStarted)
    && (w.acknowledged ==> w.forward >= 11)
  }

  predicate IsAppend(e: Effect) {
    e.Append? || e.SuccessorAppend? || e.RestoredAppend?
  }

  predicate TouchesDisk(e: Effect) {
    || e.PromoteExchange? || e.PromoteRelocate? || e.PublishRegistration?
    || e.RestoreExchange? || e.RestoreRegistration?
    || e.DamageBackup? || e.RemoveBackup? || e.DamageStage? || e.RemoveStage?
  }

  /** Every step keeps the invariant, and the journal only ever grows at its end. */
  lemma StepKeepsInvariant(w: World, e: Effect)
    requires Inv(w) && Enabled(w, e)
    ensures Inv(Apply(w, e))
    ensures w.Log() <= Apply(w, e).Log()
  {
    if IsAppend(e) {
      AppendKeepsInvariant(w, e);
      JournalGrows(w, Apply(w, e));
    } else if TouchesDisk(e) {
      DiskStepKeepsInvariant(w, e);
    } else {
      RuntimeStepKeepsInvariant(w, e);
    }
  }

  lemma JournalGrows(w: World, after: World)
    requires Inv(w) && Inv(after)
    requires w.forward <= after.forward && w.restore <= after.restore
    requires w.restore > 0 ==> after.forward == w.forward
    ensures w.Log() <= after.Log()
  {
  }

  lemma AppendKeepsInvariant(w: World, e: Effect)
    requires Inv(w) && Enabled(w, e) && IsAppend(e)
    ensures Inv(Apply(w, e))
    ensures w.restore > 0 ==> Apply(w, e).forward == w.forward
    ensures w.forward <= Apply(w, e).forward && w.restore <= Apply(w, e).restore
  {
    var receipt := match e case Append(_, r) => r case SuccessorAppend(r) => r case RestoredAppend(r) => r;
    if ExtendsForward(w, receipt) {
      assert receipt == ForwardReceipt(w.forward);
    } else {
      assert receipt == RestoreReceipt(w.restore);
    }
  }

  lemma DiskStepKeepsInvariant(w: World, e: Effect)
    requires Inv(w) && Enabled(w, e) && TouchesDisk(e)
    ensures Inv(Apply(w, e))
  {
  }

  lemma RuntimeStepKeepsInvariant(w: World, e: Effect)
    requires Inv(w) && Enabled(w, e) && !IsAppend(e) && !TouchesDisk(e)
    ensures Inv(Apply(w, e))
  {
  }

  // -------------------------------------------------------------------- runs

  function Run(w: World, effects: seq<Effect>): World {
    if effects == [] then w else Apply(Run(w, effects[..|effects| - 1]), effects[|effects| - 1])
  }

  predicate ValidRun(w: World, effects: seq<Effect>) {
    effects != [] ==>
      && ValidRun(w, effects[..|effects| - 1])
      && Enabled(Run(w, effects[..|effects| - 1]), effects[|effects| - 1])
  }

  lemma {:induction false} RunKeepsInvariant(w: World, effects: seq<Effect>)
    requires Inv(w) && ValidRun(w, effects)
    ensures Inv(Run(w, effects))
  {
    if effects != [] {
      RunKeepsInvariant(w, effects[..|effects| - 1]);
      StepKeepsInvariant(Run(w, effects[..|effects| - 1]), effects[|effects| - 1]);
    }
  }

  /** Every prefix of a run is a run: whatever holds of valid runs holds at each crash point. */
  lemma {:induction false} PrefixIsRun(w: World, effects: seq<Effect>, k: nat)
    requires ValidRun(w, effects) && k <= |effects|
    ensures ValidRun(w, effects[..k])
  {
    if k < |effects| {
      var shorter := effects[..|effects| - 1];
      assert shorter[..k] == effects[..k];
      PrefixIsRun(w, shorter, k);
    } else {
      assert effects[..k] == effects;
    }
  }

  lemma EachStepIsEnabled(w: World, effects: seq<Effect>, k: nat)
    requires ValidRun(w, effects) && k < |effects|
    ensures ValidRun(w, effects[..k]) && Enabled(Run(w, effects[..k]), effects[k])
  {
    hide Enabled, Apply;
    PrefixIsRun(w, effects, k + 1);
    var prefix := effects[..k + 1];
    assert prefix[..|prefix| - 1] == effects[..k];
  }

  // ------------------------------------------------------- theorems about runs

  /** In a run from the initial world, at every point of it, the managed root names a whole tree. */
  lemma ManagedIsAlwaysWhole(w0: World, effects: seq<Effect>, k: nat)
    requires IsInitial(w0) && ValidRun(w0, effects) && k <= |effects|
    ensures Run(w0, effects[..k]).disk.managed.Holds?
  {
    PrefixIsRun(w0, effects, k);
    RunKeepsInvariant(w0, effects[..k]);
  }

  function Copies(d: Disk, tree: Tree): nat {
    (if d.managed == Holds(tree) then 1 else 0)
    + (if d.candidate == Holds(tree) then 1 else 0)
    + (if d.backup == Holds(tree) then 1 else 0)
  }

  /** Until cleanup is announced both trees exist exactly once, so either outcome stays possible. */
  lemma TreesAreConserved(w0: World, effects: seq<Effect>, k: nat, tree: Tree)
    requires IsInitial(w0) && ValidRun(w0, effects) && k <= |effects|
    ensures var w := Run(w0, effects[..k]);
            (w.forward < 12 || tree == Candidate ==> Copies(w.disk, tree) == 1)
  {
    PrefixIsRun(w0, effects, k);
    RunKeepsInvariant(w0, effects[..k]);
    var w := Run(w0, effects[..k]);
    FittingDiskConserves(w.forward, w.restore, w.disk, tree);
  }

  lemma FittingDiskConserves(forward: nat, restore: nat, d: Disk, tree: Tree)
    requires DiskFits(forward, restore, d)
    requires restore > 0 ==> forward <= 9
    ensures forward < 12 || tree == Candidate ==> Copies(d, tree) == 1
  {
  }

  /** The classifier rejects a reachable disk exactly when the removal of the backup has begun. */
  lemma ClassifierRejectsOnlyCleanup(w0: World, effects: seq<Effect>)
    requires IsInitial(w0) && ValidRun(w0, effects)
    ensures var w := Run(w0, effects);
            Classify(w.disk) == None <==> w.forward >= 12 && w.disk.backup != Holds(Current)
  {
    RunKeepsInvariant(w0, effects);
  }

  /** At most one of the three applications is live. */
  lemma AtMostOneRuntimeIsLive(w0: World, effects: seq<Effect>)
    requires IsInitial(w0) && ValidRun(w0, effects)
    ensures var w := Run(w0, effects);
            && !(w.oldApp && w.successor.Live())
            && !(w.oldApp && w.restored.Live())
            && !(w.successor.Live() && w.restored.Live())
  {
    RunKeepsInvariant(w0, effects);
  }

  predicate Verified(w: World)
    requires Inv(w)
  {
    exists i | 0 <= i < w.Length() :: w.Log()[i].kind == Verify
  }

  lemma VerifiedAfterTen(w: World)
    requires Inv(w)
    ensures Verified(w) <==> w.forward >= 10
  {
    if w.forward >= 10 { assert w.Log()[9].kind == Verify; }
    forall i: nat | i < w.Length() && w.forward < 10
      ensures w.Log()[i].kind != Verify
    {
      WordIndexing(w.forward, w.restore, i);
    }
  }

  /**
   Verification and rollback exclude each other, whatever the interleaving of the successor's
   appends, the coordinator, crashes and recoveries: both need the tenth slot of the journal.
   */
  lemma VerificationExcludesRollback(w0: World, effects: seq<Effect>)
    requires IsInitial(w0) && ValidRun(w0, effects)
    ensures Inv(Run(w0, effects))
    ensures RestoreExchange in effects || RestoreRegistration in effects ==> !Verified(Run(w0, effects))
  {
    RunKeepsInvariant(w0, effects);
    var w := Run(w0, effects);
    VerifiedAfterTen(w);
    if RestoreExchange in effects || RestoreRegistration in effects {
      RollbackIsRecorded(w0, effects);
    }
  }

  lemma {:induction false} RollbackIsRecorded(w0: World, effects: seq<Effect>)
    requires IsInitial(w0) && ValidRun(w0, effects)
    requires RestoreExchange in effects || RestoreRegistration in effects
    ensures Run(w0, effects).restore > 0
  {
    var before, last := effects[..|effects| - 1], effects[|effects| - 1];
    assert effects == before + [last];
    RestoringIsForGood(Run(w0, before), last);
    if last != RestoreExchange && last != RestoreRegistration {
      RollbackIsRecorded(w0, before);
    }
  }

  lemma RestoringIsForGood(w: World, e: Effect)
    requires Enabled(w, e)
    ensures w.restore <= Apply(w, e).restore
    ensures e == RestoreExchange || e == RestoreRegistration ==> Apply(w, e).restore > 0
  {
  }

  /** The roots are never put back under a live candidate. */
  lemma NoRollbackUnderLiveCandidate(w0: World, effects: seq<Effect>, k: nat)
    requires IsInitial(w0) && ValidRun(w0, effects) && k < |effects|
    requires effects[k] == RestoreExchange || effects[k] == RestoreRegistration
    ensures !Run(w0, effects[..k]).successor.Live()
  {
    hide Run, ValidRun, Classify, DiskFits;
    EachStepIsEnabled(w0, effects, k);
    RunKeepsInvariant(w0, effects[..k]);
  }

  predicate Removes(e: Effect) {
    e.DamageBackup? || e.RemoveBackup? || e.DamageStage? || e.RemoveStage?
  }

  /** Nothing of the previous version is removed before the candidate has been verified. */
  lemma {:induction false} RemovalFollowsVerification(w0: World, effects: seq<Effect>, k: nat)
    requires IsInitial(w0) && ValidRun(w0, effects) && k < |effects| && Removes(effects[k])
    ensures Inv(Run(w0, effects)) && Verified(Run(w0, effects))
    ensures Run(w0, effects).forward >= 12 && Run(w0, effects).Log()[10] == Receipt(Verify, Completed)
  {
    hide DiskFits, Classify, Enabled, Apply;
    var before, last := effects[..|effects| - 1], effects[|effects| - 1];
    RunKeepsInvariant(w0, effects);
    RunKeepsInvariant(w0, before);
    if k < |before| {
      RemovalFollowsVerification(w0, before, k);
      StepKeepsInvariant(Run(w0, before), last);
    }
    ForwardNeverShrinks(Run(w0, before), last);
    VerifiedAfterTen(Run(w0, effects));
  }

  lemma ForwardNeverShrinks(w: World, e: Effect)
    requires Enabled(w, e)
    ensures w.forward <= Apply(w, e).forward
    ensures Removes(e) ==> w.forward == 12
    ensures w.acknowledged ==> Apply(w, e).acknowledged
    ensures w.forward == 11 && Apply(w, e).forward > 11 && e.Append? && e.role == Coordinating ==> w.acknowledged
    ensures w.forward == 11 && Apply(w, e).forward > 11 ==> e.Append?
    ensures Apply(w, e).forward <= w.forward + 1
  {
    if e.SuccessorAppend? { assert e.verify == ForwardReceipt(w.forward); }
  }

  /** Unless a recovery has appended to the journal, cleanup is announced only after the acknowledgement. */
  lemma {:induction false} CleanupFollowsAcknowledgement(w0: World, effects: seq<Effect>)
    requires IsInitial(w0) && ValidRun(w0, effects) && Run(w0, effects).forward >= 12
    requires forall i | 0 <= i < |effects| :: !(effects[i].Append? && effects[i].role == Recovering)
    ensures Run(w0, effects).acknowledged
  {
    var before, last := effects[..|effects| - 1], effects[|effects| - 1];
    ForwardNeverShrinks(Run(w0, before), last);
    if Run(w0, before).forward >= 12 {
      CleanupFollowsAcknowledgement(w0, before);
    }
  }

  lemma OldExitStep(w: World, e: Effect)
    requires Inv(w) && Enabled(w, e)
    ensures Apply(w, e).oldApp ==> w.oldApp
    ensures w.forward < 3 <= Apply(w, e).forward && w.oldApp ==> e.Append? && e.role == Recovering
  {
    hide DiskFits, Classify;
    if e.SuccessorAppend? { assert e.verify == ForwardReceipt(w.forward); }
    if e.Append? && w.forward == 2 && ExtendsForward(w, e.receipt) { assert e.receipt == ForwardReceipt(2); }
  }

  /** Unless a recovery has appended to the journal, the exit of the old application is recorded only once it is gone. */
  lemma {:induction false} OldExitIsObserved(w0: World, effects: seq<Effect>)
    requires IsInitial(w0) && ValidRun(w0, effects) && Run(w0, effects).forward >= 3
    requires forall i | 0 <= i < |effects| :: !(effects[i].Append? && effects[i].role == Recovering)
    ensures !Run(w0, effects).oldApp
  {
    hide DiskFits, Classify, Enabled, Apply;
    var before, last := effects[..|effects| - 1], effects[|effects| - 1];
    RunKeepsInvariant(w0, before);
    OldExitStep(Run(w0, before), last);
    if Run(w0, before).forward >= 3 { OldExitIsObserved(w0, before); }
  }

  /** Every journal a run can leave behind is admitted by the native loader and by the server. */
  lemma JournalIsAdmitted(w0: World, effects: seq<Effect>)
    requires IsInitial(w0) && ValidRun(w0, effects)
    ensures var w := Run(w0, effects);
            && Inv(w)
            && Loadable(w.Log(), w.forward, w.restore)
            && ServerOrdered(w.Log())
  {
    RunKeepsInvariant(w0, effects);
    var w := Run(w0, effects);
    OrderChecksDisagree(w.Log(), w.forward, w.restore);
  }

  ghost predicate Reachable(w: World) {
    exists w0, effects :: IsInitial(w0) && ValidRun(w0, effects) && Run(w0, effects) == w
  }

  lemma Extend(w: World, e: Effect)
    requires Reachable(w) && Enabled(w, e)
    ensures Reachable(Apply(w, e))
  {
    var w0, effects :| IsInitial(w0) && ValidRun(w0, effects) && Run(w0, effects) == w;
    var longer := effects + [e];
    assert longer[..|longer| - 1] == effects;
    assert ValidRun(w0, longer) && Run(w0, longer) == Apply(w, e);
  }

  /** A world in which nothing but the journal, the slots and the old application has changed. */
  function Moved(forward: nat, restore: nat, disk: Disk, oldApp: bool): World {
    World(forward, restore, false, disk, oldApp, NotStarted, NotStarted, false)
  }

  const EXCHANGED_DISK := Disk(Holds(Candidate), Holds(Current), Absent, Whole, PreviousFile)
  const PROMOTED_DISK := Disk(Holds(Candidate), Absent, Holds(Current), Whole, PreviousFile)
  const RESTORED_DISK := Disk(Holds(Current), Absent, Holds(Candidate), Whole, PreviousFile)

  lemma NothingDoneIsReachable()
    ensures Reachable(Moved(0, 0, INITIAL_DISK, true))
  {
    var w0 := Moved(0, 0, INITIAL_DISK, true);
    assert IsInitial(w0) && ValidRun(w0, []) && Run(w0, []) == w0;
  }

  lemma JournalCanGrow(forward: nat, disk: Disk, oldApp: bool)
    requires forward < 2 || (!oldApp && forward < 4)
    requires Reachable(Moved(forward, 0, disk, oldApp))
    ensures Reachable(Moved(forward + 1, 0, disk, oldApp))
  {
    hide Reachable;
    Extend(Moved(forward, 0, disk, oldApp), Append(Coordinating, ForwardReceipt(forward)));
  }

  lemma PromotionCanBegin()
    ensures Reachable(Moved(4, 0, INITIAL_DISK, false))
  {
    hide Reachable;
    NothingDoneIsReachable();
    JournalCanGrow(0, INITIAL_DISK, true);
    JournalCanGrow(1, INITIAL_DISK, true);
    Extend(Moved(2, 0, INITIAL_DISK, true), OldExits);
    JournalCanGrow(2, INITIAL_DISK, false);
    JournalCanGrow(3, INITIAL_DISK, false);
  }

  lemma PromotionCanFinish()
    ensures Reachable(Moved(4, 0, EXCHANGED_DISK, false)) && Reachable(Moved(4, 0, PROMOTED_DISK, false))
  {
    hide Reachable;
    PromotionCanBegin();
    Extend(Moved(4, 0, INITIAL_DISK, false), PromoteExchange);
    Extend(Moved(4, 0, EXCHANGED_DISK, false), PromoteRelocate);
  }

  lemma CrashCanBeFollowedByRestoration(disk: Disk)
    requires Reachable(Moved(4, 0, disk, false))
    ensures Reachable(Moved(4, 1, disk, false))
  {
    hide Reachable;
    Extend(Moved(4, 0, disk, false), Crash);
    Extend(Moved(4, 0, disk, false), Append(Recovering, RestoreReceipt(0)));
  }

  lemma ExchangeBackRestores()
    ensures Enabled(Moved(4, 1, PROMOTED_DISK, false), RestoreExchange)
    ensures Apply(Moved(4, 1, PROMOTED_DISK, false), RestoreExchange) == Moved(4, 1, RESTORED_DISK, false)
  {
  }

  lemma PromotionCanBeRolledBack()
    ensures Reachable(Moved(4, 1, RESTORED_DISK, false))
  {
    hide Reachable;
    PromotionCanFinish();
    CrashCanBeFollowedByRestoration(PROMOTED_DISK);
    ExchangeBackRestores();
    Extend(Moved(4, 1, PROMOTED_DISK, false), RestoreExchange);
  }

  /** All four placements the classifier recognises do occur, the last one after a crash. */
  lemma EveryShapeIsReachable(shape: Shape)
    ensures exists w :: Reachable(w) && Classify(w.disk) == Some(shape)
  {
    hide Reachable;
    PromotionCanBegin();
    PromotionCanFinish();
    PromotionCanBeRolledBack();
    assert Classify(Moved(4, 0, INITIAL_DISK, false).disk) == Some(Initial);
    assert Classify(Moved(4, 0, EXCHANGED_DISK, false).disk) == Some(Exchanged);
    assert Classify(Moved(4, 0, PROMOTED_DISK, false).disk) == Some(Promoted);
    assert Classify(Moved(4, 1, RESTORED_DISK, false).disk) == Some(RestoredBackup);
  }
}
