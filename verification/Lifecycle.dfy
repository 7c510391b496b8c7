/**
 A whole update and what follows it: the engine runs, its process is killed at an arbitrary
 point, and a recovery takes over.
 */
module Lifecycle {
  import opened Receipts
  import opened Transaction
  import opened Coordinators
  import opened Engine
  import opened Recovery

  /** One version is installed throughout: the managed tree and the registration belong together. */
  predicate Consistent(d: Disk) {
    || (d.managed == Holds(Current) && d.registration == PreviousFile)
    || (d.managed == Holds(Candidate) && d.registration == PreparedFile)
  }

  /** The journal decides which version a recovery leaves: the new one once its start is recorded. */
  predicate KeepsCandidate(w: World) {
    w.restore == 0 && w.forward >= 9
  }

  lemma RecoveryMakesConsistent(w: World)
    requires Inv(w)
    ensures var d := Recovered(w.forward, w.restore, w.disk).disk;
            Consistent(d) && (d.managed == Holds(Candidate) <==> KeepsCandidate(w))
    ensures Recovered(w.forward, w.restore, w.disk).ok <==>
              (w.restore > 0 || w.forward >= 2) && (KeepsCandidate(w) ==> w.disk.backup == Holds(Current))
  {
    hide DiskFits, Recovered;
    RecoveryOutcome(w);
  }

  /**
   The engine, cut off after any number of steps of its execution, and then one recovery without
   I/O failures.  Whichever operations of the engine failed: if the recovery can read its journal,
   one version is completely installed afterwards, and the journal decides which.  After an update
   that was not cut off and reported success, recovery changes nothing.
   */
  method UpdateThenRecover(w0: World, native: bool, faults: nat -> Fault, cut: nat,
                           hash: Entry -> int, at: nat -> nat, anchor: Anchor)
    returns (crashed: World, finished: bool, ok: bool, after: World)
    requires IsInitial(w0)
    ensures Inv(crashed) && crashed.disk.managed.Holds? && after.disk.managed.Holds?
    ensures !Sound(crashed, hash, at, anchor) ==> !ok && after.disk == crashed.disk
    ensures finished ==> NewVersionInstalled(crashed) || OldVersionRestored(crashed)
    ensures finished ==> after.disk == crashed.disk
    ensures Sound(crashed, hash, at, anchor) ==>
              && Consistent(after.disk)
              && (after.disk.managed == Holds(Candidate) <==> KeepsCandidate(crashed))
              && (ok <==> (crashed.restore > 0 || crashed.forward >= 2)
                          && (KeepsCandidate(crashed) ==> crashed.disk.backup == Holds(Current)))
  {
    hide Recovered, Consistent, DiskFits, Classify, Sound, Enabled, Apply;
    var c := new Coordinator(Coordinating, native, faults, w0);
    finished := Execute(c);
    finished := finished && cut >= |c.effects|;
    var steps := if cut < |c.effects| then c.effects[..cut] else c.effects;
    assert steps == c.effects[..|steps|];
    PrefixIsRun(w0, c.effects, |steps|);
    RunKeepsInvariant(w0, steps);
    crashed := Run(w0, steps);
    ManagedHolds(crashed);
    if finished { FinishedIsStable(crashed); }
    RecoveryMakesConsistent(crashed);
    ok, after := RecoverOnce(crashed, native, k => Works, hash, at, anchor);
    ManagedHolds(after);
  }

  lemma FinishedIsStable(w: World)
    requires Inv(w) && (NewVersionInstalled(w) || OldVersionRestored(w))
    ensures Recovered(w.forward, w.restore, w.disk).disk == w.disk
  {
  }

  lemma ManagedHolds(w: World)
    requires Inv(w)
    ensures w.disk.managed.Holds?
  {
  }

  /** Without the recovery this does not hold: promoted, but with the previous registration. */
  lemma CrashCanLeaveInconsistency()
    ensures exists w :: Reachable(w) && !Consistent(w.disk)
  {
    hide Reachable;
    PromotionCanFinish();
    assert !Consistent(Moved(4, 0, PROMOTED_DISK, false).disk);
  }
}
