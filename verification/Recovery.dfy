/**
 Recovery after a crash: load the journal, then reconcile the disk with it.

 The process that wrote the journal is gone, but a successor that it released may still be
 running and may keep appending its own receipts while recovery works.
 */
module Recovery {
  import opened Receipts
  import opened Transaction
  import opened Coordinators

  // --------------------------------------------------------- loading the journal

  /** The journal directory: one authentic file for each receipt, and perhaps a torn one after them. */
  ghost predicate Journal(files: seq<File>, hash: Entry -> int, w: World) {
    && w.forward <= FORWARD_RECEIPTS && w.restore <= RESTORE_RECEIPTS
    && |files| == w.Length() + (if w.torn then 1 else 0)
    && (forall i: nat | i < w.Length() :: Chained(files, hash, i) && files[i].entry.receipt == w.Log()[i])
    && (w.torn ==> files[|files| - 1].Torn?)
  }

  /** Loading succeeds exactly when nothing is torn and the request's anchor is in the journal. */
  lemma LoadedIsTheJournal(files: seq<File>, hash: Entry -> int, anchor: Anchor, w: World, forward: nat, restore: nat)
    requires Inv(w) && Journal(files, hash, w) && Loads(files, hash, anchor, forward, restore)
    ensures !w.torn && Anchored(files, hash, anchor) && forward == w.forward && restore == w.restore
  {
    assert w.Log() == Word(forward, restore) by {
      forall i | 0 <= i < w.Length()
        ensures w.Log()[i] == Word(forward, restore)[i]
      {
        assert Chained(files, hash, i);
      }
    }
    SplitIsUnique(w.Log(), w.forward, w.restore, forward, restore);
  }

  lemma JournalLoads(files: seq<File>, hash: Entry -> int, anchor: Anchor, w: World)
    requires Inv(w) && Journal(files, hash, w) && !w.torn && Anchored(files, hash, anchor)
    ensures Loads(files, hash, anchor, w.forward, w.restore)
  {
    assert Authentic(files, hash) && Carries(files, w.Log());
  }

  /** The receipt files of a log: each names its position and the digest of the file before it. */
  function Written(log: seq<Receipt>, hash: Entry -> int, at: nat -> nat): (files: seq<File>)
    ensures |files| == |log|
  {
    if log == [] then []
    else
      var n := |log| - 1;
      var before := Written(log[..n], hash, at);
      before + [Sealed(Entry(false, n + 1, log[n], at(n), DigestAfter(before, hash, n)))]
  }

  lemma {:induction false} WrittenIsChained(log: seq<Receipt>, hash: Entry -> int, at: nat -> nat, i: nat)
    requires i < |log|
    ensures Chained(Written(log, hash, at), hash, i) && Written(log, hash, at)[i].entry.receipt == log[i]
  {
    var n := |log| - 1;
    if i < n {
      WrittenIsChained(log[..n], hash, at, i);
    } else if n > 0 {
      WrittenIsChained(log[..n], hash, at, n - 1);
    }
  }

  /** What the journal directory of a world contains; `at` gives the receipts their timestamps. */
  function Directory(w: World, hash: Entry -> int, at: nat -> nat): seq<File>
    requires w.forward <= FORWARD_RECEIPTS && w.restore <= RESTORE_RECEIPTS
  {
    Written(w.Log(), hash, at) + if w.torn then [Torn] else []
  }

  lemma DirectoryIsJournal(w: World, hash: Entry -> int, at: nat -> nat)
    requires w.forward <= FORWARD_RECEIPTS && w.restore <= RESTORE_RECEIPTS
    ensures Journal(Directory(w, hash, at), hash, w)
  {
    forall i: nat | i < w.Length()
      ensures Chained(Directory(w, hash, at), hash, i) && Directory(w, hash, at)[i].entry.receipt == w.Log()[i]
    {
      WrittenIsChained(w.Log(), hash, at, i);
    }
  }

  /** The process's context after loading: it knows the whole journal as it then was. */
  predicate Loaded(c: Coordinator, w: World)
    reads c
  {
    && c.role == Recovering && !w.torn && w.successor != Gated
    && c.sequence == w.Length()
    && Drifts(w, c.world)
  }

  lemma CrashKeepsTheJournal(files: seq<File>, hash: Entry -> int, w: World)
    requires Inv(w) && Journal(files, hash, w)
    ensures Inv(Apply(w, Crash)) && Journal(files, hash, Apply(w, Crash))
  {
    StepKeepsInvariant(w, Crash);
  }

  method LoadJournal(c: Coordinator, files: seq<File>, hash: Entry -> int, anchor: Anchor)
    returns (ok: bool, forward: nat, restore: nat)
    requires c.Valid() && Journal(files, hash, c.world)
    modifies c`operations
    ensures old(c.operations) <= c.operations
    ensures ok ==> forward == c.world.forward && restore == c.world.restore
    ensures ok ==> Anchored(files, hash, anchor) && !c.world.torn
    ensures c.WorksFrom(old(c.operations)) && !c.world.torn && Anchored(files, hash, anchor) ==> ok
  {
    ok, forward, restore := LoadReceipts(files, hash, anchor);
    if ok {
      LoadedIsTheJournal(files, hash, anchor, c.world, forward, restore);
    } else if !c.world.torn && Anchored(files, hash, anchor) {
      JournalLoads(files, hash, anchor, c.world);
      assert false;
    }
    var fault := c.NextFault();
    ok := ok && fault == Works;
  }

  /** The writer of the journal is gone, and with it every runtime it had not yet released. */
  method Load(c: Coordinator, files: seq<File>, hash: Entry -> int, anchor: Anchor)
    returns (ok: bool, forward: nat, restore: nat, ghost w: World)
    requires c.Valid() && c.Fresh() && c.role == Recovering
    requires Journal(files, hash, c.world)
    modifies c`world, c`effects, c`sequence, c`operations, c`calls
    ensures c.Valid() && old(c.effects) <= c.effects && old(c.operations) <= c.operations
    ensures w == Apply(old(c.world), Crash) && Inv(w) && Drifts(w, c.world)
    ensures ok ==> forward == old(c.world).forward && restore == old(c.world).restore
    ensures ok ==> Anchored(files, hash, anchor) && Loaded(c, w)
    ensures c.WorksFrom(old(c.operations)) && !old(c.world).torn && Anchored(files, hash, anchor) ==> ok
  {
    hide Run, ValidRun, DiskFits, Journal, Anchored;
    CrashKeepsTheJournal(files, hash, c.world);
    c.Do(Crash);
    w := c.world;
    ok, forward, restore := LoadJournal(c, files, hash, anchor);
    if ok { c.sequence := forward + restore; }
    c.Interfere();
  }

  // ----------------------------------------------------------------- reconciling

  /** What reconciling leaves behind when no operation fails. */
  datatype Verdict = Verdict(ok: bool, forward: nat, restore: nat, disk: Disk)

  /** The cutover is complete and nothing of the previous version has been removed. */
  predicate CleanupCanStart(d: Disk) {
    Classify(d) == Some(Promoted) && d.registration == PreparedFile
  }

  function Recovered(forward: nat, restore: nat, d: Disk): Verdict {
    if restore > 0 then Verdict(true, forward, if restore == 1 then 2 else restore, BroughtBack(d))
    else if forward < 2 then Verdict(false, forward, 0, d)
    else if forward < 9 then Verdict(true, if forward == 2 then 3 else forward, 2, BroughtBack(d))
    else if !CleanupCanStart(d) then Verdict(false, forward, 0, d)
    else if forward < 11 || forward == 14 then Verdict(true, forward, 0, d)
    else Verdict(true, 14, 0, d.(backup := Absent, stage := Gone))
  }

  /** The counts that reconciling leaves, and what a runtime that is already released may add to them. */
  predicate Counted(w: World, v: World) {
    var verdict := Recovered(w.forward, w.restore, w.disk);
    && (if w.restore == 0 && 9 <= w.forward <= 10 then w.forward <= v.forward <= 11 else v.forward == verdict.forward)
    && (if w.restore == 0 then v.restore == verdict.restore else v.restore >= verdict.restore)
  }

  /** The journal says that the roots are, or are being, put back. */
  method FinishRestoration(c: Coordinator, forward: nat, restore: nat, ghost w: World) returns (ok: bool)
    requires c.Valid() && Inv(w) && Loaded(c, w)
    requires forward == w.forward && restore == w.restore && restore > 0
    modifies c`world, c`effects, c`sequence, c`operations, c`calls
    ensures c.Valid() && old(c.effects) <= c.effects && old(c.operations) <= c.operations
    ensures c.world.forward == forward && c.world.restore >= restore
    ensures ok ==> c.world.disk == BroughtBack(w.disk) && c.world.restore >= 2
    ensures ok && restore == 1 ==> c.world.restore == 2
    ensures c.WorksFrom(old(c.operations)) ==> ok
  {
    ok := c.RestoreRoots();
    if !ok { return; }
    if restore == 1 {
      ok := c.AppendRestore(Receipt(Restore, Completed));
    }
  }

  /** The old application had accepted, and no successor was ever released. */
  method GoBack(c: Coordinator, forward: nat, ghost w: World) returns (ok: bool)
    requires c.Valid() && Inv(w) && Loaded(c, w)
    requires forward == w.forward && w.restore == 0 && 2 <= forward < 9
    modifies c`world, c`effects, c`sequence, c`operations, c`calls
    ensures c.Valid() && old(c.effects) <= c.effects && old(c.operations) <= c.operations
    ensures c.world.restore <= 2 && forward <= c.world.forward <= (if forward == 2 then 3 else forward)
    ensures ok ==> c.world.restore == 2 && c.world.forward == Recovered(forward, 0, w.disk).forward
    ensures ok ==> c.world.disk == BroughtBack(w.disk) && c.world.disk.managed == Holds(Current)
    ensures c.WorksFrom(old(c.operations)) ==> ok
  {
    if forward == 2 {
      ok := c.AppendForward(Receipt(OldExit, Completed));
      if !ok { return; }
    }
    ok := c.RestorePrevious();
  }

  method RegistrationIsPrepared(c: Coordinator) returns (ok: bool)
    requires c.Valid()
    modifies c`world, c`effects, c`operations
    ensures c.Valid() && old(c.effects) <= c.effects && old(c.operations) <= c.operations
    ensures Drifts(old(c.world), c.world)
    ensures ok ==> CleanupCanStart(c.world.disk)
    ensures c.WorksFrom(old(c.operations)) && CleanupCanStart(c.world.disk) ==> ok
  {
    c.Interfere();
    var fault := c.NextFault();
    ok := fault == Works && CleanupCanStart(c.world.disk);
  }

  /** Removes what is left of the previous version; a tree that is already gone counts as removed. */
  method RemoveLeftovers(c: Coordinator) returns (ok: bool)
    requires c.Valid() && c.world.forward == 12
    modifies c`world, c`effects, c`operations
    ensures c.Valid() && old(c.effects) <= c.effects && old(c.operations) <= c.operations
    ensures c.world == old(c.world).(disk := c.world.disk)
    ensures c.world.disk.managed == old(c.world).disk.managed
    ensures c.world.disk.registration == old(c.world).disk.registration
    ensures ok ==> c.world.disk == old(c.world).disk.(backup := Absent, stage := Gone)
    ensures c.WorksFrom(old(c.operations)) ==> ok
  {
    ok := true;
    if c.world.disk.backup != Absent { ok := c.RemoveBackupTree(); }
    if ok && c.world.disk.stage != Gone { ok := c.RemoveStageTree(); }
  }

  /** The removal of the previous version has been announced, by an earlier process or by this one. */
  method Clean(c: Coordinator) returns (ok: bool)
    requires c.Valid() && c.role == Recovering
    requires c.sequence == 12 == c.world.forward && c.world.restore == 0 && !c.world.torn
    modifies c`world, c`effects, c`sequence, c`operations, c`calls
    ensures c.Valid() && old(c.effects) <= c.effects && old(c.operations) <= c.operations
    ensures c.world.restore == 0 && c.world.forward >= 12
    ensures c.world.disk.registration == PreparedFile
    ensures ok ==> c.world.forward == 14 && c.world.disk == old(c.world).disk.(backup := Absent, stage := Gone)
    ensures c.WorksFrom(old(c.operations)) ==> ok
  {
    ok := RemoveLeftovers(c);
    if !ok { return; }
    ok := c.RecordCleanup();
  }

  /** After `verify/completed` the journal belongs to recovery alone. */
  lemma NothingElseWrites(w: World, v: World)
    requires Inv(w) && Inv(v) && Drifts(w, v) && !w.torn
    requires w.restore == 0 && w.forward >= 9
    ensures v.disk == w.disk && v.restore == 0 && v.forward >= w.forward
    ensures w.forward >= 11 ==> v.forward == w.forward && !v.torn
    ensures CleanupCanStart(w.disk) ==> w.forward <= 12
    ensures w.forward < 11 ==> CleanupCanStart(w.disk) && v.forward <= 11
  {
  }

  method AnnounceAndClean(c: Coordinator) returns (ok: bool)
    requires c.Valid() && c.role == Recovering
    requires 11 <= c.sequence == c.world.forward <= 12 && c.world.restore == 0 && !c.world.torn
    modifies c`world, c`effects, c`sequence, c`operations, c`calls
    ensures c.Valid() && old(c.effects) <= c.effects && old(c.operations) <= c.operations
    ensures c.world.restore == 0 && c.world.forward >= old(c.world).forward
    ensures ok ==> c.world.forward == 14 && c.world.disk == old(c.world).disk.(backup := Absent, stage := Gone)
    ensures c.WorksFrom(old(c.operations)) ==> ok
  {
    if c.sequence == 11 {
      ok := c.AppendForward(Receipt(Cleanup, Intent));
      if !ok { return; }
    }
    ok := Clean(c);
  }

  /** A successor was released, so the new version stays, whatever happens here. */
  method GoOn(c: Coordinator, forward: nat, ghost w: World) returns (ok: bool)
    requires c.Valid() && Inv(w) && Loaded(c, w)
    requires forward == w.forward && w.restore == 0 && 9 <= forward
    modifies c`world, c`effects, c`sequence, c`operations, c`calls
    ensures c.Valid() && old(c.effects) <= c.effects && old(c.operations) <= c.operations
    ensures c.world.restore == 0 && c.world.forward >= forward
    ensures ok ==> CleanupCanStart(w.disk) && c.world.disk == Recovered(forward, 0, w.disk).disk
    ensures if forward < 11 then c.world.forward <= 11 else ok ==> c.world.forward == 14
    ensures !CleanupCanStart(w.disk) ==> c.world.forward == forward
    ensures forward < 11 || !CleanupCanStart(w.disk) ==> c.world.disk == w.disk
    ensures c.WorksFrom(old(c.operations)) && CleanupCanStart(w.disk) ==> ok
  {
    NothingElseWrites(w, c.world);
    ghost var v := c.world;
    ok := RegistrationIsPrepared(c);
    DriftsCompose(w, v, c.world);
    NothingElseWrites(w, c.world);
    if !ok || forward < 11 || forward == 14 { return; }
    ok := AnnounceAndClean(c);
  }

  lemma RefusalChangesNothing(forward: nat, restore: nat, d: Disk)
    requires !Recovered(forward, restore, d).ok
    ensures Recovered(forward, restore, d).disk == d && restore == 0
    ensures Recovered(forward, restore, d).forward == forward && Recovered(forward, restore, d).restore == 0
  {
  }

  method Reconcile(c: Coordinator, forward: nat, restore: nat, ghost w: World) returns (ok: bool)
    requires c.Valid() && Inv(w) && Loaded(c, w)
    requires forward == w.forward && restore == w.restore
    modifies c`world, c`effects, c`sequence, c`operations, c`calls
    ensures c.Valid() && old(c.effects) <= c.effects && old(c.operations) <= c.operations
    ensures forward >= 9 && restore == 0 ==> c.world.restore == 0
    ensures ok ==> Recovered(forward, restore, w.disk).ok
    ensures ok || !Recovered(forward, restore, w.disk).ok ==> c.world.disk == Recovered(forward, restore, w.disk).disk
    ensures ok || !Recovered(forward, restore, w.disk).ok ==> Counted(w, c.world)
    ensures c.WorksFrom(old(c.operations)) && Recovered(forward, restore, w.disk).ok ==> ok
  {
    if restore > 0 {
      ok := FinishRestoration(c, forward, restore, w);
    } else if forward < 2 {
      ok := false;
    } else if forward < 9 {
      ok := GoBack(c, forward, w);
    } else {
      ok := GoOn(c, forward, w);
    }
  }

  /**
   One recovery, from whatever a crash has left.  A torn or foreign journal is refused before
   anything is changed; otherwise a recovery that meets no I/O failure does what `Recovered` says.
   */
  method Recover(c: Coordinator, files: seq<File>, hash: Entry -> int, anchor: Anchor) returns (ok: bool)
    requires c.Valid() && c.Fresh() && c.role == Recovering
    requires Journal(files, hash, c.world)
    modifies c`world, c`effects, c`sequence, c`operations, c`calls
    ensures c.Valid() && old(c.effects) <= c.effects && old(c.operations) <= c.operations
    ensures old(c.world).torn || !Anchored(files, hash, anchor) ==> !ok && c.world.disk == old(c.world).disk
    ensures old(c.world).forward >= 9 && old(c.world).restore == 0 ==> c.world.restore == 0
    ensures var verdict := Recovered(old(c.world).forward, old(c.world).restore, old(c.world).disk);
            && (ok ==> verdict.ok)
            && (ok || !verdict.ok ==> c.world.disk == verdict.disk && Counted(old(c.world), c.world))
            && (c.WorksFrom(old(c.operations)) && !old(c.world).torn && Anchored(files, hash, anchor) && verdict.ok ==> ok)
  {
    hide Recovered, DiskFits, Classify, Journal, Anchored, Run, ValidRun;
    var forward, restore;
    ghost var w;
    ok, forward, restore, w := Load(c, files, hash, anchor);
    if !ok {
      if !Recovered(w.forward, w.restore, w.disk).ok { RefusalChangesNothing(w.forward, w.restore, w.disk); }
      return;
    }
    ok := Reconcile(c, forward, restore, w);
  }

  // ------------------------------------------------------ theorems about recovery

  /**
   What recovery achieves from any world that a run can leave behind: it goes back exactly from
   the journals that were never verified, and it finishes only if no removal had begun.
   */
  lemma RecoveryOutcome(w: World)
    requires Inv(w)
    ensures var verdict := Recovered(w.forward, w.restore, w.disk);
            && (w.restore > 0 || 2 <= w.forward <= 8 ==>
                  && verdict.ok && verdict.restore >= 2
                  && verdict.disk.managed == Holds(Current) && verdict.disk.registration == PreviousFile
                  && Copies(verdict.disk, Candidate) == 1 == Copies(verdict.disk, Current))
            && (w.restore == 0 && w.forward < 2 ==> !verdict.ok && verdict.disk == INITIAL_DISK)
            && (w.restore == 0 && w.forward >= 9 ==>
                  && verdict.disk.managed == Holds(Candidate) && verdict.disk.registration == PreparedFile
                  && (verdict.ok <==> w.disk.backup == Holds(Current))
                  && (verdict.ok && w.forward >= 11 ==>
                        verdict.disk == Disk(Holds(Candidate), Absent, Absent, Gone, PreparedFile)))
            && DiskFits(verdict.forward, verdict.restore, verdict.disk)
  {
    if w.restore > 0 || 2 <= w.forward <= 8 {
      BroughtBackFits(w, Recovered(w.forward, w.restore, w.disk).restore);
    }
  }

  lemma BroughtBackFits(w: World, restore: nat)
    requires restore >= 2
    requires Inv(w) && (w.restore > 0 || 2 <= w.forward <= 8)
    ensures var d := BroughtBack(w.disk);
            && d.managed == Holds(Current) && d.registration == PreviousFile
            && Copies(d, Candidate) == 1 == Copies(d, Current)
            && BroughtBack(d) == d
            && DiskFits(if w.forward == 2 then 3 else w.forward, restore, d)
  {
  }

  /**
   Every crash point of every run: one recovery that meets no I/O failure, with an anchor taken
   from the journal and no torn receipt, restores what was never released and never touches the
   managed root of what was.
   */
  method RecoverAfterRun(ghost w0: World, ghost effects: seq<Effect>, crashed: World, native: bool,
                         files: seq<File>, hash: Entry -> int, anchor: Anchor)
    returns (ok: bool, restore: nat, disk: Disk)
    requires IsInitial(w0) && ValidRun(w0, effects) && crashed == Run(w0, effects)
    requires Journal(files, hash, crashed)
    ensures disk.managed.Holds?
    ensures var sound := !crashed.torn && Anchored(files, hash, anchor);
            && (!sound ==> !ok && disk == crashed.disk)
            && (sound && (crashed.restore > 0 || 2 <= crashed.forward <= 8) ==>
                  ok && disk.managed == Holds(Current) && disk.registration == PreviousFile)
            && (sound && crashed.restore == 0 && crashed.forward >= 9 ==>
                  && restore == 0
                  && disk.managed == Holds(Candidate) && disk.registration == PreparedFile
                  && (ok <==> crashed.disk.backup == Holds(Current)))
  {
    RunKeepsInvariant(w0, effects);
    var c := new Coordinator(Recovering, native, k => Works, crashed);
    RecoveryOutcome(crashed);
    ok := Recover(c, files, hash, anchor);
    restore, disk := c.world.restore, c.world.disk;
  }

  // ------------------------------------------------------ recovering a second time

  /** The steps of everyone but a native process that works on the update. */
  predicate Outside(e: Effect) {
    || e.SuccessorAppend? || e.RestoredAppend? || e.Acknowledge? || e.Tear?
    || e.OldExits? || e.RuntimeExits? || e.Relaunch? || e.Crash?
  }

  /** What such steps, however many, can bring about. */
  predicate Outlasted(w: World, v: World) {
    && v.disk == w.disk
    && w.forward <= v.forward && w.restore <= v.restore
    && (w.forward < v.forward ==> w.restore == 0 && 9 <= w.forward && v.forward <= 11)
    && (w.restore < v.restore ==> 2 <= w.restore)
  }

  lemma OutsideStep(w: World, v: World, e: Effect)
    requires Inv(v) && Outlasted(w, v) && Enabled(v, e) && Outside(e)
    ensures Inv(Apply(v, e)) && Outlasted(w, Apply(v, e))
  {
    hide DiskFits, Classify;
    StepKeepsInvariant(v, e);
    if e.SuccessorAppend? { assert e.verify == ForwardReceipt(v.forward); }
  }

  /** Takes the given steps, as far as they are possible. */
  method Meanwhile(w: World, steps: seq<Effect>) returns (v: World)
    requires Inv(w)
    ensures Inv(v) && Outlasted(w, v)
  {
    hide Inv, Outlasted, Enabled, Apply;
    v := w;
    NothingHappened(w);
    for i := 0 to |steps|
      invariant Inv(v) && Outlasted(w, v)
    {
      if Outside(steps[i]) && Enabled(v, steps[i]) {
        OutsideStep(w, v, steps[i]);
        v := Apply(v, steps[i]);
      }
    }
  }

  lemma NothingHappened(w: World)
    ensures Outlasted(w, w)
  {
  }

  /** A journal that recovery gets to read: nothing is torn, and the request's anchor is in it. */
  ghost predicate Sound(w: World, hash: Entry -> int, at: nat -> nat, anchor: Anchor)
    requires Inv(w)
  {
    !w.torn && Anchored(Directory(w, hash, at), hash, anchor)
  }

  /** One recovery over the directory of the world that it finds; the operations fail as `faults` says. */
  method RecoverOnce(crashed: World, native: bool, faults: nat -> Fault, hash: Entry -> int, at: nat -> nat,
                     anchor: Anchor)
    returns (ok: bool, after: World)
    requires Inv(crashed)
    ensures Inv(after)
    ensures var verdict := Recovered(crashed.forward, crashed.restore, crashed.disk);
            && (ok ==> Sound(crashed, hash, at, anchor) && verdict.ok)
            && ((forall k :: faults(k) == Works) && Sound(crashed, hash, at, anchor) && verdict.ok ==> ok)
            && (!Sound(crashed, hash, at, anchor) ==> after.disk == crashed.disk)
            && (ok || !verdict.ok ==> after.disk == verdict.disk && Counted(crashed, after))
  {
    hide Recovered, Counted, DiskFits, Classify, Journal, Anchored;
    DirectoryIsJournal(crashed, hash, at);
    var c := new Coordinator(Recovering, native, faults, crashed);
    ok := Recover(c, Directory(crashed, hash, at), hash, anchor);
    after := c.world;
  }

  /** The journal and the disk that make a second recovery go further than the first. */
  predicate GoesFurther(w: World) {
    w.restore == 0 && 11 <= w.forward <= 12 && CleanupCanStart(w.disk)
  }

  /**
   After a recovery that was read and met no I/O failure, a second one changes the disk exactly
   when the journal now ends with verify/completed or cleanup/intent over an intact backup.
   Then the first had found verify still outstanding, and the successor has finished it since.
   */
  lemma SecondRecovery(crashed: World, once: World, mid: World)
    requires Inv(crashed) && Inv(once) && Inv(mid)
    requires var verdict := Recovered(crashed.forward, crashed.restore, crashed.disk);
             once.disk == verdict.disk && Counted(crashed, once)
    requires Outlasted(once, mid)
    ensures Recovered(mid.forward, mid.restore, mid.disk).disk != mid.disk <==> GoesFurther(mid)
    ensures GoesFurther(mid) ==> crashed.restore == 0 && 9 <= crashed.forward <= 10 && mid.forward == 11
  {
    if crashed.restore > 0 || 2 <= crashed.forward <= 8 {
      BroughtBackFits(crashed, 2);
    }
  }

  /**
   Two recoveries, with anything the runtimes, the old application and a relaunch may do between
   them.  If the first could read its journal, the second leaves slots and registration as they
   are, except for cleaning up after a successor that verified itself in between.
   */
  method RecoverTwice(crashed: World, between: seq<Effect>, native: bool, hash: Entry -> int, at: nat -> nat,
                      first: Anchor, second: Anchor)
    returns (mid: World, after: World)
    requires Inv(crashed)
    ensures Inv(mid) && Inv(after)
    ensures !Sound(crashed, hash, at, first) ==> mid.disk == crashed.disk
    ensures Sound(crashed, hash, at, first) ==>
              && (after.disk != mid.disk <==> Sound(mid, hash, at, second) && GoesFurther(mid))
              && (GoesFurther(mid) ==> crashed.restore == 0 && 9 <= crashed.forward <= 10 && mid.forward == 11)
    ensures after.disk != mid.disk && Sound(crashed, hash, at, first) ==>
              after.disk == mid.disk.(backup := Absent, stage := Gone)
  {
    hide DiskFits, Classify, Counted, Sound;
    var ok, once := RecoverOnce(crashed, native, k => Works, hash, at, first);
    mid := Meanwhile(once, between);
    ok, after := RecoverOnce(mid, native, k => Works, hash, at, second);
    if Sound(crashed, hash, at, first) { SecondRecovery(crashed, once, mid); }
  }

  // -------------------------------------- recovery does not finish an interrupted cleanup

  datatype Attempt = Attempt(native: bool, faults: nat -> Fault, anchor: Anchor, before: seq<Effect>)

  /**
   Once the removal of the backup has begun, no number of recoveries reports success and none
   changes the disk or the journal, whatever fails in them and whatever happens before each.
   */
  method RecoverAgainAndAgain(w: World, attempts: seq<Attempt>, hash: Entry -> int, at: nat -> nat)
    returns (verdicts: seq<bool>, after: World)
    requires Inv(w) && w.forward >= 12 && !CleanupCanStart(w.disk)
    ensures |verdicts| == |attempts| && true !in verdicts
    ensures after.disk == w.disk && after.forward == w.forward && after.restore == 0
  {
    hide DiskFits, Classify, CleanupCanStart, Sound;
    verdicts, after := [], w;
    for i := 0 to |attempts|
      invariant |verdicts| == i && true !in verdicts
      invariant Inv(after) && after.disk == w.disk && after.forward == w.forward && after.restore == 0
    {
      var attempt := attempts[i];
      var found := Meanwhile(after, attempt.before);
      var ok;
      ok, after := RecoverOnce(found, attempt.native, attempt.faults, hash, at, attempt.anchor);
      verdicts := verdicts + [ok];
    }
  }

  /** The new version runs and has verified itself; `forward` receipts and this disk remain. */
  function Accepted(forward: nat, disk: Disk, successor: Runtime, acknowledged: bool): World {
    World(forward, 0, false, disk, false, successor, NotStarted, acknowledged)
  }

  const REGISTERED_DISK := Disk(Holds(Candidate), Absent, Holds(Current), Whole, PreparedFile)
  const HALF_CLEANED_DISK := Disk(Holds(Candidate), Absent, Damaged, Whole, PreparedFile)

  lemma RegistrationCanFinish()
    ensures Reachable(Accepted(7, REGISTERED_DISK, NotStarted, false))
  {
    hide Reachable;
    PromotionCanFinish();
    Extend(Moved(4, 0, PROMOTED_DISK, false), Append(Coordinating, ForwardReceipt(4)));
    Extend(Moved(5, 0, PROMOTED_DISK, false), Append(Coordinating, ForwardReceipt(5)));
    Extend(Moved(6, 0, PROMOTED_DISK, false), PublishRegistration);
    Extend(Moved(6, 0, REGISTERED_DISK, false), Append(Coordinating, ForwardReceipt(6)));
  }

  lemma SuccessorCanStart()
    ensures Reachable(Accepted(9, REGISTERED_DISK, Running, false))
  {
    hide Reachable;
    RegistrationCanFinish();
    Extend(Accepted(7, REGISTERED_DISK, NotStarted, false), Append(Coordinating, ForwardReceipt(7)));
    Extend(Accepted(8, REGISTERED_DISK, NotStarted, false), Spawn(false));
    Extend(Accepted(8, REGISTERED_DISK, Gated, false), Append(Coordinating, ForwardReceipt(8)));
    Extend(Accepted(9, REGISTERED_DISK, Gated, false), Release(false));
  }

  lemma SuccessorCanVerify()
    ensures Reachable(Accepted(11, REGISTERED_DISK, Running, true))
  {
    hide Reachable;
    SuccessorCanStart();
    Extend(Accepted(9, REGISTERED_DISK, Running, false), SuccessorAppend(ForwardReceipt(9)));
    Extend(Accepted(10, REGISTERED_DISK, Running, false), SuccessorAppend(ForwardReceipt(10)));
    Extend(Accepted(11, REGISTERED_DISK, Running, false), Acknowledge);
  }

  /** The exception of `RecoverTwice` does occur: the successor verifies itself between two recoveries. */
  lemma SecondRecoveryCanCleanUp()
    ensures var crashed, mid := Accepted(9, REGISTERED_DISK, Running, false), Accepted(11, REGISTERED_DISK, Running, false);
            && Reachable(crashed)
            && Recovered(9, 0, crashed.disk) == Verdict(true, 9, 0, crashed.disk)
            && Run(crashed, [SuccessorAppend(ForwardReceipt(9)), SuccessorAppend(ForwardReceipt(10))]) == mid
            && ValidRun(crashed, [SuccessorAppend(ForwardReceipt(9)), SuccessorAppend(ForwardReceipt(10))])
            && GoesFurther(mid)
            && Recovered(11, 0, mid.disk).disk.backup == Absent != mid.disk.backup
  {
    SuccessorCanStart();
    var crashed := Accepted(9, REGISTERED_DISK, Running, false);
    var intent, completed := SuccessorAppend(ForwardReceipt(9)), SuccessorAppend(ForwardReceipt(10));
    assert [intent, completed][..1] == [intent] && [intent][..0] == [];
    assert Run(crashed, [intent]) == Accepted(10, REGISTERED_DISK, Running, false);
  }

  /** A crash inside the removal of the backup leaves a journal that recovery reports as failed, for good. */
  lemma InterruptedCleanupStaysInterrupted()
    ensures var crashed := Accepted(12, HALF_CLEANED_DISK, Running, true);
            && Reachable(crashed)
            && Recovered(crashed.forward, crashed.restore, crashed.disk) == Verdict(false, 12, 0, HALF_CLEANED_DISK)
  {
    hide Reachable;
    SuccessorCanVerify();
    Extend(Accepted(11, REGISTERED_DISK, Running, true), Append(Coordinating, ForwardReceipt(11)));
    Extend(Accepted(12, REGISTERED_DISK, Running, true), DamageBackup);
  }

  const CLEANED_DISK := Disk(Holds(Candidate), Absent, Absent, Gone, PreparedFile)

  lemma CleanupCanFinish()
    ensures Reachable(Accepted(12, CLEANED_DISK, Running, true))
  {
    hide Reachable;
    var backupGone := HALF_CLEANED_DISK.(backup := Absent);
    InterruptedCleanupStaysInterrupted();
    Extend(Accepted(12, HALF_CLEANED_DISK, Running, true), RemoveBackup);
    Extend(Accepted(12, backupGone, Running, true), DamageStage(false));
    Extend(Accepted(12, backupGone.(stage := Broken(false)), Running, true), RemoveStage);
  }

  lemma UpdateCanComplete()
    ensures Reachable(Accepted(14, CLEANED_DISK, Running, true))
  {
    hide Reachable;
    CleanupCanFinish();
    Extend(Accepted(12, CLEANED_DISK, Running, true), Append(Coordinating, ForwardReceipt(12)));
    Extend(Accepted(13, CLEANED_DISK, Running, true), Append(Coordinating, ForwardReceipt(13)));
  }

  /**
   Even a completed update, which does occur, is reported as failed: its backup, which the check
   looks for, is gone.
   */
  lemma CompletedUpdateIsNotConfirmed()
    ensures forall w | Inv(w) && w.forward == 14 ::
              Recovered(w.forward, w.restore, w.disk) == Verdict(false, 14, 0, w.disk)
    ensures Reachable(Accepted(14, CLEANED_DISK, Running, true))
  {
    UpdateCanComplete();
  }

  // ---------------------------------------------------- the restoration can be verified

  /** Nothing but the restored application, in this state, is left to finish the restoration. */
  function Restarted(restore: nat, application: Runtime): World {
    World(4, restore, false, RESTORED_DISK, false, NotStarted, application, false)
  }

  lemma RestorationCanBeRecorded()
    ensures Reachable(Restarted(3, NotStarted))
  {
    hide Reachable, DiskFits, Classify, Word;
    PromotionCanBeRolledBack();
    Extend(Restarted(1, NotStarted), Append(Recovering, Receipt(Restore, Completed)));
    Extend(Restarted(2, NotStarted), Append(Coordinating, Receipt(RestoredStart, Intent)));
  }

  lemma PreviousVersionCanRestart()
    ensures Reachable(Restarted(4, Running))
  {
    hide Reachable, DiskFits, Classify, Word;
    RestorationCanBeRecorded();
    Extend(Restarted(3, NotStarted), Spawn(true));
    Extend(Restarted(3, Gated), Append(Coordinating, Receipt(RestoredStart, Completed)));
    Extend(Restarted(4, Gated), Release(true));
  }

  lemma PreviousVersionCanVerify()
    ensures Reachable(Restarted(6, Running))
  {
    hide Reachable, DiskFits, Classify, Word;
    PreviousVersionCanRestart();
    Extend(Restarted(4, Running), RestoredAppend(Receipt(RestoredVerify, Intent)));
    Extend(Restarted(5, Running), RestoredAppend(Receipt(RestoredVerify, Completed)));
  }

  /** A run to the end of a restoration, and the two receipts that the engine waits for at its end. */
  lemma RestorationCanFinish()
    ensures Reachable(Restarted(6, Running))
    ensures Inv(Restarted(6, Running))
    ensures Recorded(Restarted(6, Running), 8, Receipt(RestoredVerify, Intent))
    ensures Recorded(Restarted(6, Running), 9, Receipt(RestoredVerify, Completed))
  {
    hide Reachable;
    PreviousVersionCanVerify();
    WordIsLiteral(4, 6);
  }
}
