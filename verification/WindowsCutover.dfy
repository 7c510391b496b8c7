/**
 The Windows cutover: generations beside each other, three files replaced one after the other,
 and a classifier that reads how far a cutover has come from what is on disk.

 As in Transaction, `Enabled` is what each process must establish before it takes a step, a run
 may stop anywhere, and the next process starts from whatever it finds.
 */
module WindowsCutover {
  import opened Receipts
  import opened Coordinators

  // ------------------------------------------------------------------ layout

  /** The expected digests of the three replaced files. */
  datatype Plan = Plan(
    currentLauncher: int, candidateLauncher: int,
    currentSetup: int, candidateSetup: int,
    previousRegistration: int, preparedRegistration: int)
  {
    predicate Distinct() {
      && currentLauncher != candidateLauncher
      && currentSetup != candidateSetup
      && previousRegistration != preparedRegistration
    }
  }

  /** What the digest of a generation directory says: no directory, the expected tree, anything else. */
  datatype TreeState = Missing | Intact | Partial

  datatype Target = Launcher | Setup | Registration

  /** Every replacement goes through a temporary file of its own name. */
  datatype Temporary = Temporary(target: Target, restoring: bool)

  datatype Layout = Layout(
    current: TreeState, candidate: TreeState, incoming: bool, stage: TreeState,
    launcher: int, setup: int, registration: int, leftovers: set<Temporary>)

  datatype Authority = Unknown | Previous | Candidate

  datatype Prefix =
    | Invalid | Untouched | WithIncoming | Published | Launched | SetUp | Registered | Cleaned
  {
    function Rank(): nat {
      match this
      case Invalid => 0 case Untouched => 1 case WithIncoming => 2 case Published => 3
      case Launched => 4 case SetUp => 5 case Registered => 6 case Cleaned => 7
    }
  }

  function FileAuthority(digest: int, previous: int, candidate: int): Authority {
    if digest == previous then Previous else if digest == candidate then Candidate else Unknown
  }

  /** The decision chain of the classifier. */
  function Classify(plan: Plan, l: Layout): Prefix {
    var launcher := FileAuthority(l.launcher, plan.currentLauncher, plan.candidateLauncher);
    var setup := FileAuthority(l.setup, plan.currentSetup, plan.candidateSetup);
    var registration := FileAuthority(l.registration, plan.previousRegistration, plan.preparedRegistration);
    if l.current == Intact && l.candidate == Missing && !l.incoming
       && launcher == Previous && setup == Previous && registration == Previous then Untouched
    else if l.current == Intact && l.candidate == Missing && l.incoming
            && launcher == Previous && setup == Previous && registration == Previous then WithIncoming
    else if l.current == Intact && l.candidate == Intact && !l.incoming
            && launcher == Previous && setup == Previous && registration == Previous then Published
    else if l.current == Intact && l.candidate == Intact && !l.incoming
            && launcher == Candidate && setup == Previous && registration == Previous then Launched
    else if l.current == Intact && l.candidate == Intact && !l.incoming
            && launcher == Candidate && setup == Candidate && registration == Previous then SetUp
    else if l.current == Intact && l.candidate == Intact && !l.incoming
            && launcher == Candidate && setup == Candidate && registration == Candidate then Registered
    else if l.current == Missing && l.candidate == Intact && !l.incoming
            && launcher == Candidate && setup == Candidate && registration == Candidate then Cleaned
    else Invalid
  }

  /** Exactly when the three digest pairs differ is a finished cutover recognised as one. */
  lemma CutoverIsRecognised(plan: Plan, l: Layout)
    requires l.current == Intact && l.candidate == Intact && !l.incoming
    requires l.launcher == plan.candidateLauncher && l.setup == plan.candidateSetup
    requires l.registration == plan.preparedRegistration
    ensures Classify(plan, l) == Registered <==> plan.Distinct()
  {
  }

  /** When the pairs differ, the recognised prefixes are these layouts, whatever order they are asked in. */
  lemma PrefixesAreExact(plan: Plan, l: Layout)
    requires plan.Distinct()
    ensures var previous := l.launcher == plan.currentLauncher && l.setup == plan.currentSetup
                            && l.registration == plan.previousRegistration;
            && (Classify(plan, l) == Untouched <==> l.current == Intact && l.candidate == Missing && !l.incoming && previous)
            && (Classify(plan, l) == WithIncoming <==> l.current == Intact && l.candidate == Missing && l.incoming && previous)
            && (Classify(plan, l) == Published <==> l.current == Intact && l.candidate == Intact && !l.incoming && previous)
    ensures var beside := l.candidate == Intact && !l.incoming && l.launcher == plan.candidateLauncher;
            && (Classify(plan, l) == Launched <==>
                  beside && l.current == Intact && l.setup == plan.currentSetup && l.registration == plan.previousRegistration)
            && (Classify(plan, l) == SetUp <==>
                  beside && l.current == Intact && l.setup == plan.candidateSetup && l.registration == plan.previousRegistration)
            && (Classify(plan, l) == Registered <==>
                  beside && l.current == Intact && l.setup == plan.candidateSetup && l.registration == plan.preparedRegistration)
            && (Classify(plan, l) == Cleaned <==>
                  beside && l.current == Missing && l.setup == plan.candidateSetup && l.registration == plan.preparedRegistration)
  {
  }

  /** The launcher on disk names a generation that is completely there. */
  predicate Startable(plan: Plan, l: Layout) {
    || (l.launcher == plan.currentLauncher && l.current == Intact)
    || (l.launcher == plan.candidateLauncher && l.candidate == Intact)
  }

  // ----------------------------------------------------------------- effects

  datatype World = World(forward: nat, restore: nat, layout: Layout)

  datatype Effect =
    | Advance | TurnBack
    | CreateIncoming | RemoveIncoming | PublishGeneration
    | WriteTemporary(file: Temporary) | DropTemporary(file: Temporary) | Replace(file: Temporary)
    | DamageCandidate | RemoveCandidate
    | DamageCurrent | RemoveCurrent | DamageStage | RemoveStage

  /** The prefix from which a replacement may be made. */
  function Before(file: Temporary): Prefix {
    match file.target
    case Launcher => if file.restoring then Launched else Published
    case Setup => if file.restoring then SetUp else Launched
    case Registration => if file.restoring then Registered else SetUp
  }

  predicate Enabled(plan: Plan, w: World, e: Effect) {
    var l, prefix := w.layout, Classify(plan, w.layout);
    match e
    case Advance =>
      && w.restore == 0 && w.forward < FORWARD_RECEIPTS
      && (w.forward == 4 ==> prefix == SetUp)
      && (w.forward == 6 ==> prefix == Registered)
      && (w.forward == 11 ==> prefix == Registered)
      && (w.forward == 12 ==> prefix == Cleaned)
    case TurnBack =>
      && w.restore < RESTORE_RECEIPTS
      && (w.restore == 0 ==> 3 <= w.forward <= 9)
      && (w.restore == 1 ==> prefix == Untouched)
    case CreateIncoming => w.forward == 4 && w.restore == 0 && prefix == Untouched
    case RemoveIncoming => l.incoming && ((w.forward == 4 && w.restore == 0) || w.restore >= 1)
    case PublishGeneration => w.forward == 4 && w.restore == 0 && prefix == WithIncoming
    case WriteTemporary(file) => file !in l.leftovers
    case DropTemporary(file) => file in l.leftovers
    case Replace(file) =>
      && file in l.leftovers && prefix == Before(file)
      && if file.restoring then w.restore >= 1
         else w.restore == 0 && w.forward == (if file.target == Registration then 6 else 4)
    case DamageCandidate => w.restore >= 1 && prefix == Published
    case RemoveCandidate => w.restore >= 1 && l.candidate == Partial
    case DamageCurrent => w.forward == 12 && prefix == Registered
    case RemoveCurrent => w.forward == 12 && l.current == Partial
    case DamageStage => w.forward == 12 && l.stage == Intact
    case RemoveStage => w.forward == 12 && l.stage == Partial
  }

  function Replaced(plan: Plan, l: Layout, file: Temporary): Layout {
    var left := l.(leftovers := l.leftovers - {file});
    match file.target
    case Launcher => left.(launcher := if file.restoring then plan.currentLauncher else plan.candidateLauncher)
    case Setup => left.(setup := if file.restoring then plan.currentSetup else plan.candidateSetup)
    case Registration =>
      left.(registration := if file.restoring then plan.previousRegistration else plan.preparedRegistration)
  }

  function Apply(plan: Plan, w: World, e: Effect): World {
    var l := w.layout;
    match e
    case Advance => w.(forward := w.forward + 1)
    case TurnBack => w.(restore := w.restore + 1)
    case CreateIncoming => w.(layout := l.(incoming := true))
    case RemoveIncoming => w.(layout := l.(incoming := false))
    case PublishGeneration => w.(layout := l.(incoming := false, candidate := Intact))
    case WriteTemporary(file) => w.(layout := l.(leftovers := l.leftovers + {file}))
    case DropTemporary(file) => w.(layout := l.(leftovers := l.leftovers - {file}))
    case Replace(file) => w.(layout := Replaced(plan, l, file))
    case DamageCandidate => w.(layout := l.(candidate := Partial))
    case RemoveCandidate => w.(layout := l.(candidate := Missing))
    case DamageCurrent => w.(layout := l.(current := Partial))
    case RemoveCurrent => w.(layout := l.(current := Missing))
    case DamageStage => w.(layout := l.(stage := Partial))
    case RemoveStage => w.(layout := l.(stage := Missing))
  }

  // --------------------------------------------------------------- invariant

  /** Everything of the cutover is undone, but the candidate generation is partly removed. */
  predicate HalfRestored(plan: Plan, l: Layout) {
    l.candidate == Partial && Classify(plan, l.(candidate := Missing)) == Untouched
  }

  /** The cutover is complete, but the current generation is partly removed. */
  predicate HalfCleaned(plan: Plan, l: Layout) {
    l.current == Partial && Classify(plan, l.(current := Missing)) == Cleaned
  }

  predicate Fits(plan: Plan, forward: nat, restore: nat, l: Layout) {
    var prefix := Classify(plan, l);
    if restore >= 2 then prefix == Untouched
    else if restore == 1 then
      (1 <= prefix.Rank() <= 6 || HalfRestored(plan, l)) && (forward == 3 ==> prefix == Untouched)
    else if forward <= 3 then prefix == Untouched
    else if forward == 4 then 1 <= prefix.Rank() <= 5
    else if forward == 5 then prefix == SetUp
    else if forward == 6 then prefix == SetUp || prefix == Registered
    else if forward <= 11 then prefix == Registered
    else if forward == 12 then prefix == Registered || prefix == Cleaned || HalfCleaned(plan, l)
    else prefix == Cleaned
  }

  predicate Inv(plan: Plan, w: World) {
    && plan.Distinct()
    && w.forward <= FORWARD_RECEIPTS && w.restore <= RESTORE_RECEIPTS
    && (w.restore > 0 ==> 3 <= w.forward <= 9)
    && Fits(plan, w.forward, w.restore, w.layout)
  }

  lemma StepKeepsInvariant(plan: Plan, w: World, e: Effect)
    requires Inv(plan, w) && Enabled(plan, w, e)
    ensures Inv(plan, Apply(plan, w, e))
  {
  }

  function Run(plan: Plan, w: World, effects: seq<Effect>): World {
    if effects == [] then w
    else Apply(plan, Run(plan, w, effects[..|effects| - 1]), effects[|effects| - 1])
  }

  predicate ValidRun(plan: Plan, w: World, effects: seq<Effect>) {
    effects != [] ==>
      && ValidRun(plan, w, effects[..|effects| - 1])
      && Enabled(plan, Run(plan, w, effects[..|effects| - 1]), effects[|effects| - 1])
  }

  lemma {:induction false} RunKeepsInvariant(plan: Plan, w: World, effects: seq<Effect>)
    requires Inv(plan, w) && ValidRun(plan, w, effects)
    ensures Inv(plan, Run(plan, w, effects))
  {
    if effects != [] {
      RunKeepsInvariant(plan, w, effects[..|effects| - 1]);
      StepKeepsInvariant(plan, Run(plan, w, effects[..|effects| - 1]), effects[|effects| - 1]);
    }
  }

  /** Before the update. */
  predicate IsInitial(plan: Plan, w: World) {
    w.forward == 0 && w.restore == 0 && Classify(plan, w.layout) == Untouched
  }

  /** Wherever a run stops, also inside the removal of a tree, the installed launcher can start. */
  lemma LauncherIsAlwaysStartable(plan: Plan, w0: World, effects: seq<Effect>)
    requires plan.Distinct() && IsInitial(plan, w0) && ValidRun(plan, w0, effects)
    ensures Startable(plan, Run(plan, w0, effects).layout)
  {
    RunKeepsInvariant(plan, w0, effects);
  }

  /** The classifier rejects what a run leaves behind exactly when a removal was interrupted. */
  lemma ClassifierRejectsOnlyRemovals(plan: Plan, w0: World, effects: seq<Effect>)
    requires plan.Distinct() && IsInitial(plan, w0) && ValidRun(plan, w0, effects)
    ensures var l := Run(plan, w0, effects).layout;
            Classify(plan, l) == Invalid <==> l.candidate == Partial || l.current == Partial
  {
    RunKeepsInvariant(plan, w0, effects);
  }

  /** The prefixes are closed: a step leads to a neighbouring prefix or damages a tree. */
  lemma PrefixesAreClosed(plan: Plan, w: World, e: Effect)
    requires Inv(plan, w) && Enabled(plan, w, e) && Classify(plan, w.layout) != Invalid
    ensures var before, after := Classify(plan, w.layout).Rank(), Classify(plan, Apply(plan, w, e).layout).Rank();
            if e == DamageCandidate || e == DamageCurrent then after == 0
            else after >= 1 && before - 1 <= after <= before + 1
  {
  }

  // ----------------------------------------------------------------- the code

  predicate Unblocked(l: Layout, target: Target) {
    Temporary(target, true) !in l.leftovers
  }

  predicate StateUnblocked(l: Layout, rank: nat) {
    && (rank >= 6 ==> Unblocked(l, Registration))
    && (rank >= 5 ==> Unblocked(l, Setup))
  }

  /** What a restoration needs: a recognised prefix, and no temporary left by an interrupted one. */
  predicate Restorable(plan: Plan, l: Layout) {
    var rank := Classify(plan, l).Rank();
    && 1 <= rank <= 6
    && StateUnblocked(l, rank)
    && (rank >= 4 ==> Unblocked(l, Launcher))
  }

  predicate Promotable(l: Layout) {
    Temporary(Launcher, false) !in l.leftovers && Temporary(Setup, false) !in l.leftovers
  }

  function Undone(plan: Plan, l: Layout): Layout {
    l.(candidate := Missing, incoming := false, launcher := plan.currentLauncher,
       setup := plan.currentSetup, registration := plan.previousRegistration)
  }

  /** Nothing but the generations, the incoming directory and the three files differs. */
  predicate SameBeside(l: Layout, m: Layout) {
    m.current == l.current && m.stage == l.stage && m.leftovers == l.leftovers
  }

  /** The journal holds a restoration, or an update that was accepted and never released. */
  predicate RollsBack(w: World) {
    w.restore > 0 || 2 <= w.forward < 9
  }

  /** Where a recovery that goes on leaves journal and layout. */
  function Forwarded(forward: nat): nat {
    if forward < 11 then forward else 14
  }

  function WentOn(forward: nat, l: Layout): Layout {
    if 11 <= forward <= 12 then l.(current := Missing, stage := Missing) else l
  }

  function Min(a: nat, b: nat): nat {
    if a < b then a else b
  }

  lemma TemporaryIsConsumed(plan: Plan, l: Layout, file: Temporary)
    requires file !in l.leftovers
    ensures var written := l.(leftovers := l.leftovers + {file});
            && Replaced(plan, written, file) == Replaced(plan, l, file)
            && Classify(plan, written) == Classify(plan, l)
  {
    assert l.leftovers + {file} - {file} == l.leftovers - {file};
  }

  lemma LeftoversDoNotMatter(plan: Plan, l: Layout, leftovers: set<Temporary>)
    ensures Classify(plan, l.(leftovers := leftovers)) == Classify(plan, l)
  {
  }

  /** Back at the first prefix, and nothing beside it changed: that is the whole layout. */
  lemma UntouchedIsUndone(plan: Plan, l: Layout, m: Layout)
    requires Classify(plan, l) != Invalid && Classify(plan, m) == Untouched && SameBeside(l, m)
    ensures m == Undone(plan, l)
  {
  }

  lemma CopyPassesThrough(plan: Plan, l: Layout)
    requires Classify(plan, l) == Untouched
    ensures !l.incoming && Classify(plan, l.(incoming := true)) == WithIncoming
    ensures l.(incoming := true).(incoming := false, candidate := Intact) == l.(candidate := Intact)
  {
  }

  lemma RestoringStepsBack(plan: Plan, l: Layout, target: Target)
    requires plan.Distinct() && Classify(plan, l).Rank() == Before(Temporary(target, true)).Rank()
    ensures Classify(plan, l) == Before(Temporary(target, true))
    ensures var restored := Replaced(plan, l, Temporary(target, true));
            && Classify(plan, restored).Rank() == Classify(plan, l).Rank() - 1
            && (Unblocked(l, target) ==> SameBeside(l, restored))
  {
    assert Unblocked(l, target) ==> l.leftovers - {Temporary(target, true)} == l.leftovers;
  }

  class Cutover {
    const plan: Plan
    const faults: nat -> Fault
    var operations: nat

    var world: World
    ghost const start: World
    ghost var effects: seq<Effect>

    constructor (plan: Plan, faults: nat -> Fault, world: World)
      requires Inv(plan, world)
      ensures Valid() && this.plan == plan && this.faults == faults && this.world == start == world && effects == []
    {
      this.plan, this.faults, this.operations := plan, faults, 0;
      this.world, this.start, this.effects := world, world, [];
    }

    ghost predicate Valid()
      reads `world, `effects
    {
      Inv(plan, world) && ValidRun(plan, start, effects) && world == Run(plan, start, effects)
    }

    ghost predicate Faultless() {
      forall k :: faults(k) == Works
    }

    function Reached(): Prefix
      reads `world
    {
      Classify(plan, world.layout)
    }

    method Do(e: Effect)
      requires Valid() && Enabled(plan, world, e)
      modifies `world, `effects
      ensures Valid() && world == Apply(plan, old(world), e) && effects == old(effects) + [e]
    {
      StepKeepsInvariant(plan, world, e);
      effects := effects + [e];
      assert effects[..|effects| - 1] == old(effects);
      world := Apply(plan, world, e);
    }

    method NextFault() returns (fault: Fault)
      modifies `operations
      ensures fault == faults(old(operations)) && operations == old(operations) + 1
    {
      fault := faults(operations);
      operations := operations + 1;
    }

    /** Appends the next receipt; it may be there although failure is reported. */
    method Append(receipt: Effect) returns (ok: bool)
      requires Valid() && (receipt == Advance || receipt == TurnBack) && Enabled(plan, world, receipt)
      modifies `world, `effects, `operations
      ensures Valid() && old(effects) <= effects
      ensures ok ==> world == Apply(plan, old(world), receipt)
      ensures !ok ==> world == old(world) || world == Apply(plan, old(world), receipt)
      ensures Faultless() ==> ok
    {
      var fault := NextFault();
      if fault == FailsBefore || fault == FailsPartway { return false; }
      Do(receipt);
      ok := fault == Works;
    }

    /** Copies the snapshot to the temporary name, which must be free. */
    method WriteSnapshot(file: Temporary) returns (ok: bool)
      requires Valid()
      modifies `world, `effects, `operations
      ensures Valid() && old(effects) <= effects
      ensures ok ==> file !in old(world).layout.leftovers
      ensures world == old(world).(layout := world.layout)
      ensures ok ==> world.layout == old(world).layout.(leftovers := old(world).layout.leftovers + {file})
      ensures !ok ==> world.layout == old(world).layout.(leftovers := world.layout.leftovers)
      ensures old(world).layout.leftovers <= world.layout.leftovers
      ensures Faultless() && file !in old(world).layout.leftovers ==> ok
    {
      hide Valid, Classify;
      if file in world.layout.leftovers { return false; }
      var fault := NextFault();
      if fault == FailsBefore { return false; }
      Do(WriteTemporary(file));
      if fault != Works {
        var removed := NextFault();
        if removed == Works { Do(DropTemporary(file)); }
        return false;
      }
      ok := true;
    }

    /** Renames the temporary over its target; a failed rename removes the temporary if it can. */
    method RenameOver(file: Temporary) returns (ok: bool)
      requires Valid() && Enabled(plan, world, Replace(file))
      modifies `world, `effects, `operations
      ensures Valid() && old(effects) <= effects
      ensures world == old(world).(layout := world.layout)
      ensures ok ==> world.layout == Replaced(plan, old(world).layout, file)
      ensures world.layout == Replaced(plan, old(world).layout, file)
              || world.layout == old(world).layout.(leftovers := world.layout.leftovers)
      ensures old(world).layout.leftovers - {file} <= world.layout.leftovers
      ensures Faultless() ==> ok
    {
      hide Valid, Classify;
      var fault := NextFault();
      if fault == FailsBefore {
        var removed := NextFault();
        if removed == Works { Do(DropTemporary(file)); }
        return false;
      }
      Do(Replace(file));
      ok := fault == Works;
    }

    /** One file replacement, from the prefix it belongs to. */
    method ReplaceFile(file: Temporary) returns (ok: bool)
      requires Valid() && Reached() == Before(file)
      requires if file.restoring then world.restore >= 1
               else world.restore == 0 && world.forward == (if file.target == Registration then 6 else 4)
      modifies `world, `effects, `operations
      ensures Valid() && old(effects) <= effects
      ensures world == old(world).(layout := world.layout)
      ensures ok ==> file !in old(world).layout.leftovers
      ensures ok ==> world.layout == Replaced(plan, old(world).layout, file)
      ensures Reached() == Before(file)
              || (file !in old(world).layout.leftovers && Reached() == Classify(plan, Replaced(plan, old(world).layout, file)))
      ensures old(world).layout.leftovers <= world.layout.leftovers
      ensures Faultless() && file !in old(world).layout.leftovers ==> ok
    {
      hide Valid, Classify, Replaced;
      ok := WriteSnapshot(file);
      LeftoversDoNotMatter(plan, old(world).layout, world.layout.leftovers);
      if !ok { return; }
      TemporaryIsConsumed(plan, old(world).layout, file);
      ghost var written := world.layout;
      ok := RenameOver(file);
      LeftoversDoNotMatter(plan, written, world.layout.leftovers);
    }

    /** Copies the candidate generation beside the current one and publishes it with one rename. */
    method CopyPublishGeneration() returns (ok: bool)
      requires Valid() && world.forward == 4 && world.restore == 0 && Reached() == Untouched
      modifies `world, `effects, `operations
      ensures Valid() && old(effects) <= effects
      ensures world == old(world).(layout := world.layout)
      ensures ok ==> world.layout == old(world).layout.(candidate := Intact)
      ensures Faultless() ==> ok
    {
      hide Valid, Classify;
      var fault := NextFault();
      if fault == FailsBefore { return false; }
      CopyPassesThrough(plan, world.layout);
      Do(CreateIncoming);
      if fault == Works {
        var rename := NextFault();
        if rename != FailsBefore {
          Do(PublishGeneration);
          return rename == Works;
        }
      }
      var removed := NextFault();
      if removed == Works { Do(RemoveIncoming); }
      ok := false;
    }

    /** Generation, launcher and setup manifest, each step from the prefix the last one reached. */
    method PromoteFiles() returns (ok: bool)
      requires Valid() && world.forward == 4 && world.restore == 0 && Reached() == Untouched
      modifies `world, `effects, `operations
      ensures Valid() && old(effects) <= effects
      ensures world == old(world).(layout := world.layout)
      ensures ok ==> Reached() == SetUp
      ensures Faultless() && Promotable(old(world).layout) ==> ok
    {
      ok := CopyPublishGeneration();
      if !ok { return; }
      ok := ReplaceFile(Temporary(Launcher, false));
      if !ok { return; }
      ok := ReplaceFile(Temporary(Setup, false));
    }

    method Promote() returns (ok: bool)
      requires Valid() && world.forward == 3 && world.restore == 0
      modifies `world, `effects, `operations
      ensures Valid() && old(effects) <= effects
      ensures world.restore == 0 && 3 <= world.forward <= 5
      ensures ok ==> world.forward == 5 && Reached() == SetUp
      ensures ok ==> world.layout.candidate == Intact && world.layout.launcher == plan.candidateLauncher
                     && world.layout.setup == plan.candidateSetup && world.layout.registration == plan.previousRegistration
      ensures Faultless() && Promotable(old(world).layout) ==> ok
    {
      ok := Append(Advance);
      if !ok { return; }
      ok := PromoteFiles();
      if !ok { return; }
      ok := Append(Advance);
    }

    method PublishRegistration() returns (ok: bool)
      requires Valid() && world.forward == 5 && world.restore == 0
      modifies `world, `effects, `operations
      ensures Valid() && old(effects) <= effects
      ensures world.restore == 0 && 5 <= world.forward <= 7
      ensures ok ==> world.forward == 7 && Reached() == Registered
      ensures ok ==> world.layout.candidate == Intact && world.layout.launcher == plan.candidateLauncher
                     && world.layout.setup == plan.candidateSetup && world.layout.registration == plan.preparedRegistration
      ensures Faultless() && Temporary(Registration, false) !in old(world).layout.leftovers ==> ok
    {
      ok := Append(Advance);
      if !ok { return; }
      ok := ReplaceFile(Temporary(Registration, false));
      if !ok { return; }
      ok := Append(Advance);
    }

    // -------------------------------------------------------------- restoring

    /** Undoes one replacement if the cutover had come that far. */
    method RestoreFile(target: Target, reached: nat) returns (ok: bool)
      requires Valid() && world.restore >= 1
      requires Reached().Rank() == Min(reached, Before(Temporary(target, true)).Rank())
      modifies `world, `effects, `operations
      ensures Valid() && old(effects) <= effects
      ensures world == old(world).(layout := world.layout)
      ensures ok ==> Reached().Rank() == Min(reached, Before(Temporary(target, true)).Rank() - 1)
      ensures ok ==> SameBeside(old(world).layout, world.layout)
      ensures ok && reached >= Before(Temporary(target, true)).Rank() ==> Unblocked(old(world).layout, target)
      ensures Faultless() && (reached >= Before(Temporary(target, true)).Rank() ==> Unblocked(old(world).layout, target))
              ==> ok
      ensures old(world).layout.leftovers <= world.layout.leftovers
      ensures Reached().Rank() == old(Reached()).Rank()
              || (Unblocked(old(world).layout, target) && Reached().Rank() == old(Reached()).Rank() - 1)
      ensures reached < Before(Temporary(target, true)).Rank() ==> ok && world == old(world)
    {
      hide Classify, Fits;
      if reached < Before(Temporary(target, true)).Rank() { return true; }
      RestoringStepsBack(plan, world.layout, target);
      ok := ReplaceFile(Temporary(target, true));
    }

    /** Registration first, then the setup manifest. */
    method RestoreState(reached: nat) returns (ok: bool)
      requires Valid() && world.restore >= 1 && Reached().Rank() == reached && 1 <= reached <= 6
      modifies `world, `effects, `operations
      ensures Valid() && old(effects) <= effects
      ensures world == old(world).(layout := world.layout)
      ensures ok ==> Reached().Rank() == Min(reached, 4) && SameBeside(old(world).layout, world.layout)
      ensures ok ==> StateUnblocked(old(world).layout, reached)
      ensures Faultless() && StateUnblocked(old(world).layout, reached) ==> ok
      ensures old(world).layout.leftovers <= world.layout.leftovers
      ensures Min(reached, 4) <= Reached().Rank() <= reached
      ensures !StateUnblocked(old(world).layout, reached) ==> !StateUnblocked(world.layout, Reached().Rank())
    {
      hide Classify;
      ok := RestoreFile(Registration, reached);
      if !ok { return; }
      ok := RestoreFile(Setup, reached);
    }

    method RestoreFiles(reached: nat) returns (ok: bool)
      requires Valid() && world.restore >= 1 && Reached().Rank() == reached && 1 <= reached <= 6
      modifies `world, `effects, `operations
      ensures Valid() && old(effects) <= effects
      ensures world == old(world).(layout := world.layout)
      ensures ok ==> Reached().Rank() == Min(reached, 3) && SameBeside(old(world).layout, world.layout)
      ensures ok ==> Restorable(plan, old(world).layout)
      ensures Faultless() && Restorable(plan, old(world).layout) ==> ok
      ensures !Restorable(plan, old(world).layout) ==> !Restorable(plan, world.layout)
    {
      hide Classify;
      ok := RestoreState(reached);
      if !ok { return; }
      ok := RestoreFile(Launcher, reached);
    }

    method RemoveCandidateGeneration() returns (ok: bool)
      requires Valid() && world.restore >= 1 && Reached() == Published
      modifies `world, `effects, `operations
      ensures Valid() && old(effects) <= effects
      ensures world == old(world).(layout := old(world).layout.(candidate := world.layout.candidate))
      ensures ok ==> world.layout == old(world).layout.(candidate := Missing)
      ensures Faultless() ==> ok
    {
      var fault := NextFault();
      if fault == FailsBefore { return false; }
      Do(DamageCandidate);
      if fault != Works { return false; }
      Do(RemoveCandidate);
      ok := true;
    }

    method RemoveIncomingIfPresent() returns (ok: bool)
      requires Valid() && world.restore >= 1
      modifies `world, `effects, `operations
      ensures Valid() && old(effects) <= effects
      ensures world == old(world).(layout := old(world).layout.(incoming := world.layout.incoming))
      ensures ok ==> world.layout == old(world).layout.(incoming := false)
      ensures Faultless() ==> ok
    {
      if !world.layout.incoming { return true; }
      var fault := NextFault();
      if fault == FailsBefore || fault == FailsPartway { return false; }
      Do(RemoveIncoming);
      ok := fault == Works;
    }

    /**
     Undoes the cutover from whatever prefix it is at.  Without an I/O failure this succeeds
     exactly when the prefix is recognised and no restore temporary was left behind.
     */
    method RestorePlatform() returns (ok: bool)
      requires Valid() && world.restore >= 1
      modifies `world, `effects, `operations
      ensures Valid() && old(effects) <= effects
      ensures world == old(world).(layout := world.layout)
      ensures ok ==> Reached() == Untouched && world.layout == Undone(plan, old(world).layout)
      ensures ok ==> Restorable(plan, old(world).layout)
      ensures Faultless() && Restorable(plan, old(world).layout) ==> ok
      ensures !Restorable(plan, old(world).layout) ==> !ok && !Restorable(plan, world.layout)
      ensures Classify(plan, old(world).layout) == Invalid ==> world == old(world)
    {
      var reached := Reached().Rank();
      if reached == 0 || reached > 6 { return false; }
      ok := RestoreFiles(reached);
      if !ok { return; }
      ok := RemoveGenerations();
      if ok { UntouchedIsUndone(plan, old(world).layout, world.layout); }
    }

    /** The published candidate, or what an interrupted copy left of it. */
    method RemoveGenerations() returns (ok: bool)
      requires Valid() && world.restore >= 1 && 1 <= Reached().Rank() <= 3
      modifies `world, `effects, `operations
      ensures Valid() && old(effects) <= effects
      ensures world == old(world).(layout := world.layout)
      ensures ok ==> Reached() == Untouched && SameBeside(old(world).layout, world.layout)
      ensures Faultless() ==> ok
    {
      if Reached().Rank() >= 3 {
        ok := RemoveCandidateGeneration();
        if !ok { return; }
      }
      ok := RemoveIncomingIfPresent();
    }

    method RestorePrevious() returns (ok: bool)
      requires Valid() && world.restore == 0 && 3 <= world.forward <= 9
      modifies `world, `effects, `operations
      ensures Valid() && old(effects) <= effects
      ensures world.forward == old(world).forward
      ensures ok ==> world.restore == 2 && world.layout == Undone(plan, old(world).layout)
      ensures ok ==> Restorable(plan, old(world).layout)
      ensures !Restorable(plan, old(world).layout) ==> !ok && !Restorable(plan, world.layout)
      ensures Faultless() && Restorable(plan, old(world).layout) ==> ok
    {
      hide Classify, Restorable;
      ok := Append(TurnBack);
      if !ok { return; }
      ok := RestorePlatform();
      if !ok { return; }
      ok := Append(TurnBack);
    }

    // --------------------------------------------------------------- cleaning

    method RemoveCurrentGeneration() returns (ok: bool)
      requires Valid() && world.forward == 12 && (Reached() == Registered || Reached() == Cleaned)
      modifies `world, `effects, `operations
      ensures Valid() && old(effects) <= effects
      ensures world == old(world).(layout := old(world).layout.(current := world.layout.current))
      ensures ok ==> world.layout == old(world).layout.(current := Missing)
      ensures Faultless() ==> ok
    {
      hide Run, ValidRun;
      if world.layout.current == Missing { return true; }
      var fault := NextFault();
      if fault == FailsBefore { return false; }
      Do(DamageCurrent);
      if fault != Works { return false; }
      Do(RemoveCurrent);
      ok := true;
    }

    method RemoveStageTree() returns (ok: bool)
      requires Valid() && world.forward == 12
      modifies `world, `effects, `operations
      ensures Valid() && old(effects) <= effects
      ensures world == old(world).(layout := old(world).layout.(stage := world.layout.stage))
      ensures ok ==> world.layout == old(world).layout.(stage := Missing)
      ensures Faultless() ==> ok
    {
      if world.layout.stage == Missing { return true; }
      var fault := NextFault();
      if fault == FailsBefore { return false; }
      if world.layout.stage == Intact { Do(DamageStage); }
      if fault != Works { return false; }
      Do(RemoveStage);
      ok := true;
    }

    /** The removal that the announcement at `cleanup/intent` is about. */
    method RemovePrevious() returns (ok: bool)
      requires Valid() && world.forward == 12
      modifies `world, `effects, `operations
      ensures Valid() && old(effects) <= effects
      ensures world == old(world).(layout := world.layout)
      ensures ok ==> Classify(plan, old(world).layout) != Invalid && Reached() == Cleaned
      ensures ok ==> world.layout == old(world).layout.(current := Missing, stage := Missing)
      ensures Faultless() && Classify(plan, old(world).layout) != Invalid ==> ok
      ensures Classify(plan, old(world).layout) == Invalid ==> world == old(world)
      ensures world.layout.stage != old(world).layout.stage ==> world.layout.current == Missing
    {
      if Reached() != Registered && Reached() != Cleaned { return false; }
      ok := RemoveCurrentGeneration();
      if !ok { return; }
      assert !world.layout.incoming;
      ok := RemoveStageTree();
    }

    method CleanUp() returns (ok: bool)
      requires Valid() && 11 <= world.forward <= 12 && Reached() != Invalid
      modifies `world, `effects, `operations
      ensures Valid() && old(effects) <= effects
      ensures world.restore == 0 && world.forward >= old(world).forward
      ensures ok ==> world.forward == 14 && Reached() == Cleaned
      ensures ok ==> world.layout == old(world).layout.(current := Missing, stage := Missing)
      ensures Faultless() ==> ok
    {
      hide Classify;
      if world.forward == 11 {
        ok := Append(Advance);
        if !ok { return; }
      }
      ok := RemovePrevious();
      if !ok { return; }
      ok := Append(Advance);
      if !ok { return; }
      ok := Append(Advance);
    }

    // ------------------------------------------------------------- reconciling

    /** Rolls back: the journal holds a restoration, or an update that was never verified. */
    method ReconcileBack() returns (ok: bool)
      requires Valid() && RollsBack(world)
      modifies `world, `effects, `operations
      ensures Valid() && old(effects) <= effects
      ensures ok ==> world.restore >= 2 && world.layout == Undone(plan, old(world).layout)
      ensures ok ==> Restorable(plan, old(world).layout)
      ensures RollsBack(world)
      ensures !Restorable(plan, old(world).layout) ==> !ok && !Restorable(plan, world.layout)
      ensures Faultless() && Restorable(plan, old(world).layout) ==> ok
    {
      if world.restore > 0 {
        ok := RestorePlatform();
        if !ok { return; }
        if world.restore == 1 { ok := Append(TurnBack); }
        return;
      }
      if world.forward == 2 {
        ok := Append(Advance);
        if !ok { return; }
      }
      ok := RestorePrevious();
    }

    /** Goes on: the registration must be prepared, and an announced removal is finished. */
    method ReconcileForward() returns (ok: bool)
      requires Valid() && world.restore == 0 && world.forward >= 9
      modifies `world, `effects, `operations
      ensures Valid() && old(effects) <= effects
      ensures world.restore == 0 && world.forward >= old(world).forward
      ensures ok ==> old(world).layout.current != Partial
      ensures Faultless() && old(world).layout.current != Partial ==> ok
      ensures ok ==> world.forward == Forwarded(old(world).forward)
      ensures ok ==> world.layout == WentOn(old(world).forward, old(world).layout)
      ensures ok && old(world).forward >= 11 ==> Reached() == Cleaned
      ensures old(world).layout.current == Partial ==> world == old(world)
    {
      var fault := NextFault();
      if fault != Works || (Reached() != Registered && Reached() != Cleaned) { return false; }
      if world.forward < 11 || world.forward == 14 { return true; }
      if world.forward == 13 {
        ok := Append(Advance);
        return;
      }
      ok := CleanUp();
    }

    /**
     One recovery on Windows.  Without an I/O failure a rollback succeeds exactly from a
     restorable layout, and a verified update exactly when the current generation is not
     partly removed.
     */
    method Reconcile() returns (ok: bool)
      requires Valid()
      modifies `world, `effects, `operations
      ensures Valid() && old(effects) <= effects
      ensures Startable(plan, world.layout)
      ensures old(world).restore > 0 || 2 <= old(world).forward <= 8 ==>
                && (ok ==> world.layout == old(world).layout.(
                      candidate := Missing, incoming := false, launcher := plan.currentLauncher,
                      setup := plan.currentSetup, registration := plan.previousRegistration))
                && (ok ==> world.layout.current == Intact && world.restore >= 2)
                && (ok ==> Restorable(plan, old(world).layout))
                && (Faultless() && Restorable(plan, old(world).layout) ==> ok)
                && (!Restorable(plan, old(world).layout) ==> !ok && !Restorable(plan, world.layout))
                && (world.restore > 0 || 2 <= world.forward <= 8)
      ensures old(world).restore == 0 && old(world).forward >= 9 ==>
                && world.restore == 0
                && (ok ==> old(world).layout.current != Partial)
                && (ok ==> world.forward == if old(world).forward < 11 then old(world).forward else 14)
                && (ok ==> world.layout == if 11 <= old(world).forward <= 12
                                           then old(world).layout.(current := Missing, stage := Missing)
                                           else old(world).layout)
                && (old(world).layout.current == Partial ==> world == old(world))
                && (Faultless() && old(world).layout.current != Partial ==> ok)
      ensures old(world).restore == 0 && old(world).forward < 2 ==> !ok && world == old(world)
    {
      if RollsBack(world) {
        ok := ReconcileBack();
      } else if world.forward < 2 {
        ok := false;
      } else {
        ok := ReconcileForward();
      }
    }
  }

  // ------------------------------------------- where recovery can no longer roll back

  /**
   A rollback that is blocked stays blocked: however many recoveries follow and whatever fails in
   them, none reports success and the layout never becomes restorable.  A recovery that stops in
   the middle is one whose operations all fail from there on.  The launcher keeps naming a
   complete generation.
   */
  method RecoverAgainAndAgain(plan: Plan, blocked: World, attempts: seq<nat -> Fault>)
    returns (verdicts: seq<bool>, after: World)
    requires Inv(plan, blocked) && RollsBack(blocked) && !Restorable(plan, blocked.layout)
    ensures |verdicts| == |attempts| && true !in verdicts
    ensures Inv(plan, after) && RollsBack(after)
    ensures !Restorable(plan, after.layout) && Startable(plan, after.layout)
  {
    hide Restorable, Classify, Fits;
    verdicts, after := [], blocked;
    for i := 0 to |attempts|
      invariant |verdicts| == i && true !in verdicts
      invariant Inv(plan, after) && RollsBack(after)
      invariant !Restorable(plan, after.layout)
    {
      var cutover := new Cutover(plan, attempts[i], after);
      var ok := cutover.Reconcile();
      verdicts, after := verdicts + [ok], cutover.world;
    }
    FittingLayoutStarts(plan, after);
  }

  lemma FittingLayoutStarts(plan: Plan, w: World)
    requires Inv(plan, w)
    ensures Startable(plan, w.layout)
  {
  }

  ghost predicate ReachableFrom(plan: Plan, w0: World, w: World) {
    exists effects :: ValidRun(plan, w0, effects) && Run(plan, w0, effects) == w
  }

  lemma Extend(plan: Plan, w0: World, w: World, e: Effect)
    requires ReachableFrom(plan, w0, w) && Enabled(plan, w, e)
    ensures ReachableFrom(plan, w0, Apply(plan, w, e))
  {
    var effects :| ValidRun(plan, w0, effects) && Run(plan, w0, effects) == w;
    var longer := effects + [e];
    assert longer[..|longer| - 1] == effects;
    assert ValidRun(plan, w0, longer) && Run(plan, w0, longer) == Apply(plan, w, e);
  }

  lemma NothingDoneIsReachable(plan: Plan, w0: World)
    ensures ReachableFrom(plan, w0, w0)
  {
    assert ValidRun(plan, w0, []) && Run(plan, w0, []) == w0;
  }

  lemma PublishedIsReachable(plan: Plan, l: Layout)
    requires plan.Distinct() && Classify(plan, l) == Untouched
    ensures ReachableFrom(plan, World(0, 0, l), World(4, 0, l.(candidate := Intact)))
  {
    hide ReachableFrom;
    var w0 := World(0, 0, l);
    NothingDoneIsReachable(plan, w0);
    Extend(plan, w0, w0, Advance);
    Extend(plan, w0, World(1, 0, l), Advance);
    Extend(plan, w0, World(2, 0, l), Advance);
    Extend(plan, w0, World(3, 0, l), Advance);
    Extend(plan, w0, World(4, 0, l), CreateIncoming);
    Extend(plan, w0, World(4, 0, l.(incoming := true)), PublishGeneration);
    assert l.(incoming := true).(incoming := false, candidate := Intact) == l.(candidate := Intact);
  }

  /** A crash inside the removal of the candidate generation: no later recovery completes the rollback. */
  lemma InterruptedRemovalBlocksRestoration(plan: Plan, l: Layout)
    requires plan.Distinct() && Classify(plan, l) == Untouched
    ensures var crashed := World(4, 1, l.(candidate := Partial));
            ReachableFrom(plan, World(0, 0, l), crashed) && !Restorable(plan, crashed.layout)
  {
    hide ReachableFrom;
    PublishedIsReachable(plan, l);
    var w0, published := World(0, 0, l), l.(candidate := Intact);
    Extend(plan, w0, World(4, 0, published), TurnBack);
    Extend(plan, w0, World(4, 1, published), DamageCandidate);
  }

  /** A crash between writing and renaming a restore temporary has the same consequence. */
  lemma LeftoverTemporaryBlocksRestoration(plan: Plan, l: Layout)
    requires plan.Distinct() && Classify(plan, l) == Untouched && l.leftovers == {}
    ensures var crashed := World(4, 1, l.(candidate := Intact, launcher := plan.candidateLauncher,
                                          leftovers := {Temporary(Launcher, true)}));
            && ReachableFrom(plan, World(0, 0, l), crashed)
            && Classify(plan, crashed.layout) == Launched && !Restorable(plan, crashed.layout)
  {
    hide ReachableFrom;
    PublishedIsReachable(plan, l);
    var w0, published := World(0, 0, l), l.(candidate := Intact);
    var promoting, restoring := Temporary(Launcher, false), Temporary(Launcher, true);
    Extend(plan, w0, World(4, 0, published), WriteTemporary(promoting));
    TemporaryIsConsumed(plan, published, promoting);
    Extend(plan, w0, World(4, 0, published.(leftovers := published.leftovers + {promoting})), Replace(promoting));
    var launched := Replaced(plan, published, promoting);
    Extend(plan, w0, World(4, 0, launched), TurnBack);
    Extend(plan, w0, World(4, 1, launched), WriteTemporary(restoring));
    assert launched.leftovers + {restoring} == {restoring};
  }
}
