/**
 The receipt journal of one portable update: the two receipt tables, the native
 loader that recovery runs over the journal, and the order check that the server
 runs over the same files.

 A journal directory is a gap-free sequence of numbered files.  A file is either
 sealed (it parses) or torn (its writer stopped between creating the name and
 finishing the bytes).  Digests are integers given by a hash function parameter;
 only the anchor theorem needs that function to be injective.
 */
module Receipts {
  datatype Option<+T> = None | Some(value: T)

  datatype Kind =
    | Prepared | OldExit | Promote | Register | Start | Verify | Cleanup | Complete
    | Restore | RestoredStart | RestoredVerify

  datatype Outcome = Intent | Completed

  datatype Receipt = Receipt(kind: Kind, outcome: Outcome)

  const FORWARD_RECEIPTS: nat := 14
  const RESTORE_RECEIPTS: nat := 6
  const MAX_LOADED: nat := 20
  const MAX_SERVER_RECEIPTS: nat := 15

  function ForwardReceipt(i: nat): Receipt
    requires i < 14
  {
    match i
    case 0 => Receipt(Prepared, Completed)
    case 1 => Receipt(OldExit, Intent)
    case 2 => Receipt(OldExit, Completed)
    case 3 => Receipt(Promote, Intent)
    case 4 => Receipt(Promote, Completed)
    case 5 => Receipt(Register, Intent)
    case 6 => Receipt(Register, Completed)
    case 7 => Receipt(Start, Intent)
    case 8 => Receipt(Start, Completed)
    case 9 => Receipt(Verify, Intent)
    case 10 => Receipt(Verify, Completed)
    case 11 => Receipt(Cleanup, Intent)
    case 12 => Receipt(Cleanup, Completed)
    case _ => Receipt(Complete, Completed)
  }

  function RestoreReceipt(i: nat): Receipt
    requires i < 6
  {
    match i
    case 0 => Receipt(Restore, Intent)
    case 1 => Receipt(Restore, Completed)
    case 2 => Receipt(RestoredStart, Intent)
    case 3 => Receipt(RestoredStart, Completed)
    case 4 => Receipt(RestoredVerify, Intent)
    case _ => Receipt(RestoredVerify, Completed)
  }

  function ForwardExpected(count: nat): Option<Receipt> {
    if count < FORWARD_RECEIPTS then Some(ForwardReceipt(count)) else None
  }

  function RestoreExpected(count: nat): Option<Receipt> {
    if count < RESTORE_RECEIPTS then Some(RestoreReceipt(count)) else None
  }

  predicate MayBeginRestore(forward: nat) {
    3 <= forward <= 10
  }

  /** The receipts of a run that went `forward` steps forward and `restore` steps back. */
  function Word(forward: nat, restore: nat): (w: seq<Receipt>)
    requires forward <= FORWARD_RECEIPTS && restore <= RESTORE_RECEIPTS
    ensures |w| == forward + restore
  {
    seq(forward + restore, i requires 0 <= i < forward + restore =>
      if i < forward then ForwardReceipt(i) else RestoreReceipt(i - forward))
  }

  predicate IsSplit(receipts: seq<Receipt>, forward: nat, restore: nat) {
    && forward <= FORWARD_RECEIPTS
    && restore <= RESTORE_RECEIPTS
    && receipts == Word(forward, restore)
  }

  /** What the native loader admits. */
  predicate Loadable(receipts: seq<Receipt>, forward: nat, restore: nat) {
    IsSplit(receipts, forward, restore) && (restore > 0 ==> MayBeginRestore(forward))
  }

  /** What the server's order check admits. */
  ghost predicate ServerOrdered(receipts: seq<Receipt>) {
    exists forward: nat, restore: nat ::
      IsSplit(receipts, forward, restore) && (restore > 0 ==> 3 <= forward <= 9)
  }

  lemma WordIndexing(forward: nat, restore: nat, i: nat)
    requires forward <= FORWARD_RECEIPTS && restore <= RESTORE_RECEIPTS && i < forward + restore
    ensures Word(forward, restore)[i] == if i < forward then ForwardReceipt(i) else RestoreReceipt(i - forward)
  {
  }

  /** The tables share no receipt, so the split of a journal is determined by the journal. */
  lemma SplitIsUnique(receipts: seq<Receipt>, f1: nat, r1: nat, f2: nat, r2: nat)
    requires IsSplit(receipts, f1, r1) && IsSplit(receipts, f2, r2)
    ensures f1 == f2 && r1 == r2
  {
    if f1 < f2 {
      WordIndexing(f1, r1, f1);
      WordIndexing(f2, r2, f1);
    } else if f2 < f1 {
      WordIndexing(f1, r1, f2);
      WordIndexing(f2, r2, f2);
    }
  }

  // -------------------------------------------------- what the two tables amount to

  /** The whole update, receipt by receipt. */
  const FORWARD_ORDER: seq<Receipt> := [
    Receipt(Prepared, Completed),
    Receipt(OldExit, Intent), Receipt(OldExit, Completed),
    Receipt(Promote, Intent), Receipt(Promote, Completed),
    Receipt(Register, Intent), Receipt(Register, Completed),
    Receipt(Start, Intent), Receipt(Start, Completed),
    Receipt(Verify, Intent), Receipt(Verify, Completed),
    Receipt(Cleanup, Intent), Receipt(Cleanup, Completed),
    Receipt(Complete, Completed)]

  /** The whole restoration, receipt by receipt. */
  const RESTORE_ORDER: seq<Receipt> := [
    Receipt(Restore, Intent), Receipt(Restore, Completed),
    Receipt(RestoredStart, Intent), Receipt(RestoredStart, Completed),
    Receipt(RestoredVerify, Intent), Receipt(RestoredVerify, Completed)]

  /** Exactly these journals are loadable: a prefix of one list, and after 3 to 10 receipts one of the other. */
  lemma LoadableIsLiteral(receipts: seq<Receipt>, forward: nat, restore: nat)
    ensures Loadable(receipts, forward, restore) <==>
              && forward <= 14 && restore <= 6 && (restore > 0 ==> 3 <= forward <= 10)
              && receipts == FORWARD_ORDER[..forward] + RESTORE_ORDER[..restore]
  {
    if forward <= 14 && restore <= 6 { WordIsLiteral(forward, restore); }
  }

  lemma WordIsLiteral(forward: nat, restore: nat)
    requires forward <= 14 && restore <= 6
    ensures Word(forward, restore) == FORWARD_ORDER[..forward] + RESTORE_ORDER[..restore]
  {
    forall i: nat | i < 14 ensures ForwardReceipt(i) == FORWARD_ORDER[i] {}
    forall i: nat | i < 6 ensures RestoreReceipt(i) == RESTORE_ORDER[i] {}
  }

  /** The place of a step in the life of an update: all of the forward steps, then the restoration. */
  function Place(kind: Kind): nat {
    match kind
    case Prepared => 0 case OldExit => 1 case Promote => 2 case Register => 3
    case Start => 4 case Verify => 5 case Cleanup => 6 case Complete => 7
    case Restore => 8 case RestoredStart => 9 case RestoredVerify => 10
  }

  /** No receipt twice, the steps in their order, and whatever is completed was announced just before. */
  predicate Disciplined(receipts: seq<Receipt>) {
    && (forall i, j | 0 <= i < j < |receipts| ::
          receipts[i] != receipts[j] && Place(receipts[i].kind) <= Place(receipts[j].kind))
    && (forall i | 0 <= i < |receipts| && receipts[i].outcome == Completed ::
          || receipts[i].kind == Prepared || receipts[i].kind == Complete
          || (i > 0 && receipts[i - 1] == Receipt(receipts[i].kind, Intent)))
  }

  lemma ForwardPlace(i: nat)
    requires i < 14
    ensures Place(ForwardReceipt(i).kind) == (i + 1) / 2
    ensures ForwardReceipt(i).outcome == Completed <==> i % 2 == 0 || i == 13
    ensures i % 2 == 0 && i > 0 ==> ForwardReceipt(i - 1) == Receipt(ForwardReceipt(i).kind, Intent)
    ensures (i == 0 ==> ForwardReceipt(i).kind == Prepared) && (i == 13 ==> ForwardReceipt(i).kind == Complete)
  {
  }

  lemma RestorePlace(i: nat)
    requires i < 6
    ensures Place(RestoreReceipt(i).kind) == 8 + i / 2
    ensures RestoreReceipt(i).outcome == Completed <==> i % 2 == 1
    ensures i % 2 == 1 ==> RestoreReceipt(i - 1) == Receipt(RestoreReceipt(i).kind, Intent)
  {
  }

  lemma LoadableIsDisciplined(receipts: seq<Receipt>, forward: nat, restore: nat)
    requires Loadable(receipts, forward, restore)
    ensures Disciplined(receipts)
    ensures receipts != [] ==> receipts[0] == Receipt(Prepared, Completed)
    ensures restore > 0 ==> receipts[forward] == Receipt(Restore, Intent)
  {
    if receipts != [] { WordIndexing(forward, restore, 0); }
    if restore > 0 { WordIndexing(forward, restore, forward); }
    forall i, j | 0 <= i < j < |receipts|
      ensures receipts[i] != receipts[j] && Place(receipts[i].kind) <= Place(receipts[j].kind)
    {
      OneAfterTheOther(receipts, forward, restore, i, j);
    }
    forall i | 0 <= i < |receipts| && receipts[i].outcome == Completed
      ensures || receipts[i].kind == Prepared || receipts[i].kind == Complete
              || (i > 0 && receipts[i - 1] == Receipt(receipts[i].kind, Intent))
    {
      CompletedAfterIntent(receipts, forward, restore, i);
    }
  }

  lemma OneAfterTheOther(receipts: seq<Receipt>, forward: nat, restore: nat, i: nat, j: nat)
    requires IsSplit(receipts, forward, restore) && i < j < |receipts|
    ensures receipts[i] != receipts[j] && Place(receipts[i].kind) <= Place(receipts[j].kind)
  {
    WordIndexing(forward, restore, i);
    WordIndexing(forward, restore, j);
    hide Word, ForwardReceipt, RestoreReceipt, Place;
    if i < forward { ForwardPlace(i); } else { RestorePlace(i - forward); }
    if j < forward { ForwardPlace(j); } else { RestorePlace(j - forward); }
  }

  lemma CompletedAfterIntent(receipts: seq<Receipt>, forward: nat, restore: nat, i: nat)
    requires IsSplit(receipts, forward, restore) && i < |receipts| && receipts[i].outcome == Completed
    ensures || receipts[i].kind == Prepared || receipts[i].kind == Complete
            || (i > 0 && receipts[i - 1] == Receipt(receipts[i].kind, Intent))
  {
    WordIndexing(forward, restore, i);
    if i > 0 { WordIndexing(forward, restore, i - 1); }
    hide Word, ForwardReceipt, RestoreReceipt, Place;
    if i < forward { ForwardPlace(i); } else { RestorePlace(i - forward); }
  }

  // ------------------------------------------------------------------ files

  /** The authenticated fields of one receipt file; `foreign` stands for a wrong activation or plan. */
  datatype Entry = Entry(foreign: bool, sequence: nat, receipt: Receipt, at: nat, previous: Option<int>)

  datatype File = Torn | Sealed(entry: Entry)

  /** The recovery request names a journal position and its digest; `None` is the digest "-". */
  datatype Anchor = Anchor(sequence: nat, digest: Option<int>)

  ghost predicate Chained(files: seq<File>, hash: Entry -> int, i: nat)
    requires i < |files|
  {
    && files[i].Sealed?
    && !files[i].entry.foreign
    && files[i].entry.sequence == i + 1
    && (i == 0 ==> files[i].entry.previous == None)
    && (i > 0 ==> files[i - 1].Sealed? && files[i].entry.previous == Some(hash(files[i - 1].entry)))
  }

  ghost predicate Authentic(files: seq<File>, hash: Entry -> int) {
    forall i: nat | i < |files| :: Chained(files, hash, i)
  }

  ghost predicate Carries(files: seq<File>, receipts: seq<Receipt>) {
    |files| == |receipts| && forall i | 0 <= i < |files| :: files[i].Sealed? && files[i].entry.receipt == receipts[i]
  }

  ghost predicate Anchored(files: seq<File>, hash: Entry -> int, anchor: Anchor) {
    && anchor.sequence <= |files|
    && (anchor.sequence == 0 ==> anchor.digest == None)
    && (anchor.sequence > 0 ==>
          && files[anchor.sequence - 1].Sealed?
          && anchor.digest == Some(hash(files[anchor.sequence - 1].entry)))
  }

  ghost predicate Loads(files: seq<File>, hash: Entry -> int, anchor: Anchor, forward: nat, restore: nat) {
    && Authentic(files, hash)
    && Anchored(files, hash, anchor)
    && forward <= FORWARD_RECEIPTS && restore <= RESTORE_RECEIPTS
    && (restore > 0 ==> MayBeginRestore(forward))
    && Carries(files, Word(forward, restore))
  }

  /** Parsing and chain check of the file at the next slot. */
  predicate ReadExpected(file: File, sequence: nat, digest: Option<int>, expected: Receipt) {
    && file.Sealed?
    && !file.entry.foreign
    && file.entry.sequence == sequence + 1
    && file.entry.receipt == expected
    && file.entry.previous == digest
  }

  ghost predicate Unloadable(files: seq<File>, hash: Entry -> int, anchor: Anchor) {
    forall forward: nat, restore: nat :: !Loads(files, hash, anchor, forward, restore)
  }

  /**
   The native loader accepts exactly the authentic, anchored journals whose receipts are a
   forward prefix followed by a restore prefix, and returns their unique split.
   */
  method LoadReceipts(files: seq<File>, hash: Entry -> int, anchor: Anchor)
    returns (ok: bool, forward: nat, restore: nat)
    ensures ok ==> Loads(files, hash, anchor, forward, restore)
    ensures ok ==> forward <= 14 && restore <= 6 && Carries(files, FORWARD_ORDER[..forward] + RESTORE_ORDER[..restore])
    ensures !ok ==> Unloadable(files, hash, anchor)
  {
    hide Loads, Unloadable, Scanned, Chained, Anchored;
    NothingLoaded(files, hash);
    var sequence: nat, digest: Option<int>, restoring := 0, None, false;
    forward, restore := 0, 0;
    while sequence < |files|
      invariant sequence == forward + restore <= |files|
      invariant forward <= FORWARD_RECEIPTS && restore <= RESTORE_RECEIPTS && (restore > 0 ==> MayBeginRestore(forward))
      invariant Scanned(files, hash, sequence, forward, restore)
      invariant restoring <==> restore > 0
      invariant digest == DigestAfter(files, hash, sequence)
      invariant 0 < anchor.sequence <= sequence ==> anchor.digest == DigestAfter(files, hash, anchor.sequence)
    {
      if sequence >= MAX_LOADED { assert false; }
      var file := files[sequence];
      var expected := ForwardExpected(forward);
      if !restoring && expected.Some? && ReadExpected(file, sequence, digest, expected.value) {
        ForwardScanned(files, hash, sequence, forward);
        forward := forward + 1;
      } else {
        if !restoring && !MayBeginRestore(forward) {
          NothingFits(files, hash, anchor, sequence, forward, restore);
          return false, 0, 0;
        }
        restoring := true;
        expected := RestoreExpected(restore);
        if expected.None? || !ReadExpected(file, sequence, digest, expected.value) {
          NothingFits(files, hash, anchor, sequence, forward, restore);
          return false, 0, 0;
        }
        RestoreScanned(files, hash, sequence, forward, restore);
        restore := restore + 1;
      }
      sequence, digest := sequence + 1, Some(hash(file.entry));
      if sequence == anchor.sequence && digest != anchor.digest {
        AnchorDecides(files, hash, anchor, forward, restore);
        return false, 0, 0;
      }
    }
    ok := sequence >= anchor.sequence && (anchor.sequence != 0 || anchor.digest == None);
    AnchorDecides(files, hash, anchor, forward, restore);
    if ok {
      AllScanned(files, hash, anchor, forward, restore);
      LoadedIsDisciplined(files, hash, anchor, forward, restore);
    }
  }

  lemma NothingLoaded(files: seq<File>, hash: Entry -> int)
    ensures Scanned(files, hash, 0, 0, 0)
  {
  }

  /** Among the files that have been scanned, the digest at the anchor's position decides. */
  lemma AnchorDecides(files: seq<File>, hash: Entry -> int, anchor: Anchor, forward: nat, restore: nat)
    requires Scanned(files, hash, forward + restore, forward, restore)
    ensures 0 < anchor.sequence <= forward + restore ==>
              (Anchored(files, hash, anchor) <==> anchor.digest == DigestAfter(files, hash, anchor.sequence))
    ensures anchor.sequence == 0 ==> (Anchored(files, hash, anchor) <==> anchor.digest == None)
    ensures !Anchored(files, hash, anchor) ==> Unloadable(files, hash, anchor)
    ensures anchor.sequence > |files| ==> !Anchored(files, hash, anchor)
  {
    if 0 < anchor.sequence <= forward + restore { assert Chained(files, hash, anchor.sequence - 1); }
  }

  /** Neither table has the next file. */
  lemma NothingFits(files: seq<File>, hash: Entry -> int, anchor: Anchor, sequence: nat, forward: nat, restore: nat)
    requires Scanned(files, hash, sequence, forward, restore) && sequence < |files|
    requires var digest := DigestAfter(files, hash, sequence);
             && !(restore == 0 && forward < FORWARD_RECEIPTS
                  && ReadExpected(files[sequence], sequence, digest, ForwardReceipt(forward)))
             && !(MayBeginRestore(forward) && restore < RESTORE_RECEIPTS
                  && ReadExpected(files[sequence], sequence, digest, RestoreReceipt(restore)))
    ensures Unloadable(files, hash, anchor)
  {
    hide Loads;
    if sequence > 0 { assert Chained(files, hash, sequence - 1); }
    NoOtherSplit(files, hash, anchor, sequence, forward, restore);
  }

  function DigestAfter(files: seq<File>, hash: Entry -> int, sequence: nat): Option<int>
    requires sequence <= |files|
  {
    if sequence == 0 || files[sequence - 1].Torn? then None else Some(hash(files[sequence - 1].entry))
  }

  lemma ForwardScanned(files: seq<File>, hash: Entry -> int, sequence: nat, forward: nat)
    requires Scanned(files, hash, sequence, forward, 0) && sequence < |files| && forward < FORWARD_RECEIPTS
    requires ReadExpected(files[sequence], sequence, DigestAfter(files, hash, sequence), ForwardReceipt(forward))
    ensures Scanned(files, hash, sequence + 1, forward + 1, 0)
  {
  }

  lemma RestoreScanned(files: seq<File>, hash: Entry -> int, sequence: nat, forward: nat, restore: nat)
    requires Scanned(files, hash, sequence, forward, restore) && sequence < |files|
    requires restore < RESTORE_RECEIPTS && MayBeginRestore(forward)
    requires ReadExpected(files[sequence], sequence, DigestAfter(files, hash, sequence), RestoreReceipt(restore))
    ensures Scanned(files, hash, sequence + 1, forward, restore + 1)
  {
  }

  lemma AllScanned(files: seq<File>, hash: Entry -> int, anchor: Anchor, forward: nat, restore: nat)
    requires Scanned(files, hash, |files|, forward, restore) && Anchored(files, hash, anchor)
    ensures Loads(files, hash, anchor, forward, restore)
  {
    hide Anchored;
    forall i | 0 <= i < |files|
      ensures files[i].Sealed? && files[i].entry.receipt == Word(forward, restore)[i]
    {
      WordIndexing(forward, restore, i);
    }
  }

  /** What the loader knows after `sequence` files. */
  ghost predicate Scanned(files: seq<File>, hash: Entry -> int, sequence: nat,
                          forward: nat, restore: nat)
  {
    && sequence == forward + restore <= |files|
    && forward <= FORWARD_RECEIPTS && restore <= RESTORE_RECEIPTS
    && (restore > 0 ==> MayBeginRestore(forward))
    && (forall i: nat | i < sequence :: Chained(files, hash, i))
    && (forall i: nat | i < forward :: files[i].Sealed? && files[i].entry.receipt == ForwardReceipt(i))
    && (forall i: nat | forward <= i < sequence ::
          files[i].Sealed? && files[i].entry.receipt == RestoreReceipt(i - forward))
  }

  /** Once the next file fits neither table, no split at all explains the journal. */
  lemma NoOtherSplit(files: seq<File>, hash: Entry -> int, anchor: Anchor, sequence: nat,
                     forward: nat, restore: nat)
    requires Scanned(files, hash, sequence, forward, restore)
    requires sequence < |files|
    requires !(Chained(files, hash, sequence) && restore == 0 && forward < FORWARD_RECEIPTS
               && files[sequence].entry.receipt == ForwardReceipt(forward))
    requires !(Chained(files, hash, sequence) && MayBeginRestore(forward) && restore < RESTORE_RECEIPTS
               && files[sequence].entry.receipt == RestoreReceipt(restore))
    ensures forall f: nat, r: nat :: !Loads(files, hash, anchor, f, r)
  {
    forall f: nat, r: nat | Loads(files, hash, anchor, f, r)
      ensures false
    {
      assert Chained(files, hash, sequence);
      assert forall i: nat | i < FORWARD_RECEIPTS :: ForwardReceipt(i) != RestoreReceipt(0);
      if f < forward {
        WordIndexing(f, r, f);
      } else if forward < f && restore > 0 {
        WordIndexing(f, r, forward);
      } else {
        WordIndexing(f, r, sequence);
      }
    }
  }

  /** The cap of twenty receipts never decides: every loadable journal is shorter. */
  lemma LoadableLength(receipts: seq<Receipt>, forward: nat, restore: nat)
    requires Loadable(receipts, forward, restore)
    ensures |receipts| <= 16 < MAX_LOADED
  {
  }

  /** Whatever loads is disciplined, and a finished update or restoration does load. */
  lemma LoadedIsDisciplined(files: seq<File>, hash: Entry -> int, anchor: Anchor, forward: nat, restore: nat)
    requires Loads(files, hash, anchor, forward, restore)
    ensures Carries(files, FORWARD_ORDER[..forward] + RESTORE_ORDER[..restore])
    ensures Disciplined(FORWARD_ORDER[..forward] + RESTORE_ORDER[..restore])
  {
    WordIsLiteral(forward, restore);
    LoadableIsDisciplined(Word(forward, restore), forward, restore);
  }

  lemma FinishedJournalsLoad(files: seq<File>, hash: Entry -> int, anchor: Anchor, forward: nat)
    requires Authentic(files, hash) && Anchored(files, hash, anchor)
    ensures Carries(files, FORWARD_ORDER) ==> Loads(files, hash, anchor, 14, 0)
    ensures 3 <= forward <= 10 && Carries(files, FORWARD_ORDER[..forward] + RESTORE_ORDER) ==>
              Loads(files, hash, anchor, forward, 6)
  {
    WordIsLiteral(14, 0);
    assert FORWARD_ORDER[..14] + RESTORE_ORDER[..0] == FORWARD_ORDER;
    if 3 <= forward <= 10 {
      WordIsLiteral(forward, 6);
      assert RESTORE_ORDER[..6] == RESTORE_ORDER;
    }
  }

  // ------------------------------------------------------ the server's order check

  function ReceiptsOf(entries: seq<Entry>): (receipts: seq<Receipt>)
    ensures |receipts| == |entries| && forall i | 0 <= i < |entries| :: receipts[i] == entries[i].receipt
  {
    seq(|entries|, i requires 0 <= i < |entries| => entries[i].receipt)
  }

  /** What the order check knows after `index` receipts, the last `restoreIndex` of them in the restore part. */
  predicate ServerScanned(receipts: seq<Receipt>, index: nat, restoreIndex: nat, restoring: bool) {
    && restoreIndex <= index <= |receipts|
    && (if restoring then 1 <= restoreIndex <= RESTORE_RECEIPTS && 3 <= index - restoreIndex <= 9
        else restoreIndex == 0 && index <= FORWARD_RECEIPTS)
    && (forall i | 0 <= i < index - restoreIndex :: receipts[i] == ForwardReceipt(i))
    && (forall i | index - restoreIndex <= i < index :: receipts[i] == RestoreReceipt(i - (index - restoreIndex)))
  }

  /** The server's left-to-right check over the receipts that it takes to be one activation's. */
  method ValidateSequence(entries: seq<Entry>) returns (ok: bool)
    ensures ok <==> (forall i | 0 <= i < |entries| :: !entries[i].foreign) && ServerOrdered(ReceiptsOf(entries))
  {
    hide ServerOrdered, ServerScanned, RestoreExpected, ForwardExpected;
    ghost var receipts := ReceiptsOf(entries);
    var restoring := false;
    var restoreIndex := 0;
    var index := 0;
    NothingScanned(receipts);
    while index < |entries|
      invariant ServerScanned(receipts, index, restoreIndex, restoring)
      invariant 0 <= restoreIndex <= index <= |entries| && (!restoring ==> restoreIndex == 0)
      invariant forall i | 0 <= i < index :: !entries[i].foreign
    {
      var entry := entries[index];
      var turning := !restoring && entry.receipt == Receipt(Restore, Intent);
      if turning {
        VerifiedIsLate(receipts, index);
        var verified := exists i | 0 <= i < index :: entries[i].receipt.kind == Verify;
        assert verified <==> exists i | 0 <= i < index :: receipts[i].kind == Verify;
        if index < 3 || verified {
          TurnsTooEarlyOrLate(receipts, index);
          return false;
        }
        restoring := true;
      }
      var expected := if restoring then RestoreExpected(restoreIndex) else ForwardExpected(index);
      if entry.foreign { return false; }
      if expected != Some(entry.receipt) {
        ServerRefuses(receipts, index, restoreIndex, restoring && !turning, restoring);
        return false;
      }
      ScannedFurther(receipts, index, restoreIndex, restoring && !turning, restoring);
      if restoring { restoreIndex := restoreIndex + 1; }
      index := index + 1;
    }
    ScannedIsOrdered(receipts, restoreIndex, restoring);
    return true;
  }

  lemma NothingScanned(receipts: seq<Receipt>)
    ensures ServerScanned(receipts, 0, 0, false)
  {
  }

  lemma VerifiedIsLate(receipts: seq<Receipt>, index: nat)
    requires ServerScanned(receipts, index, 0, false)
    ensures (exists i | 0 <= i < index :: receipts[i].kind == Verify) <==> index > 9
  {
    if index > 9 { assert receipts[9].kind == Verify; }
  }

  /** The receipt that is compared next: the restore part may begin with it. */
  predicate Compares(receipts: seq<Receipt>, index: nat, before: bool, restoring: bool) {
    && index < |receipts|
    && (before ==> restoring)
    && (!before ==> (restoring <==> receipts[index] == RestoreReceipt(0)))
    && (!before && restoring ==> 3 <= index <= 9)
  }

  lemma ScannedFurther(receipts: seq<Receipt>, index: nat, restoreIndex: nat, before: bool, restoring: bool)
    requires ServerScanned(receipts, index, restoreIndex, before) && Compares(receipts, index, before, restoring)
    requires (if restoring then RestoreExpected(restoreIndex) else ForwardExpected(index)) == Some(receipts[index])
    ensures ServerScanned(receipts, index + 1, if restoring then restoreIndex + 1 else restoreIndex, restoring)
  {
  }

  lemma ScannedIsOrdered(receipts: seq<Receipt>, restoreIndex: nat, restoring: bool)
    requires ServerScanned(receipts, |receipts|, restoreIndex, restoring)
    ensures ServerOrdered(receipts)
  {
    assert IsSplit(receipts, |receipts| - restoreIndex, restoreIndex);
  }

  lemma TurnsTooEarlyOrLate(receipts: seq<Receipt>, index: nat)
    requires ServerScanned(receipts, index, 0, false)
    requires index < |receipts| && receipts[index] == RestoreReceipt(0) && !(3 <= index <= 9)
    ensures !ServerOrdered(receipts)
  {
    if ServerOrdered(receipts) {
      var f: nat, r: nat :| IsSplit(receipts, f, r) && (r > 0 ==> 3 <= f <= 9);
      WordIndexing(f, r, index);
      if f < index { WordIndexing(f, r, f); }
    }
  }

  lemma ServerRefuses(receipts: seq<Receipt>, index: nat, restoreIndex: nat, before: bool, restoring: bool)
    requires ServerScanned(receipts, index, restoreIndex, before) && Compares(receipts, index, before, restoring)
    requires (if restoring then RestoreExpected(restoreIndex) else ForwardExpected(index)) != Some(receipts[index])
    ensures !ServerOrdered(receipts)
  {
    assert forall i: nat | i < FORWARD_RECEIPTS :: ForwardReceipt(i) != RestoreReceipt(0);
    var turn := index - restoreIndex;
    if ServerOrdered(receipts) {
      var f: nat, r: nat :| IsSplit(receipts, f, r) && (r > 0 ==> 3 <= f <= 9);
      WordIndexing(f, r, index);
      WordIndexing(f, r, turn);
      if f < turn { WordIndexing(f, r, f); }
    }
  }

  /** The server's language, receipt by receipt. */
  lemma ServerOrderIsLiteral(receipts: seq<Receipt>)
    ensures ServerOrdered(receipts) <==>
              exists forward: nat, restore: nat ::
                && forward <= 14 && restore <= 6 && (restore > 0 ==> 3 <= forward <= 9)
                && receipts == FORWARD_ORDER[..forward] + RESTORE_ORDER[..restore]
    ensures ServerOrdered(receipts) ==> Disciplined(receipts)
  {
    forall forward: nat, restore: nat | forward <= 14 && restore <= 6
      ensures Word(forward, restore) == FORWARD_ORDER[..forward] + RESTORE_ORDER[..restore]
    {
      WordIsLiteral(forward, restore);
    }
    if ServerOrdered(receipts) {
      var forward: nat, restore: nat :| IsSplit(receipts, forward, restore) && (restore > 0 ==> 3 <= forward <= 9);
      LoadableIsDisciplined(receipts, forward, restore);
    } else if exists forward: nat, restore: nat ::
                && forward <= 14 && restore <= 6 && (restore > 0 ==> 3 <= forward <= 9)
                && receipts == FORWARD_ORDER[..forward] + RESTORE_ORDER[..restore] {
      var forward: nat, restore: nat :|
        && forward <= 14 && restore <= 6 && (restore > 0 ==> 3 <= forward <= 9)
        && receipts == FORWARD_ORDER[..forward] + RESTORE_ORDER[..restore];
      assert IsSplit(receipts, forward, restore);
    }
  }

  /** The server never admits an order that the loader refuses. */
  lemma ServerOrderIsLoadable(receipts: seq<Receipt>)
    requires ServerOrdered(receipts)
    ensures exists forward: nat, restore: nat :: Loadable(receipts, forward, restore)
    ensures |receipts| <= MAX_SERVER_RECEIPTS
  {
    var f: nat, r: nat :| IsSplit(receipts, f, r) && (r > 0 ==> 3 <= f <= 9);
    assert Loadable(receipts, f, r);
  }

  /**
   The two checks disagree exactly on journals that begin a restoration right after
   `verify/intent`: the loader's bound is ten forward receipts, the server's is nine.
   */
  lemma OrderChecksDisagree(receipts: seq<Receipt>, forward: nat, restore: nat)
    requires Loadable(receipts, forward, restore)
    ensures !ServerOrdered(receipts) <==> forward == 10 && restore > 0
  {
    if ServerOrdered(receipts) {
      var f: nat, r: nat :| IsSplit(receipts, f, r) && (r > 0 ==> 3 <= f <= 9);
      SplitIsUnique(receipts, forward, restore, f, r);
    }
  }

  /** One such journal: verify/intent followed by restore/intent. */
  lemma OrderChecksDisagreeWitness()
    ensures Loadable(Word(10, 1), 10, 1) && !ServerOrdered(Word(10, 1))
  {
    OrderChecksDisagree(Word(10, 1), 10, 1);
  }

  // ---------------------------------------------------------------- the anchor

  ghost predicate Injective(hash: Entry -> int) {
    forall a, b {:trigger hash(a), hash(b)} :: hash(a) == hash(b) ==> a == b
  }

  /**
   With a collision-free digest, a loaded journal extends, entry by entry, the journal
   the recovery request was anchored to.
   */
  lemma AnchorFixesPrefix(known: seq<File>, loaded: seq<File>, hash: Entry -> int, anchor: Anchor,
                          forward: nat, restore: nat)
    requires Injective(hash)
    requires Authentic(known, hash) && anchor.sequence == |known| && Anchored(known, hash, anchor)
    requires Loads(loaded, hash, anchor, forward, restore)
    ensures known <= loaded
  {
    if |known| > 0 {
      PrefixByDigest(known, loaded, hash, |known| - 1);
      assert known[..|known|] == known == loaded[..|known|];
    }
  }

  lemma {:induction false} PrefixByDigest(a: seq<File>, b: seq<File>, hash: Entry -> int, i: nat)
    requires Injective(hash)
    requires Authentic(a, hash) && Authentic(b, hash)
    requires i < |a| && i < |b|
    requires a[i].Sealed? && b[i].Sealed? && hash(a[i].entry) == hash(b[i].entry)
    ensures a[..i + 1] == b[..i + 1]
  {
    assert Chained(a, hash, i) && Chained(b, hash, i);
    assert a[i] == b[i];
    if i > 0 { PrefixByDigest(a, b, hash, i - 1); }
    assert a[..i + 1] == a[..i] + [a[i]];
    assert b[..i + 1] == b[..i] + [b[i]];
  }
}
