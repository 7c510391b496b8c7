/**
 Canonical absolute POSIX paths, containment between them, and the topology of one update.

 A path is a C string: a sequence of bytes other than NUL.
 */
module Paths {
  import opened Bytes

  type Path = seq<Byte>

  const SLASH: Byte := 47
  const BACKSLASH: Byte := 92
  const DOT: Byte := 46
  const MAX_PATH_BYTES: nat := 32 * 1024

  // ------------------------------------------------------------------- components

  /** The pieces after one more byte: a slash begins a new piece. */
  function Extend(pieces: seq<seq<Byte>>, byte: Byte): (r: seq<seq<Byte>>)
    requires |pieces| > 0
    ensures |r| > 0
  {
    if byte == SLASH then pieces + [[]]
    else pieces[..|pieces| - 1] + [pieces[|pieces| - 1] + [byte]]
  }

  /** The pieces between slashes; there is always one more piece than there are slashes. */
  function Split(s: seq<Byte>): (pieces: seq<seq<Byte>>)
    ensures |pieces| > 0
  {
    if s == [] then [[]] else Extend(Split(s[..|s| - 1]), s[|s| - 1])
  }

  function Joined(pieces: seq<seq<Byte>>): seq<Byte>
    requires |pieces| > 0
  {
    if |pieces| == 1 then pieces[0]
    else Joined(pieces[..|pieces| - 1]) + [SLASH] + pieces[|pieces| - 1]
  }

  lemma ExtendLast(done: seq<seq<Byte>>, piece: seq<Byte>, byte: Byte)
    ensures Extend(done + [piece], byte) ==
              if byte == SLASH then done + [piece] + [[]] else done + [piece + [byte]]
  {
    var pieces := done + [piece];
    assert pieces[..|pieces| - 1] == done && pieces[|pieces| - 1] == piece;
  }

  lemma SplitSnoc(s: seq<Byte>, byte: Byte)
    ensures Split(s + [byte]) == Extend(Split(s), byte)
  {
    assert (s + [byte])[..|s|] == s;
  }

  lemma Regroup(a: seq<Byte>, b: seq<Byte>, c: seq<Byte>, d: seq<Byte>)
    ensures a + b + (c + d) == a + b + c + d
  {
  }

  lemma JoinedLonger(front: seq<seq<Byte>>, last: seq<Byte>, byte: Byte)
    ensures Joined(front + [last + [byte]]) == Joined(front + [last]) + [byte]
  {
    hide Joined;
    if front == [] {
      assert front + [last] == [last] && front + [last + [byte]] == [last + [byte]];
      JoinedOne(last);
      JoinedOne(last + [byte]);
    } else {
      JoinedSnoc(front, last);
      JoinedSnoc(front, last + [byte]);
      Regroup(Joined(front), [SLASH], last, [byte]);
    }
  }

  lemma JoinedExtend(pieces: seq<seq<Byte>>, byte: Byte)
    requires |pieces| > 0
    ensures Joined(Extend(pieces, byte)) == Joined(pieces) + [byte]
  {
    hide Joined, Extend;
    var front, last := pieces[..|pieces| - 1], pieces[|pieces| - 1];
    assert pieces == front + [last];
    ExtendLast(front, last, byte);
    if byte == SLASH {
      JoinedSnoc(pieces, []);
      assert Joined(pieces) + [SLASH] + [] == Joined(pieces) + [SLASH];
    } else {
      JoinedLonger(front, last, byte);
    }
  }

  lemma JoinedOne(piece: seq<Byte>)
    ensures Joined([piece]) == piece
  {
  }

  lemma JoinedSnoc(pieces: seq<seq<Byte>>, piece: seq<Byte>)
    requires |pieces| > 0
    ensures Joined(pieces + [piece]) == Joined(pieces) + [SLASH] + piece
  {
    assert (pieces + [piece])[..|pieces|] == pieces;
  }

  lemma {:induction false} SplitThenJoin(s: seq<Byte>)
    ensures Joined(Split(s)) == s
  {
    hide Split, Extend, Joined;
    if s == [] {
      SplitOfNothing();
      JoinedOne([]);
    } else {
      var front, last := s[..|s| - 1], s[|s| - 1];
      assert s == front + [last];
      SplitSnoc(front, last);
      SplitThenJoin(front);
      JoinedExtend(Split(front), last);
    }
  }

  lemma ExtendConcat(a: seq<seq<Byte>>, pieces: seq<seq<Byte>>, byte: Byte)
    requires |pieces| > 0
    ensures Extend(a + pieces, byte) == a + Extend(pieces, byte)
  {
    assert (a + pieces)[..|a + pieces| - 1] == a + pieces[..|pieces| - 1];
  }

  lemma {:induction false} SplitAtSlash(a: seq<Byte>, b: seq<Byte>)
    ensures Split(a + [SLASH] + b) == Split(a) + Split(b)
  {
    hide Extend;
    if b == [] {
      assert a + [SLASH] + b == a + [SLASH];
      SplitSnoc(a, SLASH);
      SlashBegins(a);
    } else {
      var shorter, last := b[..|b| - 1], b[|b| - 1];
      SplitAtSlash(a, shorter);
      assert b == shorter + [last];
      assert a + [SLASH] + b == (a + [SLASH] + shorter) + [last];
      SplitSnoc(a + [SLASH] + shorter, last);
      ExtendConcat(Split(a), Split(shorter), last);
    }
  }

  lemma SlashBegins(a: seq<Byte>)
    ensures Extend(Split(a), SLASH) == Split(a) + Split([])
  {
  }

  lemma {:induction false} SlashFreeIsOnePiece(s: seq<Byte>)
    requires SLASH !in s
    ensures Split(s) == [s]
  {
    if s != [] {
      SlashFreeIsOnePiece(s[..|s| - 1]);
      assert s == s[..|s| - 1] + [s[|s| - 1]];
    }
  }

  /** The component list of a canonical path; the root directory has none. */
  function Components(p: Path): seq<seq<Byte>> {
    if |p| <= 1 then [] else Split(p[1..])
  }

  predicate ValidSegment(segment: seq<Byte>) {
    segment != [] && segment != [DOT] && segment != [DOT, DOT]
  }

  predicate AllValid(segments: seq<seq<Byte>>) {
    forall i | 0 <= i < |segments| :: ValidSegment(segments[i])
  }

  predicate Canonical(p: Path) {
    && 1 <= |p| <= MAX_PATH_BYTES
    && p[0] == SLASH && BACKSLASH !in p
    && AllValid(Components(p))
  }

  function CharAt(p: Path, i: nat): Byte
    requires i <= |p|
  {
    if i < |p| then p[i] else 0
  }

  predicate NulFree(p: Path) {
    0 !in p
  }

  /** The scan accepts exactly the canonical paths. */
  method IsAbsoluteCanonicalPath(value: Path) returns (ok: bool)
    requires NulFree(value)
    ensures ok <==> Canonical(value)
  {
    hide Split, AllValid, ValidSegment;
    SplitOfNothing();
    NoneInvalid();
    if |value| < 1 || |value| > MAX_PATH_BYTES || value[0] != SLASH { return false; }
    var index, start := 1, 1;
    ghost var done: seq<seq<Byte>> := [];
    assert value[1..1] == [] && [[]] == done + [value[1..1]];
    while index < |value|
      invariant 1 <= start <= index <= |value|
      invariant Split(value[1..index]) == done + [value[start..index]]
      invariant AllValid(done) && BACKSLASH !in value[..index]
      invariant value[start - 1] == SLASH && SLASH !in value[start..index]
    {
      var byte := value[index];
      SplitStep(value, start, index, done);
      if byte == BACKSLASH { return false; }
      if byte == SLASH {
        if !ValidSegment(value[start..index]) {
          InvalidSegmentStays(value, index, done, value[start..index]);
          return false;
        }
        OneMoreValid(done, value[start..index]);
        done := done + [value[start..index]];
        start := index + 1;
      }
      index := index + 1;
    }
    assert value[1..index] == value[1..] && value[..index] == value;
    LastSegment(value, done, value[start..]);
    LastIsValid(value, start);
    if index - start == 1 && value[start] == DOT { return false; }
    if index - start == 2 && value[start] == DOT && value[start + 1] == DOT { return false; }
    ok := |value| == 1 || value[|value| - 1] != SLASH;
  }

  lemma SplitOfNothing()
    ensures Split([]) == [[]]
  {
  }

  /** One more byte completes the current piece or makes it longer. */
  lemma SplitStep(value: Path, start: nat, index: nat, done: seq<seq<Byte>>)
    requires 1 <= start <= index < |value|
    requires Split(value[1..index]) == done + [value[start..index]]
    ensures Split(value[1..index + 1]) ==
              if value[index] == SLASH then done + [value[start..index]] + [value[index + 1..index + 1]]
              else done + [value[start..index + 1]]
  {
    hide Split, Extend;
    assert value[1..index + 1] == value[1..index] + [value[index]];
    SplitSnoc(value[1..index], value[index]);
    ExtendLast(done, value[start..index], value[index]);
    assert value[start..index + 1] == value[start..index] + [value[index]];
    assert value[index + 1..index + 1] == [];
  }

  lemma NoneInvalid()
    ensures AllValid([])
  {
  }

  lemma OneMoreValid(done: seq<seq<Byte>>, piece: seq<Byte>)
    ensures AllValid(done) && ValidSegment(piece) ==> AllValid(done + [piece])
  {
  }

  /** How the scan tells whether the piece after the last slash is valid. */
  lemma LastIsValid(value: Path, start: nat)
    requires 1 <= start <= |value| && value[start - 1] == SLASH && SLASH !in value[start..]
    ensures ValidSegment(value[start..]) <==>
              && value[|value| - 1] != SLASH
              && !(|value| - start == 1 && value[start] == DOT)
              && !(|value| - start == 2 && value[start] == DOT && value[start + 1] == DOT)
  {
    if start < |value| { assert value[|value| - 1] in value[start..]; }
  }

  lemma LastSegment(value: Path, done: seq<seq<Byte>>, last: seq<Byte>)
    requires |value| >= 1 && Split(value[1..]) == done + [last] && AllValid(done)
    ensures |value| > 1 ==> (AllValid(Components(value)) <==> ValidSegment(last))
    ensures |value| == 1 ==> last == []
  {
    if |value| > 1 {
      assert Components(value)[|done|] == last;
    } else {
      assert (done + [last])[|done|] == last;
    }
  }

  /** A piece that ends before a slash is a piece of the whole. */
  lemma InvalidSegmentStays(value: Path, index: nat, done: seq<seq<Byte>>, piece: seq<Byte>)
    requires 1 <= index < |value| && value[index] == SLASH
    requires Split(value[1..index]) == done + [piece] && !ValidSegment(piece)
    ensures !AllValid(Components(value))
  {
    assert value[1..] == value[1..index] + [SLASH] + value[index + 1..];
    SplitAtSlash(value[1..index], value[index + 1..]);
    assert Components(value)[|done|] == piece;
  }

  // ------------------------------------------------------------------ containment

  method PathIsContained(root: Path, path: Path) returns (ok: bool)
    requires NulFree(root) && NulFree(path)
    ensures ok <==> Contained(root, path)
  {
    var i := 0;
    while i < |root|
      invariant 0 <= i <= |root| && i <= |path| && root[..i] == path[..i]
    {
      if CharAt(path, i) != root[i] { return false; }
      assert root[..i + 1] == root[..i] + [root[i]] && path[..i + 1] == path[..i] + [path[i]];
      i := i + 1;
    }
    assert root[..i] == root;
    ok := CharAt(path, i) == 0 || CharAt(path, i) == SLASH;
  }

  /** The string comparison that the code makes. */
  predicate Contained(root: Path, path: Path) {
    && |root| <= |path| && path[..|root|] == root
    && (|path| == |root| || path[|root|] == SLASH)
  }

  /**
   On canonical paths the string comparison decides containment of directories, except that the
   root directory counts as containing only itself.
   */
  lemma ContainmentIsPrefix(root: Path, path: Path)
    requires Canonical(root) && Canonical(path)
    ensures Contained(root, path) <==> Components(root) <= Components(path) && (root == [SLASH] ==> path == [SLASH])
  {
    if root == [SLASH] {
      if |path| > 1 && path[1] == SLASH { DoubleSlashIsEmptySegment(path); }
    } else if Contained(root, path) {
      ContainedHasPrefix(root, path);
    } else if Components(root) <= Components(path) {
      PrefixIsContained(root, path);
    }
  }

  lemma DoubleSlashIsEmptySegment(path: Path)
    requires |path| > 1 && path[1] == SLASH
    ensures Components(path)[0] == []
  {
    assert path[1..] == [] + [SLASH] + path[2..];
    SplitAtSlash([], path[2..]);
    assert Split([]) == [[]];
  }

  lemma ContainedHasPrefix(root: Path, path: Path)
    requires |root| > 1 && Contained(root, path)
    ensures Components(root) <= Components(path)
  {
    if |path| == |root| {
      assert path == root;
    } else {
      var tail := path[|root| + 1..];
      assert path[1..] == root[1..] + [SLASH] + tail;
      SplitAtSlash(root[1..], tail);
    }
  }

  lemma PrefixIsContained(root: Path, path: Path)
    requires Canonical(root) && Canonical(path) && |root| > 1
    requires Components(root) <= Components(path)
    ensures Contained(root, path)
  {
    hide Joined, Split;
    var r, p := Components(root), Components(path);
    SplitThenJoin(root[1..]);
    SplitThenJoin(path[1..]);
    if |r| == |p| {
      assert r == p;
    } else {
      JoinedConcat(r, p[|r|..]);
      assert r + p[|r|..] == p;
      assert path[1..] == root[1..] + [SLASH] + Joined(p[|r|..]);
    }
    assert root == [SLASH] + root[1..] && path == [SLASH] + path[1..];
  }

  lemma {:induction false} JoinedConcat(a: seq<seq<Byte>>, b: seq<seq<Byte>>)
    requires |a| > 0 && |b| > 0
    ensures Joined(a + b) == Joined(a) + [SLASH] + Joined(b)
  {
    var whole := a + b;
    if |b| == 1 {
      assert whole[..|whole| - 1] == a;
    } else {
      JoinedConcat(a, b[..|b| - 1]);
      assert whole[..|whole| - 1] == a + b[..|b| - 1];
    }
  }

  /** Equal component lists mean equal paths. */
  lemma ComponentsDetermine(a: Path, b: Path)
    requires Canonical(a) && Canonical(b) && Components(a) == Components(b)
    ensures a == b
  {
    if |a| > 1 && |b| > 1 {
      SplitThenJoin(a[1..]);
      SplitThenJoin(b[1..]);
      assert a == [SLASH] + a[1..] && b == [SLASH] + b[1..];
    }
  }

  // ---------------------------------------------------------------------- parents

  /** The string before the last slash; before the first byte there is still the root directory. */
  function ParentOf(p: Path): Path
    requires SLASH in p
  {
    var last := |p| - 1;
    if p[last] == SLASH then (if last == 0 then [SLASH] else p[..last])
    else
      assert p == p[..last] + [p[last]];
      ParentOf(p[..last])
  }

  method ParentPath(path: Path, capacity: nat) returns (ok: bool, output: Path)
    ensures ok <==> SLASH in path && |ParentOf(path)| + 1 <= capacity
    ensures ok ==> output == ParentOf(path)
  {
    var last := |path|;
    assert path[..last] == path;
    while last > 0 && path[last - 1] != SLASH
      invariant 0 <= last <= |path|
      invariant SLASH in path <==> SLASH in path[..last]
      invariant SLASH in path ==> ParentOf(path) == ParentOf(path[..last])
    {
      assert path[..last] == path[..last - 1] + [path[last - 1]];
      assert path[..last][..last - 1] == path[..last - 1];
      last := last - 1;
    }
    if last == 0 { return false, []; }
    assert path[..last][last - 1] == SLASH && path[..last][..last - 1] == path[..last - 1];
    output := if last == 1 then [SLASH] else path[..last - 1];
    ok := |output| + 1 <= capacity;
  }

  lemma {:induction false} ParentOfJoin(a: Path, leaf: seq<Byte>)
    requires |a| > 0 && SLASH !in leaf
    ensures ParentOf(a + [SLASH] + leaf) == a
  {
    var whole := a + [SLASH] + leaf;
    if leaf == [] {
      assert whole[..|whole| - 1] == a;
    } else {
      ParentOfJoin(a, leaf[..|leaf| - 1]);
      assert whole[..|whole| - 1] == a + [SLASH] + leaf[..|leaf| - 1];
    }
  }

  lemma {:induction false} PiecesAreSlashFree(s: seq<Byte>)
    ensures forall i | 0 <= i < |Split(s)| :: SLASH !in Split(s)[i]
  {
    if s != [] { PiecesAreSlashFree(s[..|s| - 1]); }
  }

  function Leaf(p: Path): seq<Byte>
    requires |Components(p)| > 0
  {
    Components(p)[|Components(p)| - 1]
  }

  /** Below the top level, the parent has the same components without the last. */
  lemma ParentDropsLeaf(p: Path)
    requires Canonical(p) && |Components(p)| >= 2
    ensures SLASH in p && |ParentOf(p)| > 1 && SLASH !in Leaf(p)
    ensures p == ParentOf(p) + [SLASH] + Leaf(p)
    ensures Components(ParentOf(p)) == Components(p)[..|Components(p)| - 1]
  {
    hide Split, Joined;
    var c := Components(p);
    var front, leaf := c[..|c| - 1], c[|c| - 1];
    SplitThenJoin(p[1..]);
    PiecesAreSlashFree(p[1..]);
    assert c == front + [leaf];
    JoinedSnoc(front, leaf);
    var parent := [SLASH] + Joined(front);
    assert p == parent + [SLASH] + leaf;
    ParentOfJoin(parent, leaf);
    JoinedOfValid(front);
    assert p[1..] == Joined(front) + [SLASH] + leaf;
    SplitAtSlash(Joined(front), leaf);
    SlashFreeIsOnePiece(leaf);
    assert parent[1..] == Joined(front);
    assert (Split(Joined(front)) + [leaf])[..|Split(Joined(front))|] == Split(Joined(front));
    assert (front + [leaf])[..|front|] == front;
  }

  lemma JoinedOfValid(pieces: seq<seq<Byte>>)
    requires |pieces| > 0 && AllValid(pieces)
    ensures Joined(pieces) != []
  {
    if |pieces| == 1 { assert ValidSegment(pieces[0]); }
  }

  /** Directly below the root directory, and for the root directory itself, the parent is the root. */
  lemma TopLevelParent(p: Path)
    requires Canonical(p) && |Components(p)| <= 1
    ensures SLASH in p && ParentOf(p) == [SLASH]
  {
    if |p| > 1 { OnePieceParent(p); }
  }

  lemma OnePieceParent(p: Path)
    requires Canonical(p) && |p| > 1 && |Split(p[1..])| == 1
    ensures SLASH in p && ParentOf(p) == [SLASH]
  {
    hide Split, Joined, ParentOf;
    SplitThenJoin(p[1..]);
    PiecesAreSlashFree(p[1..]);
    var pieces := Split(p[1..]);
    assert pieces == [pieces[0]];
    JoinedOne(pieces[0]);
    assert p == [] + [SLASH] + p[1..];
    TopLevelParentByString(p[1..]);
  }

  lemma {:induction false} TopLevelParentByString(leaf: seq<Byte>)
    requires SLASH !in leaf
    ensures ParentOf([] + [SLASH] + leaf) == [SLASH]
  {
    var whole := [] + [SLASH] + leaf;
    if leaf != [] {
      TopLevelParentByString(leaf[..|leaf| - 1]);
      assert whole[..|whole| - 1] == [] + [SLASH] + leaf[..|leaf| - 1];
    }
  }

  // --------------------------------------------------------------------- topology

  datatype Topology = Topology(
    managed: Path, stage: Path, candidate: Path, backup: Path, launcher: Path, supervisor: Path,
    stageId: seq<Byte>, activationId: seq<Byte>)

  /** The directory ".keiko-portable-updates" and the prefix ".keiko-previous-". */
  const UPDATES: seq<Byte> :=
    [46, 107, 101, 105, 107, 111, 45, 112, 111, 114, 116, 97, 98, 108, 101, 45, 117, 112, 100, 97, 116, 101, 115]
  const PREVIOUS: seq<Byte> :=
    [46, 107, 101, 105, 107, 111, 45, 112, 114, 101, 118, 105, 111, 117, 115, 45]

  predicate TopologyHolds(t: Topology) {
    && SLASH in t.managed && |ParentOf(t.managed)| <= MAX_PATH_BYTES
    && t.stage == ParentOf(t.managed) + [SLASH] + (UPDATES + [SLASH] + t.stageId) && |t.stage| <= MAX_PATH_BYTES
    && t.backup == ParentOf(t.managed) + [SLASH] + (PREVIOUS + t.activationId) && |t.backup| <= MAX_PATH_BYTES
    && t.candidate != t.stage && Contained(t.stage, t.candidate)
    && Contained(t.candidate, t.launcher) && Contained(t.candidate, t.supervisor)
  }

  method TopologyValid(t: Topology) returns (ok: bool)
    requires NulFree(t.stage) && NulFree(t.candidate) && NulFree(t.launcher) && NulFree(t.supervisor)
    ensures ok <==> TopologyHolds(t)
  {
    var parent;
    ok, parent := ParentPath(t.managed, MAX_PATH_BYTES + 1);
    if !ok { return; }
    var expectedStage := parent + [SLASH] + (UPDATES + [SLASH] + t.stageId);
    var expectedBackup := parent + [SLASH] + (PREVIOUS + t.activationId);
    if |expectedStage| >= MAX_PATH_BYTES + 1 || |expectedBackup| >= MAX_PATH_BYTES + 1 { return false; }
    if t.stage != expectedStage || t.backup != expectedBackup || t.candidate == t.stage { return false; }
    ok := PathIsContained(t.stage, t.candidate);
    if !ok { return; }
    ok := PathIsContained(t.candidate, t.launcher);
    if !ok { return; }
    ok := PathIsContained(t.candidate, t.supervisor);
  }

  predicate Separate(a: Path, b: Path) {
    !(Components(a) <= Components(b)) && !(Components(b) <= Components(a))
  }

  predicate StrictlyInside(inner: Path, outer: Path) {
    Components(outer) < Components(inner)
  }

  predicate AllCanonical(t: Topology) {
    && Canonical(t.managed) && Canonical(t.stage) && Canonical(t.candidate) && Canonical(t.backup)
    && Canonical(t.launcher) && Canonical(t.supervisor)
    && SLASH !in t.stageId && SLASH !in t.activationId
  }

  lemma ReservedNames(activationId: seq<Byte>)
    ensures SLASH !in UPDATES && SLASH !in PREVIOUS && UPDATES != PREVIOUS + activationId
  {
    assert (PREVIOUS + activationId)[8] == PREVIOUS[8];
  }

  /** The managed root of an accepted plan lies at least two levels deep: a shallower stage is not canonical. */
  lemma ManagedIsDeep(t: Topology)
    requires AllCanonical(t) && TopologyHolds(t)
    ensures |Components(t.managed)| >= 2
  {
    if |Components(t.managed)| <= 1 {
      TopLevelParent(t.managed);
      DoubleSlashIsEmptySegment(t.stage);
    }
  }

  lemma Placed(t: Topology)
    requires AllCanonical(t) && TopologyHolds(t)
    ensures |Components(t.managed)| >= 2
    ensures var parent := Components(t.managed)[..|Components(t.managed)| - 1];
            && Components(t.stage) == parent + [UPDATES, t.stageId]
            && Components(t.backup) == parent + [PREVIOUS + t.activationId]
            && UPDATES != PREVIOUS + t.activationId
  {
    hide Split, Contained;
    ManagedIsDeep(t);
    ParentDropsLeaf(t.managed);
    ReservedNames(t.activationId);
    var p := ParentOf(t.managed);
    assert t.stage[1..] == p[1..] + [SLASH] + (UPDATES + [SLASH] + t.stageId);
    SplitAtSlash(p[1..], UPDATES + [SLASH] + t.stageId);
    SplitAtSlash(UPDATES, t.stageId);
    SlashFreeIsOnePiece(UPDATES);
    SlashFreeIsOnePiece(t.stageId);
    assert t.backup[1..] == p[1..] + [SLASH] + (PREVIOUS + t.activationId);
    SplitAtSlash(p[1..], PREVIOUS + t.activationId);
    SlashFreeIsOnePiece(PREVIOUS + t.activationId);
  }

  /**
   In every accepted plan the stage and the backup are separate trees and the candidate lies
   strictly inside the stage.  What cleanup removes is separate from the managed root exactly
   when the managed root's own name is neither of the two reserved names.
   */
  lemma TopologyIsSeparated(t: Topology)
    requires AllCanonical(t) && TopologyHolds(t)
    ensures Separate(t.stage, t.backup) && Separate(t.candidate, t.backup)
    ensures StrictlyInside(t.candidate, t.stage)
    ensures |Components(t.managed)| >= 2
    ensures Separate(t.managed, t.stage) && Separate(t.managed, t.backup) <==>
              Leaf(t.managed) != UPDATES && Leaf(t.managed) != PREVIOUS + t.activationId
  {
    hide Split, ValidSegment;
    Placed(t);
    ContainmentIsPrefix(t.stage, t.candidate);
    var m := Components(t.managed);
    var n := |m| - 1;
    assert m == m[..n] + [m[n]];
    if Components(t.candidate) == Components(t.stage) { ComponentsDetermine(t.candidate, t.stage); }
    assert Components(t.stage)[n] == UPDATES && Components(t.candidate)[n] == UPDATES;
    assert Components(t.backup)[n] == PREVIOUS + t.activationId;
  }

  /** Whether the slots of an update are three separate trees is a matter of the managed root's name alone. */
  lemma SlotsAreSeparate(t: Topology)
    requires AllCanonical(t) && TopologyHolds(t)
    ensures |Components(t.managed)| >= 2
    ensures Separate(t.managed, t.candidate) && Separate(t.managed, t.backup) && Separate(t.candidate, t.backup)
            <==> Leaf(t.managed) != UPDATES && Leaf(t.managed) != PREVIOUS + t.activationId
  {
    hide Split, ValidSegment;
    TopologyIsSeparated(t);
    Placed(t);
    var m, stage, candidate := Components(t.managed), Components(t.stage), Components(t.candidate);
    var n := |m| - 1;
    assert m == m[..n] + [m[n]];
    assert stage < candidate && stage[n] == UPDATES && candidate[n] == UPDATES;
    if m[n] == UPDATES { assert m <= stage; }
  }

  /** Every accepted topology has an accepted variant whose managed root is its own backup. */
  lemma MisnamedRootIsAccepted(t: Topology)
    requires AllCanonical(t) && TopologyHolds(t)
    ensures var misnamed := t.(managed := t.backup);
            && AllCanonical(misnamed) && TopologyHolds(misnamed)
            && !Separate(misnamed.managed, misnamed.backup)
  {
    hide Split, ParentOf, Canonical, Contained;
    assert |ParentOf(t.managed)| > 0 by {
      ManagedIsDeep(t);
      ParentDropsLeaf(t.managed);
    }
    ReservedNames(t.activationId);
    ParentOfJoin(ParentOf(t.managed), PREVIOUS + t.activationId);
  }

  lemma JoinIsCanonical(p: Path, leaf: seq<Byte>)
    requires Canonical(p) && |p| > 1 && |p| + 1 + |leaf| <= MAX_PATH_BYTES
    requires SLASH !in leaf && BACKSLASH !in leaf && ValidSegment(leaf)
    ensures Canonical(p + [SLASH] + leaf) && |p + [SLASH] + leaf| > 1
  {
    hide Split, ValidSegment;
    var joined := p + [SLASH] + leaf;
    assert joined[1..] == p[1..] + [SLASH] + leaf;
    SplitAtSlash(p[1..], leaf);
    SlashFreeIsOnePiece(leaf);
  }

  /** One topology for each activation: the managed root "/a/b", with stage "s" and the candidate "c". */
  const PARENT: Path := [47, 97]
  const STAGE: Path := PARENT + [SLASH] + UPDATES + [SLASH] + [115]

  function Example(activationId: seq<Byte>): Topology {
    Topology(
      PARENT + [SLASH] + [98], STAGE, STAGE + [SLASH] + [99], PARENT + [SLASH] + (PREVIOUS + activationId),
      STAGE + [SLASH] + [99], STAGE + [SLASH] + [99], [115], activationId)
  }

  lemma TopLevelIsCanonical()
    ensures Canonical(PARENT)
  {
    SlashFreeIsOnePiece([97]);
    assert PARENT[1..] == [97];
  }

  lemma ExampleIsAccepted(activationId: seq<Byte>)
    requires |activationId| <= 32 && SLASH !in activationId && BACKSLASH !in activationId
    ensures AllCanonical(Example(activationId)) && TopologyHolds(Example(activationId))
  {
    hide Split, ParentOf, Canonical;
    TopLevelIsCanonical();
    JoinIsCanonical(PARENT, [98]);
    JoinIsCanonical(PARENT, PREVIOUS + activationId);
    JoinIsCanonical(PARENT, UPDATES);
    JoinIsCanonical(PARENT + [SLASH] + UPDATES, [115]);
    JoinIsCanonical(STAGE, [99]);
    ParentOfJoin(PARENT, [98]);
    assert STAGE == PARENT + [SLASH] + (UPDATES + [SLASH] + [115]);
  }

  /** So an update whose managed root, stage and backup are not three trees does get accepted. */
  lemma ReservedNameIsAccepted()
    ensures exists t :: AllCanonical(t) && TopologyHolds(t) && t.managed == t.backup
  {
    var example := Example([48]);
    ExampleIsAccepted([48]);
    MisnamedRootIsAccepted(example);
    assert example.(managed := example.backup).managed == example.backup;
  }

  // ---------------------------------------------------------------- names as text

  /** Text in the portable character set, as bytes. */
  function Ascii(text: string): (bytes: seq<Byte>)
    requires forall i | 0 <= i < |text| :: text[i] as int < 0x80
    ensures |bytes| == |text|
  {
    seq(|text|, i requires 0 <= i < |text| => text[i] as int)
  }

  lemma NamesAsText()
    ensures UPDATES == Ascii(".keiko-portable-updates") && PREVIOUS == Ascii(".keiko-previous-")
    ensures [SLASH] == Ascii("/") && [BACKSLASH] == Ascii("\\") && [DOT] == Ascii(".")
  {
  }

  /** Directly below the root directory every name is canonical but ".", ".." and those with a backslash. */
  lemma CanonicalNames(name: seq<Byte>)
    requires name != [] && SLASH !in name && |name| < 32768
    ensures Canonical(Ascii("/") + name) <==>
              name != Ascii(".") && name != Ascii("..") && BACKSLASH !in name
  {
    hide Split;
    var path := Ascii("/") + name;
    SlashFreeIsOnePiece(name);
    assert path[1..] == name && Components(path) == [name];
    OneIsValid(name);
    assert Ascii(".") == [DOT] && Ascii("..") == [DOT, DOT];
  }

  lemma OneIsValid(segment: seq<Byte>)
    ensures AllValid([segment]) <==> ValidSegment(segment)
  {
    assert [segment][0] == segment;
  }

  /** A path that does not begin with a slash, ends with one, or has two in a row at its head is not canonical. */
  lemma NotCanonical(path: Path)
    requires path != []
    ensures path[0] != SLASH ==> !Canonical(path)
    ensures |path| > 1 && path[|path| - 1] == SLASH ==> !Canonical(path)
    ensures |path| > 1 && path[1] == SLASH ==> !Canonical(path)
  {
    hide Split;
    if |path| > 1 && path[1] == SLASH { DoubleSlashIsEmptySegment(path); }
    if |path| > 1 && path[|path| - 1] == SLASH {
      assert path[1..] == path[1..|path| - 1] + [SLASH] + [];
      SplitAtSlash(path[1..|path| - 1], []);
      SplitOfNothing();
      var pieces := Components(path);
      assert pieces[|pieces| - 1] == [];
    }
  }
}
