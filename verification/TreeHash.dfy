/**
 KHT1: the digest of a directory tree.

 A directory is the stream of entries that `readdir` returns for it, in whatever order.  The
 walk collects relative names under a budget, sorts them, and hashes each name with the digest
 of its file.  Names are C strings: sequences of bytes other than NUL.
 */
module TreeHash {
  import opened Bytes
  import opened Receipts
  import opened Sha256

  type Name = seq<Byte>

  const SLASH: Byte := 47
  const BACKSLASH: Byte := 92
  const DOT: Byte := 46

  const MAX_ENTRIES: nat := 60000
  const MAX_PATH_BYTES: nat := 16 * 1024 * 1024
  const MAX_FILE_BYTES: nat := 256 * 1024 * 1024
  const MAX_BYTES: nat := 2 * 1024 * 1024 * 1024
  const MAX_DEPTH: nat := 128

  // ------------------------------------------------------------- order of names

  predicate NulFree(n: Name) {
    0 !in n
  }

  /** Lexicographic order on unsigned bytes. */
  predicate Before(a: Name, b: Name) {
    b != [] && (a == [] || a[0] < b[0] || (a[0] == b[0] && Before(a[1..], b[1..])))
  }

  function CharAt(n: Name, i: nat): Byte
    requires i <= |n|
  {
    if i < |n| then n[i] else 0
  }

  lemma {:induction false} BeforeFromSplit(a: Name, b: Name, i: nat)
    requires i <= |a| && i <= |b| && a[..i] == b[..i]
    requires NulFree(a) && NulFree(b)
    requires CharAt(a, i) != CharAt(b, i)
    ensures Before(a, b) <==> CharAt(a, i) < CharAt(b, i)
  {
    if i > 0 {
      assert a[0] == a[..i][0] == b[..i][0] == b[0];
      assert a[1..][..i - 1] == a[..i][1..] == b[..i][1..] == b[1..][..i - 1];
      BeforeFromSplit(a[1..], b[1..], i - 1);
    } else {
      assert a != [] ==> CharAt(a, 0) == a[0];
      assert b != [] ==> CharAt(b, 0) == b[0];
    }
  }

  /** The byte loop of the name comparison decides the lexicographic order. */
  method CompareNames(a: Name, b: Name) returns (r: int)
    requires NulFree(a) && NulFree(b)
    ensures r < 0 <==> Before(a, b)
    ensures r > 0 <==> Before(b, a)
    ensures r == 0 <==> a == b
  {
    var i := 0;
    while CharAt(a, i) != 0 && CharAt(a, i) == CharAt(b, i)
      invariant i <= |a| && i <= |b| && a[..i] == b[..i]
      decreases |a| - i
    {
      assert i < |a| && i < |b|;
      assert a[..i + 1] == a[..i] + [a[i]] && b[..i + 1] == b[..i] + [b[i]];
      i := i + 1;
    }
    r := CharAt(a, i) - CharAt(b, i);
    BeforeIsOrder(a, b);
    if r != 0 {
      BeforeFromSplit(a, b, i);
      BeforeFromSplit(b, a, i);
    } else {
      assert a[..i] == a && b[..i] == b;
    }
  }

  lemma {:induction false} BeforeIsOrder(a: Name, b: Name)
    ensures !(Before(a, b) && Before(b, a))
    ensures a == b ==> !Before(a, b)
    ensures a != b ==> Before(a, b) || Before(b, a)
  {
    if a != [] && b != [] && a[0] == b[0] {
      BeforeIsOrder(a[1..], b[1..]);
      assert a == [a[0]] + a[1..] && b == [b[0]] + b[1..];
    }
  }

  lemma {:induction false} BeforeIsTransitive(a: Name, b: Name, c: Name)
    requires Before(a, b) && Before(b, c)
    ensures Before(a, c)
  {
    if a != [] && a[0] == b[0] == c[0] {
      BeforeIsTransitive(a[1..], b[1..], c[1..]);
    }
  }

  // ------------------------------------------------------------------ directories

  /** What `readdir` returns, entry by entry; `Other` is a special or multiply linked file. */
  datatype Listing =
    | End
    | File(name: Name, content: seq<Byte>, rest: Listing)
    | Directory(name: Name, inside: Listing, rest: Listing)
    | Other(name: Name, rest: Listing)

  /** One collected entry; directories have no content. */
  datatype Item = Item(name: Name, content: Option<seq<Byte>>)

  function Join(parent: Name, name: Name): Name {
    if parent == [] then name else parent + [SLASH] + name
  }

  predicate ValidComponent(name: Name) {
    name != [] && name != [DOT] && name != [DOT, DOT] && SLASH !in name && BACKSLASH !in name
  }

  /** Every entry below `parent`, in the order in which the walk meets it. */
  function Items(parent: Name, l: Listing): seq<Item>
    decreases l
  {
    match l
    case End => []
    case File(name, content, rest) => [Item(Join(parent, name), Some(content))] + Items(parent, rest)
    case Directory(name, inside, rest) =>
      [Item(Join(parent, name), None)] + Items(Join(parent, name), inside) + Items(parent, rest)
    case Other(name, rest) => [Item(Join(parent, name), None)] + Items(parent, rest)
  }

  /** The items of the first entry of a stream. */
  function HeadItems(parent: Name, l: Listing): seq<Item>
    requires !l.End?
  {
    match l
    case File(name, content, _) => [Item(Join(parent, name), Some(content))]
    case Directory(name, inside, _) => [Item(Join(parent, name), None)] + Items(Join(parent, name), inside)
    case Other(name, _) => [Item(Join(parent, name), None)]
  }

  function OnlyFiles(items: seq<Item>): seq<Item> {
    if items == [] then []
    else (if items[0].content.Some? then [items[0]] else []) + OnlyFiles(items[1..])
  }

  function NameBytes(items: seq<Item>): nat {
    if items == [] then 0 else |items[0].name| + NameBytes(items[1..])
  }

  function Siblings(l: Listing): set<Name> {
    match l
    case End => {}
    case _ => {l.name} + Siblings(l.rest)
  }

  /** What a file system guarantees of a directory: no NUL in a name, and no name twice. */
  predicate Sound(l: Listing) {
    match l
    case End => true
    case Directory(name, inside, rest) => NulFree(name) && name !in Siblings(rest) && Sound(inside) && Sound(rest)
    case _ => NulFree(l.name) && l.name !in Siblings(l.rest) && Sound(l.rest)
  }

  /** What the walk itself insists on. */
  predicate Walkable(l: Listing, depth: nat) {
    && depth <= MAX_DEPTH
    && match l
       case End => true
       case File(name, _, rest) => ValidComponent(name) && Walkable(rest, depth)
       case Directory(name, inside, rest) =>
         ValidComponent(name) && Walkable(inside, depth + 1) && Walkable(rest, depth)
       case Other(_, _) => false
  }

  lemma {:induction false} OnlyFilesDistributes(a: seq<Item>, b: seq<Item>)
    ensures OnlyFiles(a + b) == OnlyFiles(a) + OnlyFiles(b)
  {
    if a == [] {
      assert a + b == b;
    } else {
      var kept := if a[0].content.Some? then [a[0]] else [];
      assert (a + b)[1..] == a[1..] + b;
      OnlyFilesDistributes(a[1..], b);
      assert kept + (OnlyFiles(a[1..]) + OnlyFiles(b)) == (kept + OnlyFiles(a[1..])) + OnlyFiles(b);
    }
  }

  lemma {:induction false} NameBytesDistributes(a: seq<Item>, b: seq<Item>)
    ensures NameBytes(a + b) == NameBytes(a) + NameBytes(b)
  {
    if a == [] {
      assert a + b == b;
    } else {
      assert (a + b)[1..] == a[1..] + b;
      NameBytesDistributes(a[1..], b);
    }
  }

  lemma {:induction false} FilesAreFewer(items: seq<Item>)
    ensures |OnlyFiles(items)| <= |items|
    ensures NameBytes(OnlyFiles(items)) <= NameBytes(items)
  {
    if items != [] {
      FilesAreFewer(items[1..]);
      NameBytesDistributes(if items[0].content.Some? then [items[0]] else [], OnlyFiles(items[1..]));
    }
  }

  // -------------------------------------------------------------------- the walk

  /** The budget, the collected names and the snapshots of one walk. */
  class Walk {
    var entries: nat
    var pathBytes: nat
    var names: seq<Item>
    var capacity: nat
    var namesBytes: nat
    var snapshots: seq<Item>
    var snapshotBytes: nat

    constructor ()
      ensures Holds([])
    {
      entries, pathBytes, names, capacity, namesBytes := 0, 0, [], 0, 0;
      snapshots, snapshotBytes := [Item([], None)], 0;
    }

    /** The walk has met exactly these entries, within its budget. */
    ghost predicate Holds(items: seq<Item>)
      reads this
    {
      && entries == |items| <= MAX_ENTRIES
      && pathBytes == NameBytes(items) <= MAX_PATH_BYTES
      && names == OnlyFiles(items)
      && |names| <= capacity <= MAX_ENTRIES
      && namesBytes == NameBytes(names)
      && snapshots == [Item([], None)] + items
      && snapshotBytes == pathBytes
    }

    method RecordEntry(length: nat) returns (ok: bool)
      requires pathBytes <= MAX_PATH_BYTES
      modifies `entries, `pathBytes
      ensures ok <==> old(entries) < MAX_ENTRIES && length <= MAX_PATH_BYTES - old(pathBytes)
      ensures ok ==> entries == old(entries) + 1 && pathBytes == old(pathBytes) + length
      ensures !ok ==> entries == old(entries) && pathBytes == old(pathBytes)
    {
      if entries >= MAX_ENTRIES || length > MAX_PATH_BYTES - pathBytes { return false; }
      entries, pathBytes := entries + 1, pathBytes + length;
      ok := true;
    }

    /** The name list has a budget of its own and doubles its capacity up to the entry limit. */
    method AddName(item: Item) returns (ok: bool)
      requires |names| <= capacity <= MAX_ENTRIES && namesBytes <= MAX_PATH_BYTES
      modifies `names, `capacity, `namesBytes
      ensures ok <==> |old(names)| < MAX_ENTRIES && |item.name| <= MAX_PATH_BYTES - old(namesBytes)
      ensures ok ==>
                && names == old(names) + [item] && namesBytes == old(namesBytes) + |item.name|
                && |names| <= capacity <= MAX_ENTRIES
    {
      var slot := |names|;
      if slot >= MAX_ENTRIES || |item.name| > MAX_PATH_BYTES - namesBytes { return false; }
      if slot == capacity {
        var next := if capacity == 0 then 64 else capacity * 2;
        if next > MAX_ENTRIES { next := MAX_ENTRIES; }
        capacity := next;
      }
      names, namesBytes := names + [item], namesBytes + |item.name|;
      ok := true;
    }

    method AddSnapshot(item: Item) returns (ok: bool)
      requires snapshotBytes <= MAX_PATH_BYTES
      modifies `snapshots, `snapshotBytes
      ensures ok <==> |old(snapshots)| < MAX_ENTRIES + 1 && |item.name| <= MAX_PATH_BYTES - old(snapshotBytes)
      ensures ok ==> snapshots == old(snapshots) + [item] && snapshotBytes == old(snapshotBytes) + |item.name|
    {
      if |snapshots| >= MAX_ENTRIES + 1 || |item.name| > MAX_PATH_BYTES - snapshotBytes { return false; }
      snapshots, snapshotBytes := snapshots + [item], snapshotBytes + |item.name|;
      ok := true;
    }

    /** One entry; only the walk's own budget can refuse it, the other two never do. */
    method Meet(item: Item, ghost items: seq<Item>) returns (ok: bool)
      requires Holds(items)
      modifies this
      ensures ok <==> Fits(items + [item])
      ensures ok ==> Holds(items + [item])
    {
      FilesAreFewer(items);
      OnlyFilesDistributes(items, [item]);
      NameBytesDistributes(items, [item]);
      NameBytesDistributes(names, [item]);
      ok := RecordEntry(|item.name|);
      if !ok { return; }
      var added := AddSnapshot(item);
      if !added { return false; }
      if item.content.Some? {
        added := AddName(item);
        if !added { return false; }
      }
    }

    /** One entry and, if it is a directory, everything in it. */
    method CollectEntry(parent: Name, l: Listing, depth: nat, ghost items: seq<Item>) returns (ok: bool)
      requires !l.End? && Holds(items) && Fits(items)
      modifies this
      ensures ok <==> HeadWalkable(l, depth) && Fits(items + HeadItems(parent, l))
      ensures ok ==> Holds(items + HeadItems(parent, l))
      decreases l, 0
    {
      hide Holds, Fits, ValidComponent, Join, Items;
      if !ValidComponent(l.name) { return false; }
      var child := Join(parent, l.name);
      var item := Item(child, if l.File? then Some(l.content) else None);
      ghost var inside := if l.Directory? then Items(child, l.inside) else [];
      assert HeadItems(parent, l) == [item] + inside;
      assert items + HeadItems(parent, l) == (items + [item]) + inside;
      FitsPrefix(items + [item], inside);
      ok := Meet(item, items);
      if !ok { return; }
      if l.Other? { return false; }
      if l.Directory? {
        ok := CollectDirectory(child, l.inside, depth + 1, items + [item]);
      }
    }

    /** Walks one directory stream; it succeeds exactly when the whole subtree is walkable and fits. */
    method CollectDirectory(parent: Name, l: Listing, depth: nat, ghost items: seq<Item>) returns (ok: bool)
      requires Holds(items) && Fits(items)
      modifies this
      ensures ok <==> Walkable(l, depth) && Fits(items + Items(parent, l))
      ensures ok ==> Holds(items + Items(parent, l))
      decreases l, 1
    {
      hide Holds, Fits, HeadItems, HeadWalkable, Walkable, Items;
      if depth > MAX_DEPTH {
        TooDeep(l, depth);
        return false;
      }
      var rest := l;
      ghost var met := items;
      while !rest.End?
        invariant Holds(met) && Fits(met)
        invariant met + Items(parent, rest) == items + Items(parent, l)
        invariant Walkable(l, depth) <==> Walkable(rest, depth)
        invariant rest == l || rest < l
        decreases rest
      {
        HeadAndRest(parent, rest, depth);
        ghost var head := HeadItems(parent, rest);
        assert met + (head + Items(parent, rest.rest)) == (met + head) + Items(parent, rest.rest);
        FitsPrefix(met + head, Items(parent, rest.rest));
        ok := CollectEntry(parent, rest, depth, met);
        if !ok { return; }
        met := met + head;
        rest := rest.rest;
      }
      AtTheEnd(parent, depth);
      assert met + [] == met;
      ok := true;
    }
  }

  predicate HeadWalkable(l: Listing, depth: nat)
    requires !l.End?
  {
    !l.Other? && ValidComponent(l.name) && (l.Directory? ==> Walkable(l.inside, depth + 1))
  }

  lemma TooDeep(l: Listing, depth: nat)
    requires depth > MAX_DEPTH
    ensures !Walkable(l, depth)
  {
  }

  lemma HeadAndRest(parent: Name, l: Listing, depth: nat)
    requires !l.End? && depth <= MAX_DEPTH
    ensures Items(parent, l) == HeadItems(parent, l) + Items(parent, l.rest)
    ensures Walkable(l, depth) <==> HeadWalkable(l, depth) && Walkable(l.rest, depth)
  {
  }

  lemma AtTheEnd(parent: Name, depth: nat)
    ensures Items(parent, End) == [] && (Walkable(End, depth) <==> depth <= MAX_DEPTH)
  {
  }

  ghost predicate Fits(items: seq<Item>) {
    |items| <= MAX_ENTRIES && NameBytes(items) <= MAX_PATH_BYTES
  }

  lemma FitsPrefix(a: seq<Item>, b: seq<Item>)
    ensures Fits(a + b) ==> Fits(a)
  {
    NameBytesDistributes(a, b);
  }

  // ------------------------------------------------- names of a tree are distinct

  predicate Distinct(items: seq<Item>) {
    forall i, j | 0 <= i < j < |items| :: items[i].name != items[j].name
  }

  /** The path lies at or below the entry `name` of `parent`. */
  predicate Under(parent: Name, name: Name, path: Name) {
    var top := Join(parent, name);
    path == top || (|path| > |top| && path[..|top|] == top && path[|top|] == SLASH)
  }

  lemma LongerHasSlash(parent: Name, a: Name, b: Name, path: Name)
    requires Under(parent, a, path) && Under(parent, b, path) && |a| < |b|
    ensures SLASH in b
  {
    var start := if parent == [] then 0 else |parent| + 1;
    assert Join(parent, b)[start..] == b;
    assert b[|a|] == path[start + |a|];
  }

  lemma UnderIsUnique(parent: Name, a: Name, b: Name, path: Name)
    requires SLASH !in a && SLASH !in b
    requires Under(parent, a, path) && Under(parent, b, path)
    ensures a == b
  {
    if |a| < |b| {
      LongerHasSlash(parent, a, b, path);
    } else if |b| < |a| {
      LongerHasSlash(parent, b, a, path);
    } else {
      var start := if parent == [] then 0 else |parent| + 1;
      assert Join(parent, a) == path[..start + |a|] == Join(parent, b);
      assert Join(parent, a)[start..] == a && Join(parent, b)[start..] == b;
    }
  }

  lemma UnderIsTransitive(parent: Name, name: Name, inner: Name, path: Name)
    requires name != [] && Under(Join(parent, name), inner, path)
    ensures Under(parent, name, path) && path != Join(parent, name)
  {
    var top := Join(parent, name);
    var deep := Join(top, inner);
    assert deep[..|top|] == top && deep[|top|] == SLASH;
    assert path[..|deep|] == deep;
    assert path[..|top|] == path[..|deep|][..|top|];
  }

  predicate UnderSome(parent: Name, siblings: set<Name>, path: Name) {
    exists name :: name in siblings && Under(parent, name, path)
  }

  lemma {:induction false} ItemsAreUnder(parent: Name, l: Listing, depth: nat)
    requires Walkable(l, depth)
    ensures forall i | 0 <= i < |Items(parent, l)| :: UnderSome(parent, Siblings(l), Items(parent, l)[i].name)
    decreases l
  {
    if l.End? { return; }
    ItemsAreUnder(parent, l.rest, depth);
    assert l.name in Siblings(l) && Siblings(l.rest) <= Siblings(l);
    assert UnderSome(parent, Siblings(l), Join(parent, l.name));
    forall i | 0 <= i < |Items(parent, l.rest)|
      ensures UnderSome(parent, Siblings(l), Items(parent, l.rest)[i].name)
    {
      var name :| name in Siblings(l.rest) && Under(parent, name, Items(parent, l.rest)[i].name);
      assert name in Siblings(l);
    }
    if l.Directory? {
      var child := Join(parent, l.name);
      ItemsAreUnder(child, l.inside, depth + 1);
      forall i | 0 <= i < |Items(child, l.inside)|
        ensures UnderSome(parent, Siblings(l), Items(child, l.inside)[i].name)
      {
        var name :| name in Siblings(l.inside) && Under(child, name, Items(child, l.inside)[i].name);
        UnderIsTransitive(parent, l.name, name, Items(child, l.inside)[i].name);
      }
    }
  }

  lemma {:induction false} SiblingsAreValid(l: Listing, depth: nat)
    requires Walkable(l, depth)
    ensures forall name | name in Siblings(l) :: ValidComponent(name)
  {
    if !l.End? { SiblingsAreValid(l.rest, depth); }
  }

  lemma DistinctConcat(a: seq<Item>, b: seq<Item>)
    requires Distinct(a) && Distinct(b)
    requires forall i, j | 0 <= i < |a| && 0 <= j < |b| :: a[i].name != b[j].name
    ensures Distinct(a + b)
  {
  }

  /** No path is collected twice. */
  lemma {:induction false} ItemsAreDistinct(parent: Name, l: Listing, depth: nat)
    requires Walkable(l, depth) && Sound(l)
    ensures Distinct(Items(parent, l))
    decreases l
  {
    if l.End? { return; }
    ItemsAreDistinct(parent, l.rest, depth);
    ItemsAreUnder(parent, l.rest, depth);
    SiblingsAreValid(l.rest, depth);
    var child := Join(parent, l.name);
    var first, later := HeadItems(parent, l), Items(parent, l.rest);
    HeadIsUnder(parent, l, depth);
    if l.Directory? { ItemsAreDistinct(child, l.inside, depth + 1); }
    HeadIsDistinct(parent, l, depth);
    forall i, j | 0 <= i < |first| && 0 <= j < |later|
      ensures first[i].name != later[j].name
    {
      var name :| name in Siblings(l.rest) && Under(parent, name, later[j].name);
      if first[i].name == later[j].name { UnderIsUnique(parent, l.name, name, first[i].name); }
    }
    DistinctConcat(first, later);
    assert Items(parent, l) == first + later;
  }

  lemma HeadIsUnder(parent: Name, l: Listing, depth: nat)
    requires !l.End? && Walkable(l, depth)
    ensures forall i | 0 <= i < |HeadItems(parent, l)| :: Under(parent, l.name, HeadItems(parent, l)[i].name)
    ensures forall i | 1 <= i < |HeadItems(parent, l)| :: HeadItems(parent, l)[i].name != Join(parent, l.name)
  {
    if l.Directory? {
      var child := Join(parent, l.name);
      ItemsAreUnder(child, l.inside, depth + 1);
      forall i | 0 <= i < |Items(child, l.inside)|
        ensures Under(parent, l.name, Items(child, l.inside)[i].name)
        ensures Items(child, l.inside)[i].name != child
      {
        var name :| name in Siblings(l.inside) && Under(child, name, Items(child, l.inside)[i].name);
        UnderIsTransitive(parent, l.name, name, Items(child, l.inside)[i].name);
      }
    }
  }

  lemma HeadIsDistinct(parent: Name, l: Listing, depth: nat)
    requires !l.End? && Walkable(l, depth)
    requires l.Directory? ==> Distinct(Items(Join(parent, l.name), l.inside))
    ensures Distinct(HeadItems(parent, l))
  {
    if l.Directory? {
      HeadIsUnder(parent, l, depth);
      var inside := Items(Join(parent, l.name), l.inside);
      assert HeadItems(parent, l)[1..] == inside;
      forall i | 0 <= i < |inside|
        ensures inside[i].name != Join(parent, l.name)
      {
        assert HeadItems(parent, l)[i + 1] == inside[i];
      }
      DistinctConcat([Item(Join(parent, l.name), None)], inside);
    }
  }

  // --------------------------------------------------------------------- sorting

  predicate Sorted(items: seq<Item>) {
    forall i, j | 0 <= i < j < |items| :: Before(items[i].name, items[j].name)
  }

  function Elements(items: seq<Item>): set<Item> {
    set item | item in items
  }

  function Insert(item: Item, items: seq<Item>): (r: seq<Item>) {
    if items == [] || Before(item.name, items[0].name) then [item] + items
    else [items[0]] + Insert(item, items[1..])
  }

  /** The sorted list; `SortIsUnique` says that any other sorting algorithm gives the same. */
  function Sort(items: seq<Item>): seq<Item> {
    if items == [] then [] else Insert(items[0], Sort(items[1..]))
  }

  lemma ElementsOfConcat(a: seq<Item>, b: seq<Item>)
    ensures Elements(a + b) == Elements(a) + Elements(b)
  {
  }

  lemma {:induction false} InsertKeeps(item: Item, items: seq<Item>)
    ensures Elements(Insert(item, items)) == {item} + Elements(items)
    ensures |Insert(item, items)| == |items| + 1
  {
    if items != [] && !Before(item.name, items[0].name) {
      InsertKeeps(item, items[1..]);
      assert items == [items[0]] + items[1..];
      ElementsOfConcat([items[0]], items[1..]);
      ElementsOfConcat([items[0]], Insert(item, items[1..]));
    } else {
      ElementsOfConcat([item], items);
    }
  }

  lemma {:induction false} InsertSorts(item: Item, items: seq<Item>)
    requires Sorted(items) && forall i | 0 <= i < |items| :: items[i].name != item.name
    ensures Sorted(Insert(item, items))
  {
    if items == [] { return; }
    BeforeIsOrder(item.name, items[0].name);
    if Before(item.name, items[0].name) {
      forall j | 1 <= j < |items|
        ensures Before(item.name, items[j].name)
      {
        BeforeIsTransitive(item.name, items[0].name, items[j].name);
      }
    } else {
      InsertSorts(item, items[1..]);
      InsertKeeps(item, items[1..]);
      forall j | 0 <= j < |items|
        ensures Before(items[0].name, Insert(item, items[1..])[j].name)
      {
        var x := Insert(item, items[1..])[j];
        assert x in Elements(Insert(item, items[1..]));
        assert x == item || x in items[1..];
      }
    }
  }

  lemma {:induction false} SortSorts(items: seq<Item>)
    requires Distinct(items)
    ensures Sorted(Sort(items)) && Elements(Sort(items)) == Elements(items) && |Sort(items)| == |items|
  {
    if items == [] { return; }
    SortSorts(items[1..]);
    InsertKeeps(items[0], Sort(items[1..]));
    assert items == [items[0]] + items[1..];
    forall i | 0 <= i < |items| - 1
      ensures Sort(items[1..])[i].name != items[0].name
    {
      assert Sort(items[1..])[i] in Elements(items[1..]);
    }
    InsertSorts(items[0], Sort(items[1..]));
  }

  lemma FirstIsLeast(items: seq<Item>, x: Item)
    requires Sorted(items) && x in items
    ensures x == items[0] || Before(items[0].name, x.name)
  {
  }

  lemma SameEmptiness(a: seq<Item>, b: seq<Item>)
    requires Elements(a) == Elements(b)
    ensures a == [] <==> b == []
  {
    assert a != [] ==> a[0] in Elements(b);
    assert b != [] ==> b[0] in Elements(a);
  }

  /** Two sorted lists of the same elements are the same list. */
  lemma {:induction false} SortIsUnique(a: seq<Item>, b: seq<Item>)
    requires Sorted(a) && Sorted(b) && Elements(a) == Elements(b)
    ensures a == b
  {
    if a == [] {
      SameEmptiness(a, b);
    } else {
      assert a[0] in Elements(b);
      assert b != [] && b[0] in Elements(a);
      FirstIsLeast(a, b[0]);
      FirstIsLeast(b, a[0]);
      BeforeIsOrder(a[0].name, b[0].name);
      RestElements(a);
      RestElements(b);
      SortIsUnique(a[1..], b[1..]);
    }
  }

  lemma RestElements(a: seq<Item>)
    requires Sorted(a) && a != []
    ensures Sorted(a[1..]) && Elements(a[1..]) == Elements(a) - {a[0]}
  {
    forall i | 1 <= i < |a|
      ensures a[i] != a[0]
    {
      BeforeIsOrder(a[0].name, a[i].name);
    }
    assert a == [a[0]] + a[1..];
  }

  // -------------------------------------------------------------------- snapshots

  /** Binary search by name finds every collected name, and nothing else. */
  method FindSnapshot(snapshots: seq<Item>, name: Name) returns (found: Option<Item>)
    requires Sorted(snapshots)
    requires NulFree(name) && forall i | 0 <= i < |snapshots| :: NulFree(snapshots[i].name)
    ensures found.Some? ==> found.value in snapshots && found.value.name == name
    ensures found.None? ==> forall i | 0 <= i < |snapshots| :: snapshots[i].name != name
  {
    var low, high := 0, |snapshots|;
    while low < high
      invariant 0 <= low <= high <= |snapshots|
      invariant forall i | 0 <= i < low :: Before(snapshots[i].name, name)
      invariant forall i | high <= i < |snapshots| :: Before(name, snapshots[i].name)
    {
      var middle := low + (high - low) / 2;
      var comparison := CompareNames(name, snapshots[middle].name);
      if comparison == 0 { return Some(snapshots[middle]); }
      if comparison < 0 {
        RightOf(snapshots, middle, name);
        high := middle;
      } else {
        LeftOf(snapshots, middle, name);
        low := middle + 1;
      }
    }
    forall i | 0 <= i < |snapshots|
      ensures snapshots[i].name != name
    {
      BeforeIsOrder(snapshots[i].name, name);
    }
    found := None;
  }

  lemma RightOf(snapshots: seq<Item>, middle: nat, name: Name)
    requires Sorted(snapshots) && middle < |snapshots| && Before(name, snapshots[middle].name)
    ensures forall i | middle <= i < |snapshots| :: Before(name, snapshots[i].name)
  {
    forall i | middle < i < |snapshots|
      ensures Before(name, snapshots[i].name)
    {
      BeforeIsTransitive(name, snapshots[middle].name, snapshots[i].name);
    }
  }

  lemma LeftOf(snapshots: seq<Item>, middle: nat, name: Name)
    requires Sorted(snapshots) && middle < |snapshots| && Before(snapshots[middle].name, name)
    ensures forall i | 0 <= i <= middle :: Before(snapshots[i].name, name)
  {
    forall i | 0 <= i < middle
      ensures Before(snapshots[i].name, name)
    {
      BeforeIsTransitive(snapshots[i].name, snapshots[middle].name, name);
    }
  }

  // --------------------------------------------------------------------- preimage

  function ContentDigest(item: Item): (d: seq<Byte>)
    ensures |d| == 32
  {
    Digest(if item.content.Some? then item.content.value else [])
  }

  function EncodeItem(item: Item): seq<Byte> {
    LittleEndian(|item.name|) + item.name + ContentDigest(item)
  }

  function EncodeItems(items: seq<Item>): seq<Byte> {
    if items == [] then [] else EncodeItems(items[..|items| - 1]) + EncodeItem(items[|items| - 1])
  }

  const MAGIC: seq<Byte> := [75, 72, 84, 49]

  /** Magic, number of files, and for each file in name order its name and the digest of its content. */
  function PreimageOf(files: seq<Item>): seq<Byte> {
    MAGIC + LittleEndian(|files|) + EncodeItems(files)
  }

  function Preimage(l: Listing): seq<Byte> {
    PreimageOf(Sort(OnlyFiles(Items([], l))))
  }

  lemma {:induction false} EncodeFront(items: seq<Item>)
    requires items != []
    ensures EncodeItems(items) == EncodeItem(items[0]) + EncodeItems(items[1..])
  {
    hide EncodeItem;
    if |items| > 1 {
      EncodeFront(items[..|items| - 1]);
      assert items[..|items| - 1][1..] == items[1..][..|items| - 2];
    }
  }

  predicate Small(items: seq<Item>) {
    forall i | 0 <= i < |items| :: |items[i].name| < 0x1_0000_0000
  }

  /** Equal encodings of equally many files have equal names and equal digests, one by one. */
  lemma {:induction false} EncodingIsInjective(a: seq<Item>, b: seq<Item>)
    requires |a| == |b| && Small(a) && Small(b) && EncodeItems(a) == EncodeItems(b)
    ensures forall i | 0 <= i < |a| :: a[i].name == b[i].name && ContentDigest(a[i]) == ContentDigest(b[i])
  {
    hide EncodeItem, EncodeItems, ContentDigest;
    if a != [] {
      EncodeFront(a);
      EncodeFront(b);
      FirstItemIsDetermined(a[0], b[0], EncodeItems(a[1..]), EncodeItems(b[1..]));
      EncodingIsInjective(a[1..], b[1..]);
      forall i | 0 <= i < |a|
        ensures a[i].name == b[i].name && ContentDigest(a[i]) == ContentDigest(b[i])
      {
        if i > 0 { assert a[i] == a[1..][i - 1] && b[i] == b[1..][i - 1]; }
      }
    }
  }

  lemma FirstItemIsDetermined(a: Item, b: Item, s: seq<Byte>, t: seq<Byte>)
    requires |a.name| < 0x1_0000_0000 && |b.name| < 0x1_0000_0000
    requires EncodeItem(a) + s == EncodeItem(b) + t
    ensures a.name == b.name && ContentDigest(a) == ContentDigest(b) && s == t
  {
    hide LittleEndian, ContentDigest;
    var whole := EncodeItem(a) + s;
    assert whole[..4] == LittleEndian(|a.name|) && whole[..4] == LittleEndian(|b.name|);
    LittleEndianIsInjective(|a.name|, |b.name|);
    var n := |a.name|;
    assert whole[4..4 + n] == a.name && whole[4..4 + n] == b.name;
    assert whole[4 + n..36 + n] == ContentDigest(a) && whole[4 + n..36 + n] == ContentDigest(b);
    assert whole[36 + n..] == s && whole[36 + n..] == t;
  }

  // --------------------------------------------------------------------- the hash

  /** The regular files of a tree: names relative to the root, with their contents. */
  function Files(l: Listing): set<Item> {
    Elements(OnlyFiles(Items([], l)))
  }

  function Size(item: Item): nat {
    if item.content.Some? then |item.content.value| else 0
  }

  function TotalBytes(items: seq<Item>): nat {
    if items == [] then 0 else TotalBytes(items[..|items| - 1]) + Size(items[|items| - 1])
  }

  /** What the digest walk accepts of the files, once they are collected. */
  ghost predicate Affordable(files: seq<Item>) {
    && (forall i | 0 <= i < |files| :: Size(files[i]) <= MAX_FILE_BYTES)
    && TotalBytes(files) <= MAX_BYTES
  }

  ghost predicate Collectable(l: Listing) {
    Walkable(l, 0) && Fits(Items([], l))
  }

  ghost predicate Admissible(l: Listing) {
    Collectable(l) && Affordable(Sort(OnlyFiles(Items([], l))))
  }

  lemma {:induction false} AffordablePrefix(files: seq<Item>, k: nat)
    requires k <= |files| && Affordable(files)
    ensures Affordable(files[..k])
  {
    if k < |files| {
      var shorter := files[..|files| - 1];
      assert shorter[..k] == files[..k];
      AffordablePrefix(shorter, k);
    } else {
      assert files[..k] == files;
    }
  }

  lemma {:induction false} OnlyFilesKeeps(items: seq<Item>, item: Item)
    ensures item in OnlyFiles(items) <==> item in items && item.content.Some?
  {
    if items != [] {
      OnlyFilesKeeps(items[1..], item);
      assert item in items <==> item == items[0] || item in items[1..];
    }
  }

  lemma {:induction false} OnlyFilesDistinct(items: seq<Item>)
    requires Distinct(items)
    ensures Distinct(OnlyFiles(items))
  {
    if items != [] {
      var later := OnlyFiles(items[1..]);
      OnlyFilesDistinct(items[1..]);
      forall j | 0 <= j < |later|
        ensures later[j].name != items[0].name
      {
        OnlyFilesKeeps(items[1..], later[j]);
      }
      DistinctConcat(if items[0].content.Some? then [items[0]] else [], later);
    }
  }

  lemma {:induction false} ItemsAreNulFree(parent: Name, l: Listing)
    requires Sound(l) && NulFree(parent)
    ensures forall item | item in Items(parent, l) :: NulFree(item.name)
    decreases l
  {
    if l.End? { return; }
    ItemsAreNulFree(parent, l.rest);
    if l.Directory? { ItemsAreNulFree(Join(parent, l.name), l.inside); }
  }

  lemma {:induction false} ItemsAreNamed(parent: Name, l: Listing, depth: nat)
    requires Walkable(l, depth)
    ensures forall item | item in Items(parent, l) :: item.name != []
    decreases l
  {
    if l.End? { return; }
    ItemsAreNamed(parent, l.rest, depth);
    if l.Directory? { ItemsAreNamed(Join(parent, l.name), l.inside, depth + 1); }
  }

  /** After sorting, the snapshots can be searched, and every file has one. */
  lemma SnapshotsAreSorted(l: Listing)
    requires Walkable(l, 0) && Sound(l)
    ensures var items := Items([], l);
            var snapshots := Sort([Item([], None)] + items);
            && Sorted(snapshots) && Sorted(Sort(OnlyFiles(items)))
            && Elements(Sort(OnlyFiles(items))) == Files(l)
            && (forall i | 0 <= i < |snapshots| :: NulFree(snapshots[i].name))
            && (forall item | item in Sort(OnlyFiles(items)) :: item.content.Some? && item in snapshots)
  {
    var items := Items([], l);
    var all := [Item([], None)] + items;
    ItemsAreDistinct([], l, 0);
    ItemsAreNamed([], l, 0);
    ItemsAreNulFree([], l);
    DistinctConcat([Item([], None)], items);
    OnlyFilesDistinct(items);
    SortSorts(OnlyFiles(items));
    SortSorts(all);
    var snapshots := Sort(all);
    forall i | 0 <= i < |snapshots|
      ensures NulFree(snapshots[i].name)
    {
      assert snapshots[i] in Elements(all);
    }
    forall item | item in Sort(OnlyFiles(items))
      ensures item.content.Some? && item in snapshots
    {
      assert item in Elements(OnlyFiles(items));
      OnlyFilesKeeps(items, item);
      assert item in Elements(all);
      assert item in Elements(snapshots);
    }
  }

  /** Reads the file in whatever pieces `read` returns. */
  method HashFile(content: seq<Byte>) returns (digest: seq<Byte>)
    ensures digest == Digest(content)
  {
    hide Digest, Context.Absorbed;
    var context := new Context();
    var offset := 0;
    while offset < |content|
      invariant 0 <= offset <= |content|
      invariant fresh(context) && fresh(context.buffer) && context.Valid() && context.active
      invariant context.message == content[..offset]
    {
      assert offset + 1 <= |content|;
      var count: nat :| 0 < count <= 65536 && offset + count <= |content|;
      var updated := context.Update(content[offset..offset + count]);
      assert content[..offset + count] == content[..offset] + content[offset..offset + count];
      offset := offset + count;
    }
    assert content[..offset] == content;
    var ok;
    ok, digest := context.Final();
  }

  /** What opening and reading a file gave: its content, unless it is no regular file, and its status. */
  datatype Reading = Reading(content: Option<seq<Byte>>, status: int)

  /**
   Status (device, inode, mode, links, times) is observed by path at three moments: when the tree
   is first collected, when a file is read, and when the tree is collected again.
   */
  datatype Observed = Observed(first: Name -> int, reading: Name -> Reading, second: Name -> int)

  /** The file is read with the status and the size that its snapshot has. */
  predicate ReadUnchanged(file: Item, o: Observed) {
    var r := o.reading(file.name);
    r.content.Some? && |r.content.value| == Size(file) && r.status == o.first(file.name)
  }

  predicate AllReadUnchanged(files: seq<Item>, o: Observed) {
    forall i | 0 <= i < |files| :: ReadUnchanged(files[i], o)
  }

  /** The files as they were read. */
  function AsRead(files: seq<Item>, o: Observed): (r: seq<Item>)
    ensures |r| == |files|
  {
    if files == [] then []
    else
      var last := files[|files| - 1];
      AsRead(files[..|files| - 1], o) + [Item(last.name, o.reading(last.name).content)]
  }

  lemma OneNameOneSnapshot(snapshots: seq<Item>, a: Item, b: Item)
    requires Sorted(snapshots) && a in snapshots && b in snapshots && a.name == b.name
    ensures a == b
  {
    BeforeIsOrder(a.name, b.name);
  }

  /** Absorbs one name and the digest of its file; status and size must be those of its snapshot. */
  method AbsorbFile(tree: Context, file: Item, snapshots: seq<Item>, o: Observed, total: nat)
    returns (ok: bool, after: nat)
    requires tree.Valid() && tree.active && Sorted(snapshots) && file in snapshots
    requires forall i | 0 <= i < |snapshots| :: NulFree(snapshots[i].name)
    requires total <= MAX_BYTES
    modifies tree, tree.buffer
    ensures tree.Valid() && tree.active
    ensures ok <==> ReadUnchanged(file, o) && Size(file) <= MAX_FILE_BYTES && total + Size(file) <= MAX_BYTES
    ensures ok ==> after == total + Size(file)
    ensures ok ==> tree.message == old(tree.message) + EncodeItem(Item(file.name, o.reading(file.name).content))
  {
    hide Digest, LittleEndian, Context.Absorbed, Sorted;
    var updated := tree.Update(LittleEndian(|file.name|));
    updated := tree.Update(file.name);
    var found := FindSnapshot(snapshots, file.name);
    if found.None? { return false, total; }
    OneNameOneSnapshot(snapshots, found.value, file);
    var reading := o.reading(file.name);
    if reading.content.None? || |reading.content.value| > MAX_FILE_BYTES { return false, total; }
    var content := reading.content.value;
    if reading.status != o.first(found.value.name) || |content| != Size(found.value) { return false, total; }
    var digest := HashFile(content);
    if total > MAX_BYTES - |content| { return false, total; }
    updated := tree.Update(digest);
    ok, after := true, total + |content|;
    assert LittleEndian(|file.name|) + file.name + digest == EncodeItem(Item(file.name, reading.content));
  }

  method AbsorbFiles(tree: Context, files: seq<Item>, snapshots: seq<Item>, o: Observed) returns (ok: bool)
    requires tree.Valid() && tree.active
    requires forall file | file in files :: file in snapshots
    requires Sorted(snapshots) && forall i | 0 <= i < |snapshots| :: NulFree(snapshots[i].name)
    modifies tree, tree.buffer
    ensures tree.Valid() && tree.active
    ensures ok <==> Affordable(files) && AllReadUnchanged(files, o)
    ensures ok ==> tree.message == old(tree.message) + EncodeItems(AsRead(files, o))
  {
    hide EncodeItem, EncodeItems, AsRead, TotalBytes, Context.Absorbed, Sorted, Digest;
    hide ReadUnchanged, AllReadUnchanged, Affordable, Size;
    var total := 0;
    NoFiles(o);
    for index := 0 to |files|
      invariant tree.Valid() && tree.active
      invariant tree.message == old(tree.message) + EncodeItems(AsRead(files[..index], o))
      invariant Affordable(files[..index]) && total == TotalBytes(files[..index]) <= MAX_BYTES
      invariant AllReadUnchanged(files[..index], o)
    {
      OneFileMore(files[..index], files[index], o);
      OneFileMoreIsAccepted(files[..index], files[index], o);
      assert files[..index + 1] == files[..index] + [files[index]];
      ok, total := AbsorbFile(tree, files[index], snapshots, o, total);
      if !ok {
        RefusedPrefix(files, index + 1, o);
        return false;
      }
    }
    assert files[..|files|] == files;
    ok := true;
  }

  lemma NoFiles(o: Observed)
    ensures Affordable([]) && AllReadUnchanged([], o) && TotalBytes([]) == 0
    ensures EncodeItems(AsRead([], o)) == []
  {
  }

  lemma OneFileMore(files: seq<Item>, file: Item, o: Observed)
    ensures var more := files + [file];
            && TotalBytes(more) == TotalBytes(files) + Size(file)
            && EncodeItems(AsRead(more, o))
                 == EncodeItems(AsRead(files, o)) + EncodeItem(Item(file.name, o.reading(file.name).content))
  {
    hide EncodeItem, Size;
    var more := files + [file];
    assert more[..|more| - 1] == files && more[|more| - 1] == file;
    OneItemMore(AsRead(files, o), Item(file.name, o.reading(file.name).content));
  }

  lemma OneItemMore(items: seq<Item>, item: Item)
    ensures EncodeItems(items + [item]) == EncodeItems(items) + EncodeItem(item)
  {
    hide EncodeItem;
    assert (items + [item])[..|items|] == items;
  }

  /** The next file decides whether one file more is acceptable. */
  lemma OneFileMoreIsAccepted(files: seq<Item>, file: Item, o: Observed)
    requires Affordable(files) && AllReadUnchanged(files, o)
    requires TotalBytes(files + [file]) == TotalBytes(files) + Size(file)
    ensures Affordable(files + [file]) && AllReadUnchanged(files + [file], o) <==>
              ReadUnchanged(file, o) && Size(file) <= MAX_FILE_BYTES && TotalBytes(files) + Size(file) <= MAX_BYTES
  {
    hide ReadUnchanged, TotalBytes, Size;
    var more := files + [file];
    assert more[|files|] == file;
  }

  lemma RefusedPrefix(files: seq<Item>, k: nat, o: Observed)
    requires k <= |files| && !(Affordable(files[..k]) && AllReadUnchanged(files[..k], o))
    ensures !(Affordable(files) && AllReadUnchanged(files, o))
  {
    if Affordable(files) { AffordablePrefix(files, k); }
  }

  /** The header, the files and the final digest. */
  method HashSorted(files: seq<Item>, snapshots: seq<Item>, o: Observed) returns (ok: bool, digest: seq<Byte>)
    requires forall file | file in files :: file in snapshots
    requires Sorted(snapshots) && forall i | 0 <= i < |snapshots| :: NulFree(snapshots[i].name)
    ensures ok <==> Affordable(files) && AllReadUnchanged(files, o)
    ensures ok ==> digest == Digest(PreimageOf(AsRead(files, o)))
  {
    hide Digest, LittleEndian, EncodeItems, Context.Absorbed, Affordable, Sorted, AllReadUnchanged;
    var tree := new Context();
    var updated := tree.Update(MAGIC);
    updated := tree.Update(LittleEndian(|files|));
    assert tree.message == MAGIC + LittleEndian(|files|);
    ok := AbsorbFiles(tree, files, snapshots, o);
    if !ok { return false, []; }
    ok, digest := tree.Final();
  }

  // -------------------------------------------------- the tree is collected twice

  predicate NamesMatch(a: seq<Item>, b: seq<Item>) {
    |a| == |b| && forall i | 0 <= i < |a| :: a[i].name == b[i].name
  }

  /** Name, kind and size agree, and the path has the status that it had at first. */
  predicate SnapshotMatches(a: Item, b: Item, o: Observed) {
    && a.name == b.name && (a.content.Some? <==> b.content.Some?) && Size(a) == Size(b)
    && o.first(a.name) == o.second(b.name)
  }

  predicate SnapshotsMatch(a: seq<Item>, b: seq<Item>, o: Observed) {
    |a| == |b| && forall i | 0 <= i < |a| :: SnapshotMatches(a[i], b[i], o)
  }

  method SameNames(left: seq<Item>, right: seq<Item>) returns (same: bool)
    ensures same <==> NamesMatch(left, right)
  {
    if |left| != |right| { return false; }
    for index := 0 to |left|
      invariant forall i | 0 <= i < index :: left[i].name == right[i].name
    {
      if left[index].name != right[index].name { return false; }
    }
    same := true;
  }

  method SameSnapshots(left: seq<Item>, right: seq<Item>, o: Observed) returns (same: bool)
    ensures same <==> SnapshotsMatch(left, right, o)
  {
    if |left| != |right| { return false; }
    for index := 0 to |left|
      invariant forall i | 0 <= i < index :: SnapshotMatches(left[i], right[i], o)
    {
      if !SnapshotMatches(left[index], right[index], o) { return false; }
    }
    same := true;
  }

  function SortedFiles(l: Listing): seq<Item> {
    Sort(OnlyFiles(Items([], l)))
  }

  function SortedSnapshots(l: Listing): seq<Item> {
    Sort([Item([], None)] + Items([], l))
  }

  /** What the code observes of a tree that nobody changes: the same status and size everywhere. */
  ghost predicate Undisturbed(before: Listing, after: Listing, o: Observed) {
    && AllReadUnchanged(SortedFiles(before), o)
    && NamesMatch(SortedFiles(before), SortedFiles(after))
    && SnapshotsMatch(SortedSnapshots(before), SortedSnapshots(after), o)
  }

  /** Collects names and snapshots of a whole tree, in name order. */
  method Collect(l: Listing) returns (ok: bool, files: seq<Item>, snapshots: seq<Item>)
    requires Sound(l)
    ensures ok <==> Collectable(l)
    ensures ok ==> files == SortedFiles(l) && snapshots == SortedSnapshots(l)
  {
    hide Sort, Items, Walkable;
    var walk := new Walk();
    ok := walk.CollectDirectory([], l, 0, []);
    assert [] + Items([], l) == Items([], l);
    files, snapshots := Sort(walk.names), Sort(walk.snapshots);
  }

  /**
   The digest of a directory tree, or refusal exactly when the tree breaks a limit or is seen to
   change: if the status of the root or of any entry is another one the second time, if an entry
   has come, gone or changed its kind, or if a file is read with another status or size than it
   was collected with.  If an unchanged status means an unchanged content, the digest is that of
   the tree which was there both before and after.
   */
  method HashTree(before: Listing, after: Listing, o: Observed) returns (ok: bool, digest: seq<Byte>)
    requires Sound(before) && Sound(after)
    ensures ok <==> Admissible(before) && Collectable(after) && Undisturbed(before, after, o)
    ensures ok ==> digest == Digest(PreimageOf(AsRead(SortedFiles(before), o)))
    ensures ok ==> o.first([]) == o.second([])
    ensures ok ==> forall f | f in Items([], before) :: o.first(f.name) == o.second(f.name)
    ensures ok ==> forall f | f in Items([], before) && f.content.Some? ::
              var r := o.reading(f.name);
              r.status == o.first(f.name) && r.content.Some? && |r.content.value| == |f.content.value|
    ensures ok ==> forall f | f in Items([], before) ::
              exists g :: g in Items([], after) && g.name == f.name && (g.content.Some? <==> f.content.Some?)
    ensures ok ==> forall g | g in Items([], after) ::
              exists f :: f in Items([], before) && f.name == g.name && (f.content.Some? <==> g.content.Some?)
    ensures ok && StatusTells(before, after, o) ==>
              digest == Digest(Preimage(before)) && Preimage(after) == Preimage(before) && Files(after) == Files(before)
  {
    hide Digest, LittleEndian, EncodeItems, Affordable, Sort, Items, Sorted, Walkable, AllReadUnchanged, StatusTells;
    var files, snapshots;
    ok, files, snapshots := Collect(before);
    if !ok { return false, []; }
    SnapshotsAreSorted(before);
    ok, digest := HashSorted(files, snapshots, o);
    if !ok { return; }
    var filesAfter, snapshotsAfter;
    ok, filesAfter, snapshotsAfter := Collect(after);
    if !ok { return; }
    ok := SameNames(files, filesAfter);
    if !ok { return; }
    ok := SameSnapshots(snapshots, snapshotsAfter, o);
    if ok {
      FilesHaveTheirStatus(before, o);
      EntriesHaveTheirStatus(before, after, o);
      if StatusTells(before, after, o) { UndisturbedIsUnchanged(before, after, o); }
    }
  }

  // ------------------------------------------------------------------ what it means

  /** Two trees with the same files have the same preimage, in whatever order they are enumerated. */
  lemma EnumerationOrderDoesNotMatter(a: Listing, b: Listing)
    requires Sound(a) && Collectable(a) && Sound(b) && Collectable(b)
    requires Files(a) == Files(b)
    ensures Preimage(a) == Preimage(b)
  {
    hide Sort, Items;
    SnapshotsAreSorted(a);
    SnapshotsAreSorted(b);
    SortIsUnique(Sort(OnlyFiles(Items([], a))), Sort(OnlyFiles(Items([], b))));
  }

  /** Where the status of a path has not changed, neither has its content: what the guard relies on. */
  ghost predicate StatusTells(before: Listing, after: Listing, o: Observed) {
    && (forall f | f in Items([], before) && f.content.Some? ::
          o.reading(f.name).status == o.first(f.name) ==> o.reading(f.name).content == f.content)
    && (forall f, g | f in Items([], before) && g in Items([], after) && f.name == g.name ::
          o.first(f.name) == o.second(g.name) ==> f.content == g.content)
  }

  lemma {:induction false} ReadAsCollected(files: seq<Item>, o: Observed)
    requires forall i | 0 <= i < |files| :: o.reading(files[i].name).content == files[i].content
    ensures AsRead(files, o) == files
  {
    if files != [] { ReadAsCollected(files[..|files| - 1], o); }
  }

  lemma UndisturbedIsUnchanged(before: Listing, after: Listing, o: Observed)
    requires Sound(before) && Collectable(before) && Sound(after) && Collectable(after)
    requires Undisturbed(before, after, o) && StatusTells(before, after, o)
    ensures AsRead(SortedFiles(before), o) == SortedFiles(before)
    ensures Files(after) == Files(before) && Preimage(after) == Preimage(before)
  {
    hide Sort, Items, Sorted, ReadUnchanged, SnapshotMatches, Fits, Walkable;
    FilesAreReadAsCollected(before, after, o);
    FilesAreCollectedAgain(before, after, o);
    EnumerationOrderDoesNotMatter(before, after);
  }

  lemma FilesAreReadAsCollected(before: Listing, after: Listing, o: Observed)
    requires Sound(before) && Collectable(before)
    requires AllReadUnchanged(SortedFiles(before), o) && StatusTells(before, after, o)
    ensures AsRead(SortedFiles(before), o) == SortedFiles(before)
  {
    hide Sort, Items, Sorted, AllReadUnchanged, SnapshotMatches, Fits, Walkable, Affordable;
    SnapshotsAreSorted(before);
    FilesHaveTheirStatus(before, o);
    var files := SortedFiles(before);
    forall i | 0 <= i < |files|
      ensures o.reading(files[i].name).content == files[i].content
    {
      assert files[i] in Elements(files);
      OnlyFilesKeeps(Items([], before), files[i]);
    }
    ReadAsCollected(files, o);
  }

  /** Whatever was collected at first is collected again, with the same content; and nothing else is. */
  lemma FilesAreCollectedAgain(before: Listing, after: Listing, o: Observed)
    requires Sound(before) && Collectable(before) && Sound(after) && Collectable(after)
    requires SnapshotsMatch(SortedSnapshots(before), SortedSnapshots(after), o) && StatusTells(before, after, o)
    ensures Files(after) == Files(before)
  {
    hide Sort, Items, Sorted, ReadUnchanged, Fits, Walkable;
    var s, t := SortedSnapshots(before), SortedSnapshots(after);
    SnapshotsAreCollected(before);
    SnapshotsAreCollected(after);
    forall i | 0 <= i < |s|
      ensures s[i] == t[i]
    {
      assert SnapshotMatches(s[i], t[i], o);
      assert s[i] in Elements(s) && t[i] in Elements(t);
      NoEntryIsNameless(before);
      NoEntryIsNameless(after);
    }
    assert s == t;
    forall item
      ensures item in OnlyFiles(Items([], before)) <==> item in OnlyFiles(Items([], after))
    {
      OnlyFilesKeeps(Items([], before), item);
      OnlyFilesKeeps(Items([], after), item);
      assert item in Elements(s) <==> item in Elements(t);
    }
  }

  /** What the guard means for each file that is read. */
  lemma FilesHaveTheirStatus(before: Listing, o: Observed)
    requires Sound(before) && Collectable(before) && AllReadUnchanged(SortedFiles(before), o)
    ensures forall f | f in Items([], before) && f.content.Some? ::
              var r := o.reading(f.name);
              r.status == o.first(f.name) && r.content.Some? && |r.content.value| == |f.content.value|
  {
    hide Sort, Items, Sorted, Fits, Walkable;
    SnapshotsAreSorted(before);
    forall f | f in Items([], before) && f.content.Some?
      ensures ReadUnchanged(f, o)
    {
      OnlyFilesKeeps(Items([], before), f);
      assert f in Elements(SortedFiles(before));
    }
  }

  /** What the guard means for each entry, the root included. */
  lemma EntriesHaveTheirStatus(before: Listing, after: Listing, o: Observed)
    requires Sound(before) && Collectable(before) && Sound(after) && Collectable(after)
    requires SnapshotsMatch(SortedSnapshots(before), SortedSnapshots(after), o)
    ensures o.first([]) == o.second([])
    ensures forall f | f in Items([], before) ::
              && o.first(f.name) == o.second(f.name)
              && exists g :: g in Items([], after) && g.name == f.name && (g.content.Some? <==> f.content.Some?)
    ensures forall g | g in Items([], after) ::
              exists f :: f in Items([], before) && f.name == g.name && (f.content.Some? <==> g.content.Some?)
  {
    hide Sort, Items, Sorted, Fits, Walkable;
    var s, t := SortedSnapshots(before), SortedSnapshots(after);
    SnapshotsAreCollected(before);
    SnapshotsAreCollected(after);
    NoEntryIsNameless(before);
    NoEntryIsNameless(after);
    assert Item([], None) in Elements(s);
    forall f | f in Items([], before)
      ensures o.first(f.name) == o.second(f.name)
      ensures exists g :: g in Items([], after) && g.name == f.name && (g.content.Some? <==> f.content.Some?)
    {
      assert f in Elements(s);
      var i :| 0 <= i < |s| && s[i] == f;
      assert SnapshotMatches(s[i], t[i], o) && t[i] in Elements(t);
    }
    forall g | g in Items([], after)
      ensures exists f :: f in Items([], before) && f.name == g.name && (f.content.Some? <==> g.content.Some?)
    {
      assert g in Elements(t);
      var i :| 0 <= i < |t| && t[i] == g;
      assert SnapshotMatches(s[i], t[i], o) && s[i] in Elements(s);
    }
  }

  lemma NoEntryIsNameless(l: Listing)
    requires Collectable(l)
    ensures Item([], None) !in Items([], l)
    ensures forall item | item in Items([], l) :: item.name != []
  {
    ItemsAreNamed([], l, 0);
  }

  /** The snapshots are the root and the collected entries. */
  lemma SnapshotsAreCollected(l: Listing)
    requires Sound(l) && Collectable(l)
    ensures forall item :: item in Elements(SortedSnapshots(l)) <==> item == Item([], None) || item in Items([], l)
  {
    hide Sort, Items, Sorted, Walkable;
    ItemsAreDistinct([], l, 0);
    ItemsAreNamed([], l, 0);
    DistinctConcat([Item([], None)], Items([], l));
    SortSorts([Item([], None)] + Items([], l));
  }

  /** A tree that stays as it is passes the guard, whatever order the second collection enumerates it in. */
  lemma QuietTreeIsUndisturbed(before: Listing, after: Listing, o: Observed)
    requires Sound(before) && Collectable(before) && Sound(after) && Collectable(after)
    requires Elements(Items([], before)) == Elements(Items([], after))
    requires forall f | f in Files(before) :: o.reading(f.name).content == f.content
    requires forall name :: o.first(name) == o.second(name) == o.reading(name).status
    ensures Undisturbed(before, after, o)
  {
    hide Sort, Items, Sorted, Walkable, Fits, Elements;
    SameItemsSortAlike(before, after);
    FilesAreReadUnchanged(before, o);
  }

  lemma SameItemsSortAlike(a: Listing, b: Listing)
    requires Sound(a) && Collectable(a) && Sound(b) && Collectable(b)
    requires Elements(Items([], a)) == Elements(Items([], b))
    ensures SortedSnapshots(a) == SortedSnapshots(b) && SortedFiles(a) == SortedFiles(b)
  {
    hide Sort, Items, Sorted, Walkable, Fits, Elements;
    SnapshotsAreSorted(a);
    SnapshotsAreSorted(b);
    SnapshotsHaveElements(a);
    SnapshotsHaveElements(b);
    SortIsUnique(SortedSnapshots(a), SortedSnapshots(b));
    SameFilesFromSameItems(a, b);
    SortIsUnique(SortedFiles(a), SortedFiles(b));
  }

  lemma SnapshotsHaveElements(l: Listing)
    requires Sound(l) && Collectable(l)
    ensures Elements(SortedSnapshots(l)) == {Item([], None)} + Elements(Items([], l))
  {
    hide Items, Walkable, Fits, SortedSnapshots;
    SnapshotsAreCollected(l);
  }

  lemma FilesAreReadUnchanged(l: Listing, o: Observed)
    requires Sound(l) && Collectable(l)
    requires forall f | f in Files(l) :: o.reading(f.name).content == f.content
    requires forall name :: o.first(name) == o.reading(name).status
    ensures AllReadUnchanged(SortedFiles(l), o)
  {
    hide Sort, Items, Sorted, Walkable, Fits;
    SnapshotsAreSorted(l);
    forall i | 0 <= i < |SortedFiles(l)|
      ensures ReadUnchanged(SortedFiles(l)[i], o)
    {
      assert SortedFiles(l)[i] in Elements(SortedFiles(l));
    }
  }

  lemma SameFilesFromSameItems(a: Listing, b: Listing)
    requires Elements(Items([], a)) == Elements(Items([], b))
    ensures Files(a) == Files(b)
  {
    forall item
      ensures item in OnlyFiles(Items([], a)) <==> item in OnlyFiles(Items([], b))
    {
      OnlyFilesKeeps(Items([], a), item);
      OnlyFilesKeeps(Items([], b), item);
      assert item in Elements(Items([], a)) <==> item in Elements(Items([], b));
    }
  }

  /** No two of these contents have the same digest. */
  ghost predicate CollisionFree(items: set<Item>) {
    forall i, j | i in items && j in items && ContentDigest(i) == ContentDigest(j) :: i.content == j.content
  }

  lemma {:induction false} NamesAreSmall(items: seq<Item>)
    requires NameBytes(items) <= MAX_PATH_BYTES
    ensures Small(items)
  {
    if items != [] { NamesAreSmall(items[1..]); }
  }

  lemma SortedFilesAreSmall(l: Listing)
    requires Sound(l) && Collectable(l)
    ensures var files := Sort(OnlyFiles(Items([], l))); Small(files) && |files| <= MAX_ENTRIES
  {
    var items := Items([], l);
    ItemsAreDistinct([], l, 0);
    OnlyFilesDistinct(items);
    FilesAreFewer(items);
    SortSorts(OnlyFiles(items));
    NamesAreSmall(OnlyFiles(items));
    forall i | 0 <= i < |Sort(OnlyFiles(items))|
      ensures |Sort(OnlyFiles(items))[i].name| < 0x1_0000_0000
    {
      assert Sort(OnlyFiles(items))[i] in Elements(OnlyFiles(items));
    }
  }

  /** The preimage identifies the files: with collision-free content digests it is injective on trees. */
  lemma PreimageIdentifiesFiles(a: Listing, b: Listing)
    requires Sound(a) && Collectable(a) && Sound(b) && Collectable(b)
    requires CollisionFree(Files(a) + Files(b))
    ensures Preimage(a) == Preimage(b) <==> Files(a) == Files(b)
  {
    if Files(a) == Files(b) {
      EnumerationOrderDoesNotMatter(a, b);
    } else if Preimage(a) == Preimage(b) {
      SamePreimageSameFiles(a, b);
    }
  }

  lemma SamePreimageSameFiles(a: Listing, b: Listing)
    requires Sound(a) && Collectable(a) && Sound(b) && Collectable(b)
    requires CollisionFree(Files(a) + Files(b))
    requires Preimage(a) == Preimage(b)
    ensures Files(a) == Files(b)
  {
    hide Sort, Items, LittleEndian, EncodeItems, ContentDigest, Sorted;
    var f, g := Sort(OnlyFiles(Items([], a))), Sort(OnlyFiles(Items([], b)));
    SortedFilesAreSmall(a);
    SortedFilesAreSmall(b);
    SnapshotsAreSorted(a);
    SnapshotsAreSorted(b);
    var p := Preimage(a);
    assert p[4..8] == LittleEndian(|f|) && p[4..8] == LittleEndian(|g|);
    LittleEndianIsInjective(|f|, |g|);
    assert p[8..] == EncodeItems(f) && p[8..] == EncodeItems(g);
    EncodingIsInjective(f, g);
    forall i | 0 <= i < |f|
      ensures f[i] == g[i]
    {
      assert f[i] in Elements(f) && g[i] in Elements(g);
    }
    assert f == g;
  }
}
