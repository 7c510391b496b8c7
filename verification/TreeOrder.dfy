/**
 The order in which `readdir` happens to return entries has no influence on the tree digest.

 A tree is a set of nodes at every level, so two listings are the same tree exactly when one is
 the other with its directories enumerated in another order, at any depth.
 */
module TreeOrder {
  import opened Bytes
  import opened Receipts
  import opened TreeHash

  datatype Node =
    | FileNode(name: Name, content: seq<Byte>)
    | DirectoryNode(name: Name, inside: set<Node>)
    | OtherNode(name: Name)

  function TreeOf(l: Listing): set<Node> {
    match l
    case End => {}
    case File(name, content, rest) => {FileNode(name, content)} + TreeOf(rest)
    case Directory(name, inside, rest) => {DirectoryNode(name, TreeOf(inside))} + TreeOf(rest)
    case Other(name, rest) => {OtherNode(name)} + TreeOf(rest)
  }

  /** The item is the entry of the node, or of something inside it. */
  predicate Yields(parent: Name, node: Node, item: Item)
    decreases node
  {
    match node
    case FileNode(name, content) => item == Item(Join(parent, name), Some(content))
    case DirectoryNode(name, inside) =>
      item == Item(Join(parent, name), None) || exists n | n in inside :: Yields(Join(parent, name), n, item)
    case OtherNode(name) => item == Item(Join(parent, name), None)
  }

  predicate NodeWalkable(node: Node, depth: nat) {
    match node
    case FileNode(name, _) => ValidComponent(name)
    case DirectoryNode(name, inside) =>
      ValidComponent(name) && depth < MAX_DEPTH && forall n | n in inside :: NodeWalkable(n, depth + 1)
    case OtherNode(_) => false
  }

  lemma DirectoryYields(parent: Name, name: Name, inside: set<Node>, item: Item)
    ensures Yields(parent, DirectoryNode(name, inside), item) <==>
              item == Item(Join(parent, name), None) || exists n | n in inside :: Yields(Join(parent, name), n, item)
  {
  }

  lemma DirectoryWalkable(name: Name, inside: set<Node>, depth: nat)
    ensures NodeWalkable(DirectoryNode(name, inside), depth) <==>
              ValidComponent(name) && depth < MAX_DEPTH && forall n | n in inside :: NodeWalkable(n, depth + 1)
  {
  }

  /** What is collected is a matter of the tree. */
  lemma {:induction false} ItemsOfTree(parent: Name, l: Listing, item: Item)
    ensures item in Items(parent, l) <==> exists n | n in TreeOf(l) :: Yields(parent, n, item)
    decreases l
  {
    if l.End? { return; }
    ItemsOfTree(parent, l.rest, item);
    if l.Directory? {
      ItemsOfTree(Join(parent, l.name), l.inside, item);
      DirectoryYields(parent, l.name, TreeOf(l.inside), item);
    }
    var head := HeadNode(l);
    assert TreeOf(l) == {head} + TreeOf(l.rest);
    assert Yields(parent, head, item) <==> item in HeadItems(parent, l);
    assert Items(parent, l) == HeadItems(parent, l) + Items(parent, l.rest);
  }

  function HeadNode(l: Listing): Node
    requires !l.End?
  {
    match l
    case File(name, content, _) => FileNode(name, content)
    case Directory(name, inside, _) => DirectoryNode(name, TreeOf(inside))
    case Other(name, _) => OtherNode(name)
  }

  /** Whether the walk accepts the entries is a matter of the tree. */
  lemma {:induction false} WalkableTree(l: Listing, depth: nat)
    ensures Walkable(l, depth) <==> depth <= MAX_DEPTH && forall n | n in TreeOf(l) :: NodeWalkable(n, depth)
    decreases l
  {
    if l.End? { return; }
    WalkableTree(l.rest, depth);
    if l.Directory? {
      WalkableTree(l.inside, depth + 1);
      DirectoryWalkable(l.name, TreeOf(l.inside), depth);
    }
    var head := HeadNode(l);
    assert TreeOf(l) == {head} + TreeOf(l.rest);
    assert depth <= MAX_DEPTH ==> (NodeWalkable(head, depth) <==> HeadWalkable(l, depth));
    assert head in TreeOf(l);
  }

  lemma SameTreeSameItems(a: Listing, b: Listing)
    requires TreeOf(a) == TreeOf(b)
    ensures Elements(Items([], a)) == Elements(Items([], b))
    ensures Files(a) == Files(b)
  {
    forall item
      ensures item in Items([], a) <==> item in Items([], b)
      ensures item in OnlyFiles(Items([], a)) <==> item in OnlyFiles(Items([], b))
    {
      ItemsOfTree([], a, item);
      ItemsOfTree([], b, item);
      OnlyFilesKeeps(Items([], a), item);
      OnlyFilesKeeps(Items([], b), item);
    }
  }

  // ----------------------------------------------------------- the budget of the walk

  lemma {:induction false} InsertAddsBytes(item: Item, items: seq<Item>)
    ensures NameBytes(Insert(item, items)) == |item.name| + NameBytes(items)
  {
    if items != [] && !Before(item.name, items[0].name) { InsertAddsBytes(item, items[1..]); }
  }

  lemma {:induction false} SortKeepsBytes(items: seq<Item>)
    ensures NameBytes(Sort(items)) == NameBytes(items)
  {
    if items != [] {
      SortKeepsBytes(items[1..]);
      InsertAddsBytes(items[0], Sort(items[1..]));
    }
  }

  /** Lists without repetition that have the same elements have the same sorted form. */
  lemma SameElementsSortAlike(a: seq<Item>, b: seq<Item>)
    requires Distinct(a) && Distinct(b) && Elements(a) == Elements(b)
    ensures Sort(a) == Sort(b) && |a| == |b| && NameBytes(a) == NameBytes(b)
  {
    hide Sort, Sorted, Distinct;
    SortSorts(a);
    SortSorts(b);
    SortIsUnique(Sort(a), Sort(b));
    SortKeepsBytes(a);
    SortKeepsBytes(b);
  }

  // ------------------------------------------------------------------- the theorem

  /**
   Two enumerations of one tree, reordered in any of its directories: the same files are
   hashed, the same trees are refused, and the digest is the same.
   */
  lemma EnumerationsAgree(a: Listing, b: Listing)
    requires Sound(a) && Sound(b) && TreeOf(a) == TreeOf(b)
    ensures Files(a) == Files(b)
    ensures Admissible(a) <==> Admissible(b)
    ensures Admissible(a) ==> Preimage(a) == Preimage(b)
  {
    hide Sort, Items, Walkable, Affordable, Elements;
    SameTreeSameItems(a, b);
    WalkableTree(a, 0);
    WalkableTree(b, 0);
    if Walkable(a, 0) {
      CollectedAlike(a, b);
      if Collectable(a) { EnumerationOrderDoesNotMatter(a, b); }
    }
  }

  lemma CollectedAlike(a: Listing, b: Listing)
    requires Sound(a) && Sound(b) && Walkable(a, 0) && Walkable(b, 0) && TreeOf(a) == TreeOf(b)
    ensures Fits(Items([], a)) <==> Fits(Items([], b))
    ensures Sort(OnlyFiles(Items([], a))) == Sort(OnlyFiles(Items([], b)))
  {
    hide Sort, Items, Walkable, Elements, Distinct, OnlyFiles;
    SameTreeSameItems(a, b);
    ItemsAreDistinct([], a, 0);
    ItemsAreDistinct([], b, 0);
    OnlyFilesDistinct(Items([], a));
    OnlyFilesDistinct(Items([], b));
    SameElementsSortAlike(Items([], a), Items([], b));
    SameElementsSortAlike(OnlyFiles(Items([], a)), OnlyFiles(Items([], b)));
  }

  /** Exchanging two neighbours in a directory stream is one such reordering. */
  lemma SwappedNeighboursHaveTheSameFiles(m: Name, x: seq<Byte>, n: Name, y: seq<Byte>, rest: Listing)
    ensures var a, b := File(m, x, File(n, y, rest)), File(n, y, File(m, x, rest));
            TreeOf(a) == TreeOf(b) && Files(a) == Files(b)
  {
    SameTreeSameItems(File(m, x, File(n, y, rest)), File(n, y, File(m, x, rest)));
  }
}
