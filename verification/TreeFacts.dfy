/**
 The tree digest in bytes and numbers: the preimage of one small tree, and the limits.
 */
module TreeFacts {
  import opened Bytes
  import opened Receipts
  import opened TreeHash

  /** A directory "d" with a file "a" in it, and a file "b" beside it. */
  function SmallTree(x: seq<Byte>, y: seq<Byte>): Listing {
    Directory([100], File([97], x, End), File([98], y, End))
  }

  lemma SmallTreeItems(x: seq<Byte>, y: seq<Byte>)
    ensures Items([], SmallTree(x, y)) ==
              [Item([100], None), Item([100, 47, 97], Some(x)), Item([98], Some(y))]
  {
    var inside := File([97], x, End);
    assert Join([100], [97]) == [100, 47, 97];
    assert Items([100], inside) == [Item([100, 47, 97], Some(x))];
    assert Items([], File([98], y, End)) == [Item([98], Some(y))];
  }

  lemma SmallTreeSorted(x: seq<Byte>, y: seq<Byte>)
    ensures SortedFiles(SmallTree(x, y)) == [Item([98], Some(y)), Item([100, 47, 97], Some(x))]
  {
    SmallTreeItems(x, y);
    hide Items, SmallTree;
    var d, a, b := Item([100], None), Item([100, 47, 97], Some(x)), Item([98], Some(y));
    assert [d, a, b][1..] == [a, b] && [a, b][1..] == [b] && [b][1..] == [];
    assert OnlyFiles([]) == [];
    assert OnlyFiles([b]) == [b];
    assert OnlyFiles([a, b]) == [a, b];
    assert OnlyFiles([d, a, b]) == [a, b];
    assert Sort([]) == [] && Sort([b]) == [b];
    assert Before(b.name, a.name) && !Before(a.name, b.name);
    assert Insert(a, []) == [a];
    assert Sort([a, b]) == Insert(a, [b]) == [b, a];
  }

  /** "KHT1", two files, and for each in name order the length of its name, the name and the digest. */
  lemma SmallTreePreimage(x: seq<Byte>, y: seq<Byte>)
    ensures Preimage(SmallTree(x, y)) ==
              [75, 72, 84, 49] + [2, 0, 0, 0]
              + ([1, 0, 0, 0] + [98] + Sha256.Digest(y))
              + ([3, 0, 0, 0] + [100, 47, 97] + Sha256.Digest(x))
  {
    hide Sort, Sha256.Digest, Items, SmallTree;
    SmallTreeSorted(x, y);
    var a, b := Item([100, 47, 97], Some(x)), Item([98], Some(y));
    assert [b, a][..1] == [b] && [b][..0] == [];
    assert LittleEndian(1) == [1, 0, 0, 0] && LittleEndian(2) == [2, 0, 0, 0] && LittleEndian(3) == [3, 0, 0, 0];
    hide LittleEndian;
    assert EncodeItem(a) == [3, 0, 0, 0] + [100, 47, 97] + Sha256.Digest(x);
    assert EncodeItem(b) == [1, 0, 0, 0] + [98] + Sha256.Digest(y);
    assert EncodeItems([]) == [];
    assert EncodeItems([b]) == EncodeItem(b);
    assert EncodeItems([b, a]) == EncodeItem(b) + EncodeItem(a);
  }

  // ----------------------------------------------------------------------- the limits

  /** 60000 entries, 16 MiB of names, 256 MiB for one file and 2 GiB for all of them. */
  lemma LimitsInNumbers(l: Listing)
    ensures Admissible(l) <==>
              && Walkable(l, 0)
              && |Items([], l)| <= 60000 && NameBytes(Items([], l)) <= 16777216
              && (forall i | 0 <= i < |SortedFiles(l)| :: Size(SortedFiles(l)[i]) <= 268435456)
              && TotalBytes(SortedFiles(l)) <= 2147483648
  {
  }

  function Nested(depth: nat): Listing {
    if depth == 0 then End else Directory([100], Nested(depth - 1), End)
  }

  lemma {:induction false} NestedFrom(depth: nat, start: nat)
    ensures Walkable(Nested(depth), start) <==> start + depth <= 128
  {
    if depth > 0 {
      NestedFrom(depth - 1, start + 1);
      assert Walkable(End, start) <==> start <= 128;
    }
  }

  /** Directories may be nested 128 deep. */
  lemma NestingLimit(depth: nat)
    ensures Walkable(Nested(depth), 0) <==> depth <= 128
  {
    NestedFrom(depth, 0);
  }

  /** The names that the walk refuses: empty, ".", "..", and whatever contains a slash or a backslash. */
  lemma RefusedNames(name: Name, content: seq<Byte>)
    ensures Walkable(File(name, content, End), 0) <==>
              |name| > 0 && name != [46] && name != [46, 46] && 47 !in name && 92 !in name
    ensures !Walkable(Other(name, End), 0)
  {
    assert Walkable(End, 0);
  }
}
