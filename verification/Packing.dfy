/** How nodes are laid end to end in the entry stream. */
module Packing {
  import opened Seqs
  import opened Bits
  import opened Fields
  import opened MergeSort
  import opened Format
  import opened Widths

  // ---------- the packing order ----------

  /** The file begins as ELF files do. */
  predicate Elf(content: bytes) {
    [0x7f, 0x45, 0x4c, 0x46] <= content
  }

  /** Bodies of different groups, the one before the other: ELF files, other files, directories, links. */
  ghost predicate Sooner(a: Body, b: Body) {
    || (a.RegularFile? && b.RegularFile? && Elf(a.content) && !Elf(b.content))
    || (a.RegularFile? && !b.RegularFile?)
    || (a.Directory? && b.SymbolicLink?)
  }

  lemma NtypeSooner(a: Body, b: Body)
    ensures Sooner(a, b) <==> Ntype(a) < Ntype(b)
  {
  }

  /** What strrchr finds: the end of a name that begins with a dot and has no other, if there is a dot at all. */
  lemma {:induction false} LastDotExactly(path: bytes, s: bytes)
    ensures LastDot(path) == None <==> 46 !in path
    ensures LastDot(path) == Some(s) <==> |s| <= |path| && s == path[|path| - |s|..] && s != [] && s[0] == 46
                                          && 46 !in s[1..]
  {
    if path != [] {
      LastDotExactly(path[1..], s);
      assert path == [path[0]] + path[1..];
      if |s| <= |path| - 1 {
        assert path[1..][|path| - 1 - |s|..] == path[|path| - |s|..];
      }
    }
  }

  /** strcmp's order: a string before those it begins, and otherwise by the first byte that differs. */
  lemma {:induction false} StrCmpExactly(a: bytes, b: bytes)
    ensures StrCmp(a, b) < 0 <==> a < b || exists i :: 0 <= i < |a| && i < |b| && a[..i] == b[..i] && a[i] < b[i]
  {
    if a != [] && b != [] {
      if a[0] == b[0] {
        StrCmpExactly(a[1..], b[1..]);
        SameHead(a, b);
      } else {
        assert a[..0] == b[..0];
      }
    }
  }

  lemma SameHead(a: bytes, b: bytes)
    requires a != [] && b != [] && a[0] == b[0]
    ensures a < b <==> a[1..] < b[1..]
    ensures (exists i :: 0 <= i < |a| && i < |b| && a[..i] == b[..i] && a[i] < b[i])
       <==> (exists i :: 0 <= i < |a| - 1 && i < |b| - 1 && a[1..][..i] == b[1..][..i] && a[1..][i] < b[1..][i])
  {
    assert a == [a[0]] + a[1..] && b == [b[0]] + b[1..];
    if i :| 0 <= i < |a| && i < |b| && a[..i] == b[..i] && a[i] < b[i] {
      assert a[1..][..i - 1] == a[..i][1..] && b[1..][..i - 1] == b[..i][1..] && a[1..][i - 1] < b[1..][i - 1];
    }
    if i :| 0 <= i < |a| - 1 && i < |b| - 1 && a[1..][..i] == b[1..][..i] && a[1..][i] < b[1..][i] {
      assert a[..i + 1] == [a[0]] + a[1..][..i] && b[..i + 1] == [b[0]] + b[1..][..i] && a[i + 1] < b[i + 1];
    }
  }

  ghost predicate NtypeLe(tbl: seq<Inode>, a: nat, b: nat) {
    a < |tbl| && b < |tbl| ==> Ntype(tbl[a].body) <= Ntype(tbl[b].body)
  }

  /** The comparator is not an order: "a" ties with ".c" and with ".a", which do not tie with each other. */
  lemma SortByTypeNotTransitive() returns (a: Inode, b: Inode, c: Inode)
    ensures var z := Attr(0, 0, 0, 0, 0, 0, 0);
            && a == Inode([DOT, 99], z, RegularFile([])) && b == Inode([97], z, RegularFile([]))
            && c == Inode([DOT, 97], z, RegularFile([]))
    ensures SortByType(a, b) <= 0 && SortByType(b, c) <= 0 && SortByType(a, c) > 0
  {
    var z := Attr(0, 0, 0, 0, 0, 0, 0);
    a := Inode([DOT, 99], z, RegularFile([]));
    b := Inode([97], z, RegularFile([]));
    c := Inode([DOT, 97], z, RegularFile([]));
    assert LastDot([97]) == None by { assert LastDot([97][1..]) == None; }
    assert LastDot([DOT, 99]) == Some([DOT, 99]) && LastDot([DOT, 97]) == Some([DOT, 97]) by {
      assert [DOT, 99][1..] == [99] && [99][1..] == [] && [DOT, 97][1..] == [97] && [97][1..] == [];
      assert LastDot([99]) == None && LastDot([97]) == None;
    }
    assert StrCmp([DOT, 99], [DOT, 97]) == StrCmp([99], [97]) by {
      assert [DOT, 99][1..] == [99] && [DOT, 97][1..] == [97];
    }
  }

  lemma {:induction false} StrCmpTotal(a: bytes, b: bytes)
    ensures (StrCmp(a, b) == 0 <==> a == b) && StrCmp(a, b) == -StrCmp(b, a)
  {
    if a != [] && b != [] && a[0] == b[0] {
      StrCmpTotal(a[1..], b[1..]);
      assert a == [a[0]] + a[1..] && b == [b[0]] + b[1..];
    }
  }

  lemma {:induction false} StrCmpTransitive(a: bytes, b: bytes, c: bytes)
    requires StrCmp(a, b) <= 0 && StrCmp(b, c) <= 0
    ensures StrCmp(a, c) <= 0
  {
    if a != [] && b != [] && c != [] && a[0] == b[0] == c[0] { StrCmpTransitive(a[1..], b[1..], c[1..]); }
  }

  ghost predicate ComparesTransitively(tbl: seq<Inode>) {
    forall a, b, c :: a in tbl && b in tbl && c in tbl && SortByType(a, b) <= 0 && SortByType(b, c) <= 0 ==>
      SortByType(a, c) <= 0
  }

  /** A file without a dot in one group with two files whose endings differ. */
  ghost predicate Mixed(x: Inode, y: Inode, z: Inode) {
    && x.body.RegularFile? && y.body.RegularFile? && z.body.RegularFile?
    && Elf(x.body.content) == Elf(y.body.content) == Elf(z.body.content)
    && LastDot(x.path).None? && LastDot(y.path).Some? && LastDot(z.path).Some? && LastDot(y.path) != LastDot(z.path)
  }

  lemma FilesTogether(a: Body, b: Body)
    requires a.RegularFile? && b.RegularFile?
    ensures Ntype(a) == Ntype(b) <==> Elf(a.content) == Elf(b.content)
  {
  }

  lemma MixedBreaks(x: Inode, y: Inode, z: Inode, tbl: seq<Inode>)
    requires Mixed(x, y, z) && x in tbl && y in tbl && z in tbl
    ensures !ComparesTransitively(tbl)
  {
    hide LastDot, StrCmp, Ntype, Elf;
    StrCmpTotal(LastDot(y.path).value, LastDot(z.path).value);
    FilesTogether(x.body, y.body);
    FilesTogether(x.body, z.body);
    assert SortByType(y, x) == 0 && SortByType(x, z) == 0 && SortByType(z, x) == 0 && SortByType(x, y) == 0;
    assert SortByType(y, z) > 0 || SortByType(z, y) > 0;
  }

  lemma UnmixedTransitive(a: Inode, b: Inode, c: Inode)
    requires !Mixed(b, a, c) && SortByType(a, b) <= 0 && SortByType(b, c) <= 0
    ensures SortByType(a, c) <= 0
  {
    hide LastDot, StrCmp, Ntype, Elf;
    var x, y, z := LastDot(a.path), LastDot(b.path), LastDot(c.path);
    if Ntype(a.body) == Ntype(c.body) && a.body.RegularFile? && c.body.RegularFile? && x.Some? && z.Some? {
      if b.body.RegularFile? && y.Some? {
        StrCmpTransitive(x.value, y.value, z.value);
      } else {
        FilesAlike(a.body, b.body);
        FilesTogether(a.body, b.body);
        FilesTogether(a.body, c.body);
        StrCmpTotal(x.value, z.value);
      }
    }
  }

  lemma FilesAlike(a: Body, b: Body)
    requires a.RegularFile? && Ntype(a) == Ntype(b)
    ensures b.RegularFile?
  {
  }

  /**
    Exactly when it is one on a table: when no file without a dot is in a group with two files whose endings
    differ.
   */
  lemma TransitiveExactly(tbl: seq<Inode>)
    ensures ComparesTransitively(tbl) <==> !exists x, y, z :: x in tbl && y in tbl && z in tbl && Mixed(x, y, z)
  {
    hide SortByType, Mixed;
    if x, y, z :| x in tbl && y in tbl && z in tbl && Mixed(x, y, z) {
      MixedBreaks(x, y, z, tbl);
    } else {
      forall a, b, c | a in tbl && b in tbl && c in tbl && SortByType(a, b) <= 0 && SortByType(b, c) <= 0
        ensures SortByType(a, c) <= 0
      {
        UnmixedTransitive(a, b, c);
      }
    }
  }

  /** Sorting with it still puts the groups in order. */
  lemma OrderByNtype(tbl: seq<Inode>, i: nat, j: nat)
    requires i < j < |tbl|
    ensures Ntype(tbl[Order(tbl)[i]].body) <= Ntype(tbl[Order(tbl)[j]].body)
  {
    var le := (a: nat, b: nat) => NtypeLe(tbl, a, b);
    var s: seq<nat> := Iota(|tbl|);
    assert Respects(Elems(s), TypeCmp(tbl), le);
    SortSorted(s, TypeCmp(tbl), le);
    SortedAt(Order(tbl), le, i, j);
  }

  /** Node `k` is packed before node `j`. */
  ghost predicate Before(tbl: seq<Inode>, k: nat, j: nat) {
    exists a, b :: 0 <= a < b < |tbl| && Order(tbl)[a] == k && Order(tbl)[b] == j
  }

  /** ELF files are packed first, then the other files, the directories, and the links, one behind the other. */
  lemma GroupsInOrder(tbl: seq<Inode>, db: DirBits, k: nat, j: nat)
    requires k < |tbl| && j < |tbl| && Sooner(tbl[k].body, tbl[j].body)
    ensures Before(tbl, k, j)
    ensures OffsetOf(tbl, db, k) + SizeOf(tbl, db, k) <= OffsetOf(tbl, db, j)
  {
    hide Order, Ser, Flat, Ntype, Sooner, IndexOf;
    InOrder(tbl, k);
    InOrder(tbl, j);
    var a, b := IndexOf(Order(tbl), k), IndexOf(Order(tbl), j);
    NtypeSooner(tbl[k].body, tbl[j].body);
    if b < a { OrderByNtype(tbl, b, a); }
    BeforeOffsets(tbl, db, a, b);
  }

  /** What is packed before ends before. */
  lemma BeforeOffsets(tbl: seq<Inode>, db: DirBits, a: nat, b: nat)
    requires a < b < |tbl|
    ensures OffsetOf(tbl, db, Order(tbl)[a]) + SizeOf(tbl, db, Order(tbl)[a]) <= OffsetOf(tbl, db, Order(tbl)[b])
  {
    hide Order, Ser, Flat, IndexOf;
    PlaceOf(tbl, a);
    PlaceOf(tbl, b);
    FlatTake(Packed(tbl, db), a);
    FlatLonger(Packed(tbl, db), a + 1, b);
  }

  lemma ByTypeTurned(a: Inode, b: Inode)
    ensures SortByType(a, b) == -SortByType(b, a)
  {
    hide LastDot, StrCmp, Ntype;
    var x, y := LastDot(a.path), LastDot(b.path);
    if x.Some? && y.Some? { StrCmpTotal(x.value, y.value); }
  }

  /** Where it is transitive the comparator ranks the node numbers. */
  lemma ComparesRank(tbl: seq<Inode>, s: seq<nat>)
    requires ComparesTransitively(tbl) && s == Iota(|tbl|)
    ensures Respects(Elems(s), TypeCmp(tbl), (x, y) => TypeCmp(tbl)(x, y) <= 0)
  {
    hide SortByType, ComparesTransitively;
    forall a: nat, b: nat, c: nat | a < |tbl| && b < |tbl| && c < |tbl| && SortByType(tbl[a], tbl[b]) <= 0
                                    && SortByType(tbl[b], tbl[c]) <= 0
      ensures SortByType(tbl[a], tbl[c]) <= 0
    {
      ComparesAt(tbl, tbl[a], tbl[b], tbl[c]);
    }
    forall a: nat, b: nat | a < |tbl| && b < |tbl|
      ensures SortByType(tbl[a], tbl[b]) == -SortByType(tbl[b], tbl[a])
    {
      ByTypeTurned(tbl[a], tbl[b]);
    }
  }

  lemma ComparesAt(tbl: seq<Inode>, a: Inode, b: Inode, c: Inode)
    requires ComparesTransitively(tbl) && a in tbl && b in tbl && c in tbl
    requires SortByType(a, b) <= 0 && SortByType(b, c) <= 0
    ensures SortByType(a, c) <= 0
  {
    hide SortByType;
  }

  /** Then it packs what it ranks lower first, and what ties in the order of the numbers. */
  lemma RankedBefore(tbl: seq<Inode>, k: nat, j: nat)
    requires ComparesTransitively(tbl) && k < |tbl| && j < |tbl|
    requires SortByType(tbl[k], tbl[j]) < 0 || (SortByType(tbl[k], tbl[j]) == 0 && k < j)
    ensures Before(tbl, k, j)
  {
    hide Order, SortByType, ComparesTransitively, IndexOf, Ties, Respects;
    InOrder(tbl, k);
    InOrder(tbl, j);
    var a, b := IndexOf(Order(tbl), k), IndexOf(Order(tbl), j);
    ByTypeTurned(tbl[k], tbl[j]);
    if SortByType(tbl[k], tbl[j]) < 0 {
      if b < a { RankedAt(tbl, b, a); }
    } else {
      TiedAt(tbl, k, j, a, b);
    }
  }

  lemma RankedAt(tbl: seq<Inode>, i: nat, j: nat)
    requires ComparesTransitively(tbl) && i < j < |tbl|
    ensures SortByType(tbl[Order(tbl)[i]], tbl[Order(tbl)[j]]) <= 0
  {
    hide SortByType, ComparesTransitively, Respects, Sorted;
    var s: seq<nat>, le := Iota(|tbl|), (x: nat, y: nat) => TypeCmp(tbl)(x, y) <= 0;
    ComparesRank(tbl, s);
    SortSorted(s, TypeCmp(tbl), le);
    SortedAt(Order(tbl), le, i, j);
  }

  lemma TiedAt(tbl: seq<Inode>, k: nat, j: nat, a: nat, b: nat)
    requires ComparesTransitively(tbl) && k < j < |tbl| && SortByType(tbl[k], tbl[j]) == 0
    requires a < |tbl| && b < |tbl| && Order(tbl)[a] == k && Order(tbl)[b] == j
    ensures a < b
  {
    hide SortByType, ComparesTransitively, Sorted, Filter;
    var s: seq<nat>, c := Iota(|tbl|), (x: nat) => x == k || x == j;
    ComparesRank(tbl, s);
    ByTypeTurned(tbl[k], tbl[j]);
    ByTypeTurned(tbl[k], tbl[k]);
    ByTypeTurned(tbl[j], tbl[j]);
    SortStable(s, TypeCmp(tbl), c);
    FilterHead(s, c, k);
    var first := Min(a, b);
    forall i | 0 <= i < first
      ensures !c(Order(tbl)[i])
    {
      if Order(tbl)[i] == k { OrderDistinct(tbl, i, a); }
      if Order(tbl)[i] == j { OrderDistinct(tbl, i, b); }
    }
    FilterHead(Order(tbl), c, first);
  }

  /** Files of one group with a dot in their names, the one's ending below the other's. */
  ghost predicate EndsSooner(a: Inode, b: Inode) {
    && a.body.RegularFile? && b.body.RegularFile? && Elf(a.body.content) == Elf(b.body.content)
    && LastDot(a.path).Some? && LastDot(b.path).Some? && StrCmp(LastDot(a.path).value, LastDot(b.path).value) < 0
  }

  lemma ByTypeExactly(a: Inode, b: Inode)
    ensures SortByType(a, b) < 0 <==> Sooner(a.body, b.body) || EndsSooner(a, b)
  {
    hide LastDot, StrCmp, Ntype, Sooner, Elf;
    NtypeSooner(a.body, b.body);
    if a.body.RegularFile? && b.body.RegularFile? { FilesTogether(a.body, b.body); }
  }

  /**
    The packing order, wherever the comparator is transitive: by group, in a group by the endings of the names,
    and otherwise by number.
   */
  lemma PackingOrder(tbl: seq<Inode>, k: nat, j: nat)
    requires ComparesTransitively(tbl) && k < |tbl| && j < |tbl| && k != j
    ensures var a, b := tbl[k], tbl[j];
            Before(tbl, k, j) <==> || Sooner(a.body, b.body) || EndsSooner(a, b)
                                   || (!Sooner(b.body, a.body) && !EndsSooner(b, a) && k < j)
  {
    hide Order, SortByType, ComparesTransitively, Sooner, EndsSooner;
    ByTypeExactly(tbl[k], tbl[j]);
    ByTypeExactly(tbl[j], tbl[k]);
    ByTypeTurned(tbl[k], tbl[j]);
    var first := SortByType(tbl[k], tbl[j]) < 0 || (SortByType(tbl[k], tbl[j]) == 0 && k < j);
    if first { RankedBefore(tbl, k, j); } else { RankedBefore(tbl, j, k); }
    NotBoth(tbl, k, j);
  }

  lemma NotBoth(tbl: seq<Inode>, k: nat, j: nat)
    ensures !(Before(tbl, k, j) && Before(tbl, j, k))
  {
    hide Order;
    if Before(tbl, k, j) && Before(tbl, j, k) {
      var a, b :| 0 <= a < b < |tbl| && Order(tbl)[a] == k && Order(tbl)[b] == j;
      var b', a' :| 0 <= b' < a' < |tbl| && Order(tbl)[b'] == j && Order(tbl)[a'] == k;
      OrderDistinct(tbl, a, a');
      OrderDistinct(tbl, b, b');
    }
  }

  lemma {:induction false} IotaCount(n: nat, x: nat)
    ensures multiset(Iota(n))[x] <= 1
  {
    if n > 0 {
      IotaCount(n - 1, x);
      assert Iota(n) == Iota(n - 1) + [n - 1];
      if x == n - 1 { assert x !in Iota(n - 1); }
    }
  }

  lemma TwiceIn(s: seq<nat>, i: nat, j: nat)
    requires i < j < |s| && s[i] == s[j]
    ensures multiset(s)[s[i]] >= 2
  {
    assert s == s[..j] + s[j..];
    assert s[..j][i] == s[i] && s[j..][0] == s[j];
    assert s[i] in multiset(s[..j]) && s[j] in multiset(s[j..]);
  }

  /** The packing order is a rearrangement of all node numbers. */
  lemma OrderPermutes(tbl: seq<Inode>)
    ensures multiset(Order(tbl)) == multiset(Iota(|tbl|))
  {
    hide Sort;
    SortPermutes<nat>(Iota(|tbl|), TypeCmp(tbl));
  }

  /** Every number is packed once. */
  lemma OrderDistinct(tbl: seq<Inode>, i: nat, j: nat)
    requires i < |tbl| && j < |tbl| && Order(tbl)[i] == Order(tbl)[j]
    ensures i == j
  {
    var s: seq<nat> := Iota(|tbl|);
    SortPermutes(s, TypeCmp(tbl));
    IotaCount(|tbl|, Order(tbl)[i]);
    if i < j { TwiceIn(Order(tbl), i, j); }
    if j < i { TwiceIn(Order(tbl), j, i); }
  }

  lemma PlaceOf(tbl: seq<Inode>, i: nat)
    requires i < |tbl|
    ensures Order(tbl)[i] in Order(tbl) && IndexOf(Order(tbl), Order(tbl)[i]) == i
  {
    OrderDistinct(tbl, IndexOf(Order(tbl), Order(tbl)[i]), i);
  }

  // ---------- extents ----------

  /** A node's bytes are found at its offset. */
  lemma Extent(tbl: seq<Inode>, db: DirBits, k: nat)
    requires k < |tbl|
    ensures OffsetOf(tbl, db, k) + SizeOf(tbl, db, k) <= |Stream(tbl, db)|
    ensures Stream(tbl, db)[OffsetOf(tbl, db, k)..OffsetOf(tbl, db, k) + SizeOf(tbl, db, k)] == Ser(db, tbl[k].body)
  {
    hide Order, Ser, Flat;
    InOrder(tbl, k);
    FlatAt(Packed(tbl, db), IndexOf(Order(tbl), k));
  }

  /**
    The extents tile the stream in packing order: the first starts at 0, each next where the one before ends,
    the last at the end.
   */
  lemma Tiling(tbl: seq<Inode>, db: DirBits, i: nat)
    requires i < |tbl|
    ensures var k := Order(tbl)[i];
            && (i == 0 ==> OffsetOf(tbl, db, k) == 0)
            && (i + 1 < |tbl| ==> OffsetOf(tbl, db, Order(tbl)[i + 1]) == OffsetOf(tbl, db, k) + SizeOf(tbl, db, k))
            && (i + 1 == |tbl| ==> |Stream(tbl, db)| == OffsetOf(tbl, db, k) + SizeOf(tbl, db, k))
  {
    hide Order, Ser;
    PlaceOf(tbl, i);
    FlatTake(Packed(tbl, db), i);
    if i + 1 < |tbl| { PlaceOf(tbl, i + 1); } else { FlatAll(Packed(tbl, db)); }
  }

  /** Directories and links are never empty. */
  lemma NotEmpty(tbl: seq<Inode>, k: nat)
    requires k < |tbl| && !tbl[k].body.RegularFile?
    ensures SizeOf(tbl, DirBitsOf(tbl), k) > 0
  {
    if tbl[k].body.Directory? {
      hide Blog, MaxOf;
      MaxOfBound(tbl, ParentOf, k);
      MaxOfBound(tbl, NentriesOf, k);
      BlogLeast(MaxOf(tbl, ParentOf));
      BlogLeast(MaxOf(tbl, NentriesOf));
      var db := DirBitsOf(tbl);
      var vs: seq<int> := [tbl[k].body.parent, |tbl[k].body.entries|];
      RecordLength(HeaderWs(db), vs);
      assert Pos(HeaderWs(db), 2) == Pos(HeaderWs(db), 1) + db.nentries;
    }
  }

  /**
    With a directory among the nodes every node, even an empty file, starts inside the stream: empty
    ones are files, and files are packed before directories.
   */
  lemma StartsInside(tbl: seq<Inode>, k: nat)
    requires Rooted(tbl) && k < |tbl|
    ensures OffsetOf(tbl, DirBitsOf(tbl), k) < |Stream(tbl, DirBitsOf(tbl))|
  {
    hide Order, Ser, Flat, DirBitsOf, Packed;
    var db := DirBitsOf(tbl);
    Extent(tbl, db, k);
    if tbl[k].body.RegularFile? {
      Extent(tbl, db, 0);
      NotEmpty(tbl, 0);
      InOrder(tbl, k);
      InOrder(tbl, 0);
      var i, r := IndexOf(Order(tbl), k), IndexOf(Order(tbl), 0);
      if r < i { OrderByNtype(tbl, r, i); }
      FlatLonger(Packed(tbl, db), i, r);
    } else {
      NotEmpty(tbl, k);
    }
  }

  /** So the block a node starts in exists. */
  lemma BlockExists(tbl: seq<Inode>, log2: nat, k: nat)
    requires Rooted(tbl) && k < |tbl|
    ensures OffsetOf(tbl, DirBitsOf(tbl), k) / Pow2(log2) < BlockCount(|Stream(tbl, DirBitsOf(tbl))|, log2)
  {
    StartsInside(tbl, k);
    DivBelow(OffsetOf(tbl, DirBitsOf(tbl), k), |Stream(tbl, DirBitsOf(tbl))|, Pow2(log2));
  }

  lemma DivBelow(a: nat, n: nat, m: nat)
    requires a < n && m > 0
    ensures a / m < (n + m - 1) / m
  {
    var q, t := a / m, (n + m - 1) / m;
    assert a == q * m + a % m;
    assert n + m - 1 == t * m + (n + m - 1) % m;
    assert (q - t) * m == q * m - t * m;
    MulSign(q - t, m);
  }
}
