/** Building an image of a source tree and extracting it again, by the programs themselves. */
module EndToEnd {
  import opened Seqs
  import opened Bits
  import opened Compressors
  import opened Format
  import opened Reader
  import opened Tables
  import opened Scanning
  import opened Sharing
  import opened RoundTrip
  import opened Sources
  import opened Builders
  import opened Output
  import opened Extraction
  import opened Traversals
  import Unfs

  lemma ScanIsRooted(t: Tree<Stat>, dedup: bool)
    requires Proper(t) && t.Dir?
    ensures Rooted(Scanning.Scan(t, dedup))
  {
    hide Scanning.Scan;
    var r := ScanRepresents(t, dedup);
  }

  /** mkfs: scanning the source and writing the image. */
  method Mkfs(t: Tree<Stat>, o: Opts, blockSize: nat, c: Compressor, njobs: nat, hash: int -> nat, ghost log2: nat)
    returns (r: Option<bytes>)
    requires Proper(t) && t.Dir? && njobs > 0 && 12 <= log2 <= 20 && blockSize == Pow2(log2)
    requires Packable(Scanning.Scan(t, !o.noDuplicates), o, log2, c)
    ensures r == match Plan(Scanning.Scan(t, !o.noDuplicates), o, log2, c)
                 case None => None
                 case Some(l) => Some(Image(l, o))
  {
    hide Builder.Holds, Packable, Plan, Scanning.Scan, Proper, Image, Pow2;
    ScanIsRooted(t, !o.noDuplicates);
    var b := new Builder(o, hash);
    ghost var tbl := b.Scan(t);
    r := OutputWrite(b, blockSize, c, njobs, log2, tbl);
  }

  lemma {:induction false} StorableSame<A, B>(a: Tree<A>, b: Tree<B>)
    requires SameShape(a, b) && Storable(a)
    ensures Storable(b)
    decreases a
  {
    hide Plain;
    if a.Dir? {
      forall i | 0 <= i < |b.kids|
        ensures Storable(b.kids[i])
      {
        StorableSame(a.kids[i], b.kids[i]);
      }
    }
  }

  /** What stands on the disk depends on the shape alone. */
  lemma {:induction false} BuiltSame<A, B>(p: Path, a: Tree<A>, b: Tree<B>)
    requires SameShape(a, b)
    ensures Built(p, a) == Built(p, b)
    decreases a
  {
    if a.Dir? { BuiltAllSame(p, a.names, a.kids, b.kids); }
  }

  lemma {:induction false} BuiltAllSame<A, B>(p: Path, names: seq<bytes>, a: seq<Tree<A>>, b: seq<Tree<B>>)
    requires |a| == |b| && forall i :: 0 <= i < |a| ==> SameShape(a[i], b[i])
    ensures BuiltAll(p, names, a) == BuiltAll(p, names, b)
    decreases a
  {
    hide SameShape, Built;
    if a != [] && names != [] {
      BuiltSame(p + [names[0]], a[0], b[0]);
      BuiltAllSame(p, names[1..], a[1..], b[1..]);
    }
  }

  /** What an item stands as. */
  function WhatOf<A>(t: Tree<A>): What {
    match t
    case File(_, content) => AFile(content)
    case Link(_, target) => ALink(target)
    case Dir(_, _, _) => ADirectory
  }

  /** What stands at a path below the place of a tree is its item at that path, and nothing else is there. */
  lemma {:induction false} BuiltAt<A>(p: Path, t: Tree<A>, path: seq<bytes>)
    requires Storable(t)
    ensures p + path in Built(p, t) <==> ItemAt(t, path).Some?
    ensures ItemAt(t, path).Some? ==> Built(p, t)[p + path] == WhatOf(ItemAt(t, path).value)
    decreases t
  {
    hide Plain;
    if path == [] {
      assert p + path == p;
      if t.Dir? { BuiltAllBelow(p, t.names, t.kids); }
    } else if t.Dir? {
      BuiltAllAt(p, t.names, t.kids, path);
    }
  }

  lemma {:induction false} BuiltAllAt<A>(p: Path, names: seq<bytes>, kids: seq<Tree<A>>, path: seq<bytes>)
    requires |names| == |kids| && (forall i :: 0 <= i < |kids| ==> Storable(kids[i])) && path != []
    requires forall i, j :: 0 <= i < j < |names| ==> names[i] != names[j]
    ensures var i := Place(names, path[0]);
            && (p + path in BuiltAll(p, names, kids) <==> i.Some? && ItemAt(kids[i.value], path[1..]).Some?)
            && (i.Some? && ItemAt(kids[i.value], path[1..]).Some? ==>
                  BuiltAll(p, names, kids)[p + path] == WhatOf(ItemAt(kids[i.value], path[1..]).value))
    decreases kids
  {
    hide Storable, Built, ItemAt;
    if kids != [] {
      var q := p + [names[0]];
      BuiltAllAt(p, names[1..], kids[1..], path);
      BuiltAllBelow(p, names[1..], kids[1..]);
      BuiltBelow(q, kids[0]);
      assert (p + path)[|p|] == path[0];
      if path[0] == names[0] {
        BuiltAt(q, kids[0], path[1..]);
        assert q + path[1..] == p + path;
        assert names[0] !in names[1..];
      } else {
        Elsewhere(p, names[0], path);
      }
    }
  }

  lemma Elsewhere(p: Path, name: bytes, path: seq<bytes>)
    requires path != [] && path[0] != name
    ensures !(p + [name] <= p + path)
  {
    assert (p + [name])[|p|] == name && (p + path)[|p|] == path[0];
  }

  /** A fresh output directory can be entered, and then has the source in it. */
  lemma FreshOutput(d: Disk, u: User, output: bytes, t: Tree<Stat>, x: Tree<Owner>)
    requires Storable(t) && SameShape(t, x) && t.Dir? && Plain(output) && Clear(d.ns, d.cwd + [output])
    ensures Storable(x) && Enter(d, u, output, 511).0
    ensures Extracting(d, u, output, StepOf(x)).ns == d.ns + Built(d.cwd + [output], t)
  {
    hide Plain, Storable, Enter, Extracting, Built, Clear;
    StorableSame(t, x);
    BuiltSame(d.cwd + [output], t, x);
    EntersDir(d, u, output, 511);
    ExtractingFresh(d, u, output, x);
  }

  /** Whatever the traversal of the root comes to, it extracts the tree the root yields. */
  lemma SameExtracting(m: Mounted, d: Disk, u: User, output: bytes, x: Tree<Owner>, s: Step)
    requires Yields(m, m.sb.root, x)
    requires Enter(d, u, output, 511).0 ==> Performs(m, m.sb.root, Enter(d, u, output, 511).1, u, HERE, s)
    ensures Extracting(d, u, output, s) == Extracting(d, u, output, StepOf(x))
  {
    hide Yields, Performs, Enter, Run, StepOf;
    var (entered, d') := Enter(d, u, output, 511);
    if entered { YieldsPerforms(m, m.sb.root, d', u, HERE, x, s); }
  }

  /**
    A source tree packed by mkfs and extracted by unfs: whatever the compressor, the number of jobs, the
    hash function and the options, the tool makes the calls of a traversal of `x`, a tree of the source's
    names, types, file bytes and link targets. A directory that was not there before then holds the
    source and nothing else on the disk has changed its content. The modes and ids handed to chmod and
    lchown are the source's, up to the options, exactly when nothing is shared or what is shared shows the
    same ones. Extraction fails only if building did, because something could not be compressed, or if the
    output directory cannot be entered.
   */
  method PackAndExtract(t: Tree<Stat>, o: Opts, blockSize: nat, c: Compressor, njobs: nat, hash: int -> nat,
                        registry: nat -> Option<Compressor>, output: bytes, w: Unfs.World, ghost log2: nat)
    returns (ok: bool, ghost x: Tree<Owner>)
    requires Proper(t) && t.Dir? && NulFree(t) && njobs > 0 && 12 <= log2 <= 20 && blockSize == Pow2(log2)
    requires Lawful(c) && registry(c.ctype) == Some(c)
    requires var tbl := Scanning.Scan(t, !o.noDuplicates);
             Packable(tbl, o, log2, c) && (Plan(tbl, o, log2, c).Some? ==> Fits(tbl, Plan(tbl, o, log2, c).value))
    modifies w
    ensures Plan(Scanning.Scan(t, !o.noDuplicates), o, log2, c).None? ==> !ok && w.disk == old(w.disk)
    ensures Plan(Scanning.Scan(t, !o.noDuplicates), o, log2, c).Some? ==>
              && ok == Enter(old(w.disk), w.user, output, 511).0
              && w.disk == Extracting(old(w.disk), w.user, output, StepOf(x))
              && SameShape(t, x) && (x == Extracted(WithAttrs(t), o) <==> o.noDuplicates || Alike(Leaves(t), o))
    ensures Plan(Scanning.Scan(t, !o.noDuplicates), o, log2, c).Some? && Storable(t) && Plain(output)
            && Clear(old(w.disk).ns, old(w.disk).cwd + [output]) ==>
              ok && Storable(x) && w.disk.ns == old(w.disk).ns + Built(old(w.disk).cwd + [output], t)
  {
    hide Packable, Plan, Scanning.Scan, Proper, Image, Pow2, Fits, Lawful, Mount, Yields, SameShape, NulFree,
      Extracted, WithAttrs, Alike, Leaves, Ends, Halts, Performs, Enter, Extracting, Storable, Plain, Clear, Built;
    x := File(Owner(0, 0, 0), []);
    var img := Mkfs(t, o, blockSize, c, njobs, hash, log2);
    if img.None? {
      return false, x;
    }
    ghost var m, y := WholeImage(t, o, log2, c, registry, Plan(Scanning.Scan(t, !o.noDuplicates), o, log2, c).value);
    x := y;
    var f := new Unfs.File(img.value);
    ghost var (entered, d) := Enter(w.disk, w.user, output, 511);
    YieldsEnds(m, m.sb.root, x, Depth(x));
    EndsHalts(m, m.sb.root, d, w.user, HERE, Depth(x));
    ghost var s;
    ok, s := Unfs.Extract(f, registry, output, w, Depth(x));
    SameExtracting(m, old(w.disk), w.user, output, x, s);
    if Storable(t) && Plain(output) && Clear(old(w.disk).ns, old(w.disk).cwd + [output]) {
      FreshOutput(old(w.disk), w.user, output, t, x);
    }
  }

  /** Of a modest source nothing more need be assumed. */
  method PackAndExtractModest(t: Tree<Stat>, o: Opts, blockSize: nat, c: Compressor, njobs: nat, hash: int -> nat,
                              registry: nat -> Option<Compressor>, output: bytes, w: Unfs.World, ghost log2: nat)
    returns (ok: bool, ghost x: Tree<Owner>)
    requires ModestSource(t) && NulFree(t) && Storable(t) && njobs > 0 && 12 <= log2 <= 20 && blockSize == Pow2(log2)
    requires Lawful(c) && registry(c.ctype) == Some(c) && c.ctype < U32
    requires Plain(output) && Clear(w.disk.ns, w.disk.cwd + [output])
    modifies w
    ensures ok <==> Plan(Scanning.Scan(t, !o.noDuplicates), o, log2, c).Some?
    ensures w.disk == if ok then Extracting(old(w.disk), w.user, output, StepOf(x)) else old(w.disk)
    ensures ok ==> w.disk.ns == old(w.disk).ns + Built(old(w.disk).cwd + [output], t)
    ensures ok ==>
              Storable(x) && SameShape(t, x)
              && (x == Extracted(WithAttrs(t), o) <==> o.noDuplicates || Alike(Leaves(t), o))
  {
    hide Packable, Plan, Scanning.Scan, Proper, Image, Pow2, Fits, Lawful, SameShape, NulFree, Extracted, WithAttrs,
      Alike, Leaves, Enter, Extracting, Storable, Plain, Clear, Built, Items, Weight, StatsFit;
    SourceSuffices(t, o, log2, c);
    ok, x := PackAndExtract(t, o, blockSize, c, njobs, hash, registry, output, w, log2);
  }
}
