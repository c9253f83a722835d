/** When a traversal comes back to the directory it started in, and where it stands when it does not. */
module Returning {
  import opened Seqs
  import opened Bits
  import opened Format
  import opened Reader
  import opened Extraction

  /** No file and no link with a block that does not uncompress. */
  ghost predicate Whole(s: Step) {
    !s.BrokenFile? && !s.BrokenLink? && (s.MakeDir? ==> forall i :: 0 <= i < |s.kids| ==> Whole(s.kids[i]))
  }

  /** Names a directory can hold, no two alike in one directory. */
  ghost predicate Neat(s: Step) {
    s.MakeDir? ==>
      && |s.names| == |s.kids| && (forall i :: 0 <= i < |s.kids| ==> Plain(s.names[i]) && Neat(s.kids[i]))
      && forall i, j :: 0 <= i < j < |s.names| ==> s.names[i] != s.names[j]
  }

  ghost predicate Linkfree(s: Step) {
    !s.MakeLink? && (s.MakeDir? ==> forall i :: 0 <= i < |s.kids| ==> Linkfree(s.kids[i]))
  }

  ghost predicate NoLinks(ns: Names) {
    forall q :: q in ns ==> !ns[q].ALink?
  }

  /** What belongs at `p`. */
  function Standing(p: Path, s: Step): Names
    decreases s
  {
    match s
    case MakeFile(_, content) => map[p := AFile(content)]
    case BrokenFile(_, content) => map[p := AFile(content)]
    case MakeLink(_, target) => if target == [] then map[] else map[p := ALink(target)]
    case MakeDir(_, names, kids) => map[p := ADirectory] + StandingAll(p, names, kids)
    case BrokenDir(_) => map[p := ADirectory]
    case BrokenLink => map[]
    case UnknownType => map[]
  }

  function StandingAll(p: Path, names: seq<bytes>, kids: seq<Step>): Names
    decreases kids
  {
    if kids == [] || names == [] then map[]
    else Standing(p + [names[0]], kids[0]) + StandingAll(p, names[1..], kids[1..])
  }

  lemma {:induction false} StandingBelow(p: Path, s: Step)
    ensures forall q :: q in Standing(p, s) ==> p <= q
    decreases s
  {
    if s.MakeDir? { StandingAllBelow(p, s.names, s.kids); }
  }

  lemma {:induction false} StandingAllBelow(p: Path, names: seq<bytes>, kids: seq<Step>)
    ensures forall q :: q in StandingAll(p, names, kids) ==> p <= q
    decreases kids
  {
    if kids != [] && names != [] {
      StandingBelow(p + [names[0]], kids[0]);
      StandingAllBelow(p, names[1..], kids[1..]);
    }
  }

  // ---------- whole traversals ----------

  lemma FinishKeeps(d: Disk, name: bytes, attr: Owner)
    ensures Finish(d, name, attr).ns == d.ns && Finish(d, name, attr).cwd == d.cwd
  {
    hide Followed, Named;
  }

  lemma WholeLeaf(d: Disk, u: User, name: bytes, s: Step)
    requires !s.MakeDir? && Whole(s) && Plain(name) && Clear(d.ns, d.cwd + [name])
    ensures Run(d, u, name, s).cwd == d.cwd && Run(d, u, name, s).ns == d.ns + Standing(d.cwd + [name], s)
  {
    hide Plain, Run, Built, Log, Owners;
    var p := d.cwd + [name];
    match s
    case MakeFile(attr, content) =>
      MakesFile(d, u, name, attr, content);
      assert Built(p, File(attr, content)) == map[p := AFile(content)] by { BuiltLeaf(p, File(attr, content)); }
    case MakeLink(attr, target) =>
      if target == [] {
        NoTarget(d, u, name, attr);
      } else {
        MakesLink(d, u, name, attr, target);
        BuiltLeaf(p, Link(attr, target));
      }
    case BrokenDir(attr) => EntersBroken(d, u, name, attr);
    case UnknownType => assert Run(d, u, name, s) == d by { RunsUnknown(d, u, name); }
  }

  lemma BuiltLeaf(p: Path, t: Tree<Owner>)
    ensures t.File? ==> Built(p, t) == map[p := AFile(t.content)]
    ensures t.Link? ==> Built(p, t) == map[p := ALink(t.target)]
  {
  }

  lemma RunsUnknown(d: Disk, u: User, name: bytes)
    ensures Run(d, u, name, UnknownType) == d
  {
  }

  lemma NoTarget(d: Disk, u: User, name: bytes, attr: Owner)
    requires Plain(name) && Clear(d.ns, d.cwd + [name])
    ensures Run(d, u, name, MakeLink(attr, [])) == d
  {
    hide Plain, Named;
    NamedPlain(d, name);
  }

  lemma EntersBroken(d: Disk, u: User, name: bytes, attr: Owner)
    requires Plain(name) && Clear(d.ns, d.cwd + [name])
    ensures Run(d, u, name, BrokenDir(attr)).cwd == d.cwd
    ensures Run(d, u, name, BrokenDir(attr)).ns == d.ns + map[d.cwd + [name] := ADirectory]
  {
    hide Plain, Enter;
    EntersDir(d, u, name, attr.mode);
  }

  /** The calls for a directory that can be made. */
  lemma RunsFreshDir(d: Disk, u: User, name: bytes, s: Step)
    requires s.MakeDir? && Plain(name) && Clear(d.ns, d.cwd + [name])
    ensures var d2 := RunAll(Entered(d, u, name, s.attr.mode), u, s.names, s.kids);
            Run(d, u, name, s).cwd == Parent(d2.cwd) && Run(d, u, name, s).ns == d2.ns
  {
    hide Plain, Enter, RunAll, Finish, Entered;
    EntersDir(d, u, name, s.attr.mode);
    var d2 := RunAll(Entered(d, u, name, s.attr.mode), u, s.names, s.kids);
    FinishKeeps(Up(d2), name, s.attr);
  }

  /**
    Whole traversals come back to where they started, links on the disk or in the image or not, and make
    everything where it belongs.
   */
  lemma {:induction false} WholeReturns(d: Disk, u: User, name: bytes, s: Step)
    requires Whole(s) && Neat(s) && Plain(name) && Clear(d.ns, d.cwd + [name])
    ensures Run(d, u, name, s).cwd == d.cwd && Run(d, u, name, s).ns == d.ns + Standing(d.cwd + [name], s)
    decreases s
  {
    hide Plain, Run, RunAll, Entered, StandingAll;
    if s.MakeDir? {
      var p, d1 := d.cwd + [name], Entered(d, u, name, s.attr.mode);
      RunsFreshDir(d, u, name, s);
      EntersDir(d, u, name, s.attr.mode);
      EnteredIs(d, u, name, s.attr.mode);
      WholeAllReturn(d1, u, s.names, s.kids);
      MapAssoc(d.ns, map[p := ADirectory], StandingAll(p, s.names, s.kids));
    } else {
      WholeLeaf(d, u, name, s);
    }
  }

  lemma EnteredIs(d: Disk, u: User, name: bytes, mode: nat)
    ensures var d1 := Entered(d, u, name, mode);
            d1.cwd == d.cwd + [name] && d1.ns == d.ns + map[d.cwd + [name] := ADirectory]
  {
  }

  /** Names and traversals as a directory holds them, none of the names taken. */
  ghost predicate Ready(d: Disk, names: seq<bytes>, kids: seq<Step>) {
    && |names| == |kids| && (forall i :: 0 <= i < |names| ==> Plain(names[i]) && Neat(kids[i]))
    && (forall i, j :: 0 <= i < j < |names| ==> names[i] != names[j])
    && forall i :: 0 <= i < |names| ==> Clear(d.ns, d.cwd + [names[i]])
  }

  lemma {:induction false} WholeAllReturn(d: Disk, u: User, names: seq<bytes>, kids: seq<Step>)
    requires Ready(d, names, kids) && forall i :: 0 <= i < |kids| ==> Whole(kids[i])
    ensures RunAll(d, u, names, kids).cwd == d.cwd
    ensures RunAll(d, u, names, kids).ns == d.ns + StandingAll(d.cwd, names, kids)
    decreases kids
  {
    hide Plain, Neat, Whole, Run, Standing;
    if kids != [] {
      var d1 := Run(d, u, names[0], kids[0]);
      WholeReturns(d, u, names[0], kids[0]);
      StillReady(d, d1, names, kids);
      WholeAllReturn(d1, u, names[1..], kids[1..]);
      MapAssoc(d.ns, Standing(d.cwd + [names[0]], kids[0]), StandingAll(d.cwd, names[1..], kids[1..]));
    } else {
      assert d.ns + map[] == d.ns;
    }
  }

  lemma StillReady(d: Disk, d1: Disk, names: seq<bytes>, kids: seq<Step>)
    requires Ready(d, names, kids) && kids != [] && d1.cwd == d.cwd
    requires d1.ns == d.ns + Standing(d.cwd + [names[0]], kids[0])
    ensures Ready(d1, names[1..], kids[1..])
  {
    hide Plain, Neat, Standing;
    var p := d.cwd + [names[0]];
    StandingBelow(p, kids[0]);
    forall i, q | 0 <= i < |names| - 1 && q in d1.ns
      ensures !(d.cwd + [names[1..][i]] <= q)
    {
      if q in Standing(p, kids[0]) { Apart(d.cwd, names[0], names[1..][i], q); }
    }
  }

  // ---------- broken traversals, without links ----------

  /** Without links a directory that is entered is the one named. */
  lemma EnterPlain(d: Disk, u: User, name: bytes, mode: nat)
    requires Plain(name) && NoLinks(d.ns)
    ensures var (entered, d') := Enter(d, u, name, mode);
            NoLinks(d'.ns) && d'.cwd == if entered then d.cwd + [name] else d.cwd
  {
    hide Plain, Named, Followed, Trim;
    var p := d.cwd + [name];
    NamedPlain(d, name);
    var d1 := Mkdir(d, u, name, mode).value;
    FollowNoLinks(d1, name);
  }

  lemma FollowNoLinks(d: Disk, name: bytes)
    requires Plain(name) && NoLinks(d.ns)
    ensures Followed(d, name).None? || Followed(d, name) == Some(d.cwd + [name])
  {
    hide Plain, Resolve;
    PlainSplit(name);
    if d.cwd + [name] in d.ns { FollowPlain(d, name); } else { Missing(d.ns, d.cwd, name); }
  }

  lemma Missing(ns: Names, at: Path, name: bytes)
    requires Plain(name) && at + [name] !in ns
    ensures Resolve(ns, at, [name], MAXSYMLINKS) == None
  {
  }

  lemma ParentBelow(q: Path, p: Path, name: bytes)
    requires q <= p + [name]
    ensures Parent(q) <= p
  {
  }

  /** Without links a traversal stands, in the end, in the directory it started in or above it. */
  lemma {:induction false} NeverBelow(d: Disk, u: User, name: bytes, s: Step)
    requires NoLinks(d.ns) && Linkfree(s) && Neat(s) && Plain(name)
    ensures NoLinks(Run(d, u, name, s).ns) && Run(d, u, name, s).cwd <= d.cwd
    decreases s
  {
    hide Plain, RunAll, Enter, Finish, Named;
    match s
    case MakeDir(attr, names, kids) =>
      EnterPlain(d, u, name, attr.mode);
      var (entered, d1) := Enter(d, u, name, attr.mode);
      if entered {
        AllNeverBelow(d1, u, names, kids);
        var d2 := RunAll(d1, u, names, kids);
        ParentBelow(d2.cwd, d.cwd, name);
        FinishKeeps(Up(d2), name, attr);
      }
    case BrokenDir(attr) =>
      EnterPlain(d, u, name, attr.mode);
      ParentBelow(d.cwd + [name], d.cwd, name);
    case MakeFile(attr, content) =>
      var d1 := Create(Unlink(d, name), u, name, attr.mode, content);
      if d1.Some? { FinishKeeps(d1.value, name, attr); }
    case BrokenFile(attr, content) =>
    case BrokenLink =>
    case UnknownType =>
  }

  lemma {:induction false} AllNeverBelow(d: Disk, u: User, names: seq<bytes>, kids: seq<Step>)
    requires NoLinks(d.ns) && |names| == |kids|
    requires forall i :: 0 <= i < |kids| ==> Linkfree(kids[i]) && Neat(kids[i]) && Plain(names[i])
    ensures NoLinks(RunAll(d, u, names, kids).ns) && RunAll(d, u, names, kids).cwd <= d.cwd
    decreases kids
  {
    hide Plain, Neat, Linkfree, Run, NoLinks;
    if kids != [] {
      NeverBelow(d, u, names[0], kids[0]);
      AllNeverBelow(Run(d, u, names[0], kids[0]), u, names[1..], kids[1..]);
    }
  }

  /** One that is not whole stands above it. */
  lemma {:induction false} BrokenRises(d: Disk, u: User, name: bytes, s: Step)
    requires !Whole(s) && Neat(s) && Linkfree(s) && NoLinks(d.ns) && Plain(name) && Clear(d.ns, d.cwd + [name])
             && d.cwd != []
    ensures |Run(d, u, name, s).cwd| < |d.cwd|
    decreases s
  {
    hide Plain, Run, RunAll, Entered;
    match s
    case MakeDir(attr, names, kids) =>
      RunsFreshDir(d, u, name, s);
      EntersDir(d, u, name, attr.mode);
      EnteredIs(d, u, name, attr.mode);
      BrokenAllRise(Entered(d, u, name, attr.mode), u, names, kids);
    case BrokenFile(attr, content) => RunsBroken(d, u, name, attr, content);
    case BrokenLink => RunsBrokenLink(d, u, name);
  }

  lemma RunsBrokenLink(d: Disk, u: User, name: bytes)
    ensures Run(d, u, name, BrokenLink).cwd == Parent(d.cwd)
  {
    hide Named;
  }

  lemma {:induction false} BrokenAllRise(d: Disk, u: User, names: seq<bytes>, kids: seq<Step>)
    requires Ready(d, names, kids) && NoLinks(d.ns) && d.cwd != []
    requires (forall i :: 0 <= i < |kids| ==> Linkfree(kids[i])) && exists i :: 0 <= i < |kids| && !Whole(kids[i])
    ensures |RunAll(d, u, names, kids).cwd| < |d.cwd|
    decreases kids
  {
    hide Plain, Neat, Whole, Linkfree, Run, Standing;
    var d1 := Run(d, u, names[0], kids[0]);
    NeverBelow(d, u, names[0], kids[0]);
    if Whole(kids[0]) {
      WholeReturns(d, u, names[0], kids[0]);
      StillReady(d, d1, names, kids);
      var i :| 0 <= i < |kids| && !Whole(kids[i]);
      assert kids[1..][i - 1] == kids[i];
      BrokenAllRise(d1, u, names[1..], kids[1..]);
    } else {
      BrokenRises(d, u, names[0], kids[0]);
      AllNeverBelow(d1, u, names[1..], kids[1..]);
    }
  }

  /**
    When the tool is back where it was: on a disk and in an image without links exactly when every file and
    link could be read, or it was at the root of the file system; otherwise it stands above. Then, and with
    links too, whole traversals make everything where it belongs.
   */
  lemma ComesBack(d: Disk, u: User, name: bytes, s: Step)
    requires Neat(s) && Plain(name) && Clear(d.ns, d.cwd + [name])
    ensures var d' := Run(d, u, name, s);
            && (Whole(s) ==> d'.cwd == d.cwd && d'.ns == d.ns + Standing(d.cwd + [name], s))
            && (NoLinks(d.ns) && Linkfree(s) ==>
                  && (d'.cwd == d.cwd <==> Whole(s) || d.cwd == [])
                  && (d'.cwd < d.cwd <==> !Whole(s) && d.cwd != []))
  {
    hide Plain, Run, Neat, Whole, Linkfree, Standing, NoLinks;
    if Whole(s) { WholeReturns(d, u, name, s); }
    if NoLinks(d.ns) && Linkfree(s) {
      NeverBelow(d, u, name, s);
      if !Whole(s) && d.cwd != [] { BrokenRises(d, u, name, s); }
    }
  }

  /** Entry `i` of a directory is made in that directory exactly when every file and link before it could be read. */
  lemma MadeWhereListed(d: Disk, u: User, names: seq<bytes>, kids: seq<Step>, i: nat)
    requires Ready(d, names, kids) && NoLinks(d.ns) && d.cwd != [] && i <= |kids|
    requires forall j :: 0 <= j < |kids| ==> Linkfree(kids[j])
    ensures RunAll(d, u, names[..i], kids[..i]).cwd == d.cwd <==> forall j :: 0 <= j < i ==> Whole(kids[j])
  {
    hide Plain, Neat, Whole, Linkfree, RunAll, NoLinks;
    if forall j :: 0 <= j < i ==> Whole(kids[j]) {
      WholeAllReturn(d, u, names[..i], kids[..i]);
    } else {
      var j :| 0 <= j < i && !Whole(kids[j]);
      assert kids[..i][j] == kids[j];
      BrokenAllRise(d, u, names[..i], kids[..i]);
    }
  }

  // ---------- links ----------

  lemma SplitTwo(a: byte, b: byte)
    requires a != SLASH && b != SLASH
    ensures Split([a, SLASH, b]) == [[a], [b]]
  {
    assert [a, SLASH, b][1..] == [SLASH, b] && [SLASH, b][1..] == [b] && [b][1..] == [];
    assert Split([]) == [[]];
    assert Split([b]) == [[b] + []] + Split([])[1..];
    assert [b] + [] == [b];
    assert Split([b]) == [[b]];
    assert Split([SLASH, b]) == [[]] + [[b]];
    assert Split([a, SLASH, b]) == [[a] + []] + [[b]];
    assert [a] + [] == [a];
  }

  /** A link to two directories down, entered, is left for the directory in between. */
  lemma ThroughLink(d: Disk, u: User, x: Owner, l: bytes, a: byte, b: byte)
    requires Plain(l) && a != SLASH && b != SLASH && Plain([a]) && Plain([b])
    requires d.cwd + [l] in d.ns && d.ns[d.cwd + [l]] == ALink([a, SLASH, b])
    requires IsDir(d.ns, d.cwd + [[a]]) && IsDir(d.ns, d.cwd + [[a]] + [[b]])
    ensures Run(d, u, l, MakeDir(x, [], [])).cwd == d.cwd + [[a]]
  {
    hide Plain, Named, Trim, Finish;
    NamedPlain(d, l);
    PlainSplit(l);
    SplitTwo(a, b);
    var none, one, two: seq<bytes> := [], [[b]], [[a], [b]];
    assert [l][1..] == none && two[1..] == one && one[1..] == none && two + none == two;
    assert Resolve(d.ns, d.cwd + [[a]] + [[b]], none, 39) == Some(d.cwd + [[a]] + [[b]]);
    NotDots([a]);
    NotDots([b]);
    assert Resolve(d.ns, d.cwd + [[a]], one, 39) == Some(d.cwd + [[a]] + [[b]]);
    assert Resolve(d.ns, d.cwd, two, 39) == Some(d.cwd + [[a]] + [[b]]);
    NotDots(l);
    assert Resolve(d.ns, d.cwd, [l], MAXSYMLINKS) == Some(d.cwd + [[a]] + [[b]]);
    var d1 := d.(cwd := d.cwd + [[a]] + [[b]]);
    assert Enter(d, u, l, x.mode) == (true, d1);
    assert RunAll(d1, u, [], []) == d1;
    assert Parent(d.cwd + [[a]] + [[b]]) == d.cwd + [[a]];
    FinishKeeps(Up(d1), l, x);
  }

  lemma NotDots(name: bytes)
    requires Plain(name)
    ensures name != [] && name != [DOT] && name != [DOT, DOT]
  {
  }

  /** Below the current directory "a": directories "q" and "q/r", and a link "l" to "q/r". */
  function LinkedDisk(): Disk {
    Disk(map[[[97]] := ADirectory, [[97], [108]] := ALink([113, SLASH, 114]), [[97], [113]] := ADirectory,
             [[97], [113], [114]] := ADirectory],
         map[], map[], [[97]])
  }

  lemma LinkedClear()
    ensures Clear(LinkedDisk().ns, [[97]] + [[110]])
  {
    var p: Path := [[97]] + [[110]];
    forall q | q in LinkedDisk().ns
      ensures !(p <= q)
    {
      assert p[1] == [110];
    }
  }

  /** A directory with a file that cannot be read in full and an empty directory "l". */
  function BrokenBefore(x: Owner): Step {
    MakeDir(x, [[102], [108]], [BrokenFile(x, []), MakeDir(x, [], [])])
  }

  lemma BrokenBeforeIs(x: Owner)
    ensures Neat(BrokenBefore(x)) && !Whole(BrokenBefore(x)) && Linkfree(BrokenBefore(x))
  {
    PlainByte(102);
    PlainByte(108);
    var s := BrokenBefore(x);
    assert s.kids[0] == BrokenFile(x, []);
    assert Neat(s.kids[0]) && Neat(s.kids[1]) && Linkfree(s.kids[0]) && Linkfree(s.kids[1]);
  }

  /** With a link on the disk a traversal that is not whole can come back all the same. */
  lemma LinkBringsBack(u: User, x: Owner)
    ensures Neat(BrokenBefore(x)) && !Whole(BrokenBefore(x)) && Linkfree(BrokenBefore(x))
    ensures Plain([110]) && Clear(LinkedDisk().ns, LinkedDisk().cwd + [[110]])
    ensures Run(LinkedDisk(), u, [110], BrokenBefore(x)).cwd == LinkedDisk().cwd
  {
    hide Run, RunAll, Plain, Entered, Neat, Whole, Linkfree, Clear;
    var d, s := LinkedDisk(), BrokenBefore(x);
    BrokenBeforeIs(x);
    LinkedClear();
    PlainByte(110);
    var d1 := Entered(d, u, [110], x.mode);
    EntersDir(d, u, [110], x.mode);
    EnteredIs(d, u, [110], x.mode);
    RunsFreshDir(d, u, [110], s);
    DisplacedKids(d1, u, x);
    assert Parent([[97], [113]]) == [[97]];
  }

  lemma DisplacedKids(d: Disk, u: User, x: Owner)
    requires d.ns == LinkedDisk().ns + map[[[97]] + [[110]] := ADirectory] && d.cwd == [[97]] + [[110]]
    requires Clear(d.ns, d.cwd + [[102]])
    ensures RunAll(d, u, BrokenBefore(x).names, BrokenBefore(x).kids).cwd == [[97], [113]]
  {
    hide Run, Plain;
    var f, l: bytes := [102], [108];
    var names, broken, empty := [f, l], BrokenFile(x, []), MakeDir(x, [], []);
    PlainByte(102);
    PlainByte(108);
    PlainByte(113);
    PlainByte(114);
    RunsBroken(d, u, f, x, []);
    var d1 := Run(d, u, f, broken);
    assert Parent([[97]] + [[110]]) == [[97]];
    LinkedFacts(d1.ns, d, x);
    ThroughLink(d1, u, x, l, 113, 114);
    var rest, none: seq<Step> := [empty], [];
    var kids: seq<Step> := [broken, empty];
    assert names[1..] == [l] && kids[1..] == rest && rest[1..] == none;
    assert RunAll(d1, u, [l], rest) == Run(d1, u, l, empty);
    assert [[97]] + [[113]] == [[97], [113]];
  }

  lemma LinkedFacts(ns: Names, d: Disk, x: Owner)
    requires d.ns == LinkedDisk().ns + map[[[97]] + [[110]] := ADirectory] && d.cwd == [[97]] + [[110]]
    requires ns == d.ns[d.cwd + [[102]] := AFile([])]
    ensures [[97]] + [[108]] in ns && ns[[[97]] + [[108]]] == ALink([113, SLASH, 114])
    ensures IsDir(ns, [[97]] + [[113]]) && IsDir(ns, [[97]] + [[113]] + [[114]])
  {
    var a, q, r: Path := [[97]] + [[108]], [[97]] + [[113]], [[97]] + [[113]] + [[114]];
    var n, f: Path := [[97]] + [[110]], d.cwd + [[102]];
    assert a == [[97], [108]] && q == [[97], [113]] && r == [[97], [113], [114]];
    assert n[1] == [110] && f[1] == [110] && a[1] == [108] && q[1] == [113] && r[1] == [113];
  }

  lemma PlainByte(b: byte)
    requires b != SLASH && b != DOT
    ensures Plain([b])
  {
  }
}
