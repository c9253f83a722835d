/**
  What the extraction tool leaves on a disk: a name space with symbolic links, modes and owners, and the
  calls the tool makes on it, each where the current directory and the links take it.
 */
module Extraction {
  import opened Seqs
  import opened Bits
  import opened Format
  import opened Reader

  /** The names from the root of the file system down. */
  type Path = seq<bytes>

  datatype What = ADirectory | AFile(content: bytes) | ALink(target: bytes)

  type Names = map<Path, What>

  /** What is where, the permission bits of files and directories, all owners, and the current directory. */
  datatype Disk = Disk(ns: Names, mode: map<Path, nat>, owner: map<Path, (nat, nat)>, cwd: Path)

  /** Who runs the tool: the creation mask and the ids. */
  datatype User = User(mask: nat -> nat, uid: nat, gid: nat)

  const SLASH: byte := 47
  const HERE: bytes := [46, 47]
  const MAXSYMLINKS := 40

  // ---------- paths ----------

  /** The components between the slashes. */
  function Split(p: bytes): (r: seq<bytes>)
    ensures |r| > 0
  {
    if p == [] then [[]]
    else
      var r := Split(p[1..]);
      if p[0] == SLASH then [[]] + r else [[p[0]] + r[0]] + r[1..]
  }

  function Parent(p: Path): Path {
    if p == [] then [] else p[..|p| - 1]
  }

  /**
    Where the components `todo` lead from directory `at`, following at most `links` symbolic links; none
    when a component is missing or no directory.
   */
  function Resolve(ns: Names, at: Path, todo: seq<bytes>, links: nat): Option<Path>
    decreases links, |todo|
  {
    if todo == [] then Some(at)
    else
      var c, rest := todo[0], todo[1..];
      if c == [] || c == [DOT] then Resolve(ns, at, rest, links)
      else if c == [DOT, DOT] then Resolve(ns, Parent(at), rest, links)
      else if at + [c] !in ns then None
      else
        match ns[at + [c]]
        case ADirectory => Resolve(ns, at + [c], rest, links)
        case AFile(_) => if rest == [] then Some(at + [c]) else None
        case ALink(target) =>
          if links == 0 || target == [] then None
          else Resolve(ns, if target[0] == SLASH then [] else at, Split(target) + rest, links - 1)
  }

  /** A name a directory can hold. */
  predicate Plain(name: bytes) {
    name != [] && SLASH !in name && name != [DOT] && name != [DOT, DOT]
  }

  predicate IsDir(ns: Names, p: Path) {
    p == [] || (p in ns && ns[p] == ADirectory)
  }

  // ---------- calls ----------

  function Start(d: Disk, name: bytes): Path {
    if name != [] && name[0] == SLASH then [] else d.cwd
  }

  /** What a path stands for, all links followed. */
  function Followed(d: Disk, name: bytes): Option<Path> {
    if name == [] then None else Resolve(d.ns, Start(d, name), Split(name), MAXSYMLINKS)
  }

  /** What it names, a link in the last place not followed. Only the directory it is in need exist. */
  function Named(d: Disk, name: bytes): Option<Path> {
    var cs := Split(name);
    var last := cs[|cs| - 1];
    if name == [] then None
    else if last == [] || last == [DOT] || last == [DOT, DOT] then Followed(d, name)
    else
      match Resolve(d.ns, Start(d, name), cs[..|cs| - 1] + [[]], MAXSYMLINKS)
      case None => None
      case Some(p) => Some(p + [last])
  }

  /** Something is there: the current directory always is. */
  predicate Exists(d: Disk, p: Path) {
    p == [] || p == d.cwd || p in d.ns
  }

  /** Without slashes at the end. */
  function Trim(name: bytes): bytes {
    if |name| > 1 && name[|name| - 1] == SLASH then Trim(name[..|name| - 1]) else name
  }

  /** Something new at `p`, under the creation mask and owned by who runs the tool. */
  function Placing(d: Disk, u: User, p: Path, what: What, mode: nat): Disk {
    d.(ns := d.ns[p := what], mode := d.mode[p := u.mask(mode)], owner := d.owner[p := (u.uid, u.gid)])
  }

  /** mkdir, an existing name tolerated. */
  function Mkdir(d: Disk, u: User, name: bytes, mode: nat): Option<Disk> {
    match Named(d, Trim(name))
    case None => None
    case Some(p) =>
      if Exists(d, p) then Some(d)
      else Some(Placing(d, u, p, ADirectory, mode))
  }

  /** mkdir and chdir: the directory to work in, or what is left when that fails. */
  function Enter(d: Disk, u: User, name: bytes, mode: nat): (bool, Disk) {
    match Mkdir(d, u, name, mode)
    case None => (false, d)
    case Some(d1) =>
      match Chdir(d1, name)
      case None => (false, d1)
      case Some(d2) => (true, d2)
  }

  function Chdir(d: Disk, name: bytes): Option<Disk> {
    match Followed(d, name)
    case None => None
    case Some(p) => if IsDir(d.ns, p) then Some(d.(cwd := p)) else None
  }

  /** chdir(".."). */
  function Up(d: Disk): Disk {
    d.(cwd := Parent(d.cwd))
  }

  function Unlink(d: Disk, name: bytes): Disk {
    match Named(d, name)
    case None => d
    case Some(p) =>
      if p !in d.ns || IsDir(d.ns, p) then d else d.(ns := d.ns - {p}, mode := d.mode - {p}, owner := d.owner - {p})
  }

  /** open with O_CREAT and O_TRUNC where nothing but a directory can be in the way, and what is then written. */
  function Create(d: Disk, u: User, name: bytes, mode: nat, content: bytes): Option<Disk> {
    match Named(d, name)
    case None => None
    case Some(p) =>
      if IsDir(d.ns, p) then None
      else Some(Placing(d, u, p, AFile(content), mode))
  }

  function Symlink(d: Disk, u: User, target: bytes, name: bytes): Option<Disk> {
    match Named(d, name)
    case None => None
    case Some(p) =>
      if Exists(d, p) || target == [] then None
      else Some(d.(ns := d.ns[p := ALink(target)], owner := d.owner[p := (u.uid, u.gid)]))
  }

  /** chmod: the mode lands where the links lead. */
  function Chmod(d: Disk, name: bytes, mode: nat): Disk {
    match Followed(d, name)
    case None => d
    case Some(p) => d.(mode := d.mode[p := mode])
  }

  /** lchown: the ids land on the name itself. */
  function Lchown(d: Disk, name: bytes, uid: nat, gid: nat): Disk {
    match Named(d, name)
    case None => d
    case Some(p) => if Exists(d, p) then d.(owner := d.owner[p := (uid, gid)]) else d
  }

  // ---------- a traversal ----------

  /**
    What traversing a node comes to. A broken one has a block that does not uncompress: nothing is read of
    it, or of a file the bytes before that block.
   */
  datatype Step =
    | MakeFile(attr: Owner, content: bytes)
    | BrokenFile(attr: Owner, content: bytes)
    | MakeLink(attr: Owner, target: bytes)
    | BrokenLink
    | MakeDir(attr: Owner, names: seq<bytes>, kids: seq<Step>)
    | BrokenDir(attr: Owner)
    | UnknownType

  /** The calls at the end of a traversal, in whatever directory it has come to stand. */
  function Finish(d: Disk, name: bytes, attr: Owner): Disk {
    Lchown(Chmod(d, name, attr.mode), name, attr.uid, attr.gid)
  }

  /**
    The tool's calls for one node. A broken node costs a chdir("..") even where there was no chdir before
    it, and gets neither mode nor owner.
   */
  function Run(d: Disk, u: User, name: bytes, s: Step): Disk
    decreases s
  {
    match s
    case UnknownType => d
    case MakeFile(attr, content) =>
      (match Create(Unlink(d, name), u, name, attr.mode, content)
       case None => Unlink(d, name)
       case Some(d') => Finish(d', name, attr))
    case BrokenFile(attr, content) =>
      (match Create(Unlink(d, name), u, name, attr.mode, content)
       case None => Unlink(d, name)
       case Some(d') => Up(d'))
    case MakeLink(attr, target) =>
      (match Symlink(Unlink(d, name), u, target, name)
       case None => Unlink(d, name)
       case Some(d') => Finish(d', name, attr))
    case BrokenLink => Up(Unlink(d, name))
    case MakeDir(attr, names, kids) =>
      (match Enter(d, u, name, attr.mode)
       case (false, d') => d'
       case (true, d') => Finish(Up(RunAll(d', u, names, kids)), name, attr))
    case BrokenDir(attr) =>
      (match Enter(d, u, name, attr.mode)
       case (false, d') => d'
       case (true, d') => Up(d'))
  }

  function RunAll(d: Disk, u: User, names: seq<bytes>, kids: seq<Step>): Disk
    decreases kids
  {
    if kids == [] || names == [] then d
    else RunAll(Run(d, u, names[0], kids[0]), u, names[1..], kids[1..])
  }

  /** main: the output directory is made and entered, the root traversed as "./", and the way gone back. */
  function Extracting(d: Disk, u: User, output: bytes, s: Step): Disk {
    match Enter(d, u, output, 511)
    case (false, d') => d'
    case (true, d') => Run(d', u, HERE, s).(cwd := d.cwd)
  }

  /** A traversal without failures. */
  function StepOf(t: Tree<Owner>): Step {
    match t
    case File(attr, content) => MakeFile(attr, content)
    case Link(attr, target) => MakeLink(attr, target)
    case Dir(attr, names, kids) => MakeDir(attr, names, StepsOf(kids))
  }

  function StepsOf(kids: seq<Tree<Owner>>): (r: seq<Step>)
    ensures |r| == |kids|
  {
    seq(|kids|, i requires 0 <= i < |kids| => StepOf(kids[i]))
  }

  // ---------- what should be there ----------

  /** Names a directory can hold, no two alike in one directory, and links that lead somewhere. */
  ghost predicate Storable<A>(t: Tree<A>) {
    match t
    case File(_, _) => true
    case Link(_, target) => target != []
    case Dir(_, names, kids) =>
      && |names| == |kids| && (forall i :: 0 <= i < |names| ==> Plain(names[i]))
      && (forall i, j :: 0 <= i < j < |names| ==> names[i] != names[j])
      && (forall i :: 0 <= i < |kids| ==> Storable(kids[i]))
  }

  /** The tree as it stands at `p`. */
  function Built<A>(p: Path, t: Tree<A>): Names
    decreases t
  {
    match t
    case File(_, content) => map[p := AFile(content)]
    case Link(_, target) => map[p := ALink(target)]
    case Dir(_, names, kids) => map[p := ADirectory] + BuiltAll(p, names, kids)
  }

  function BuiltAll<A>(p: Path, names: seq<bytes>, kids: seq<Tree<A>>): Names
    decreases kids
  {
    if kids == [] || names == [] then map[]
    else Built(p + [names[0]], kids[0]) + BuiltAll(p, names[1..], kids[1..])
  }

  /** The ids of the tree standing at `p`. */
  function Owners(p: Path, t: Tree<Owner>): map<Path, (nat, nat)>
    decreases t
  {
    match t
    case File(attr, _) => map[p := (attr.uid, attr.gid)]
    case Link(attr, _) => map[p := (attr.uid, attr.gid)]
    case Dir(attr, names, kids) => map[p := (attr.uid, attr.gid)] + OwnersAll(p, names, kids)
  }

  function OwnersAll(p: Path, names: seq<bytes>, kids: seq<Tree<Owner>>): map<Path, (nat, nat)>
    decreases kids
  {
    if kids == [] || names == [] then map[]
    else Owners(p + [names[0]], kids[0]) + OwnersAll(p, names[1..], kids[1..])
  }

  /** The modes of the files and directories of the tree standing at `p`. */
  function Modes(p: Path, t: Tree<Owner>): map<Path, nat>
    decreases t
  {
    match t
    case File(attr, _) => map[p := attr.mode]
    case Link(_, _) => map[]
    case Dir(attr, names, kids) => map[p := attr.mode] + ModesAll(p, names, kids)
  }

  function ModesAll(p: Path, names: seq<bytes>, kids: seq<Tree<Owner>>): map<Path, nat>
    decreases kids
  {
    if kids == [] || names == [] then map[]
    else Modes(p + [names[0]], kids[0]) + ModesAll(p, names[1..], kids[1..])
  }

  // ---------- where modes land ----------

  /** A mode set somewhere. */
  type Event = (Path, nat)

  /** Setting modes one after the other. */
  function Apply(mode: map<Path, nat>, log: seq<Event>): map<Path, nat>
    decreases log
  {
    if log == [] then mode else Apply(mode[log[0].0 := log[0].1], log[1..])
  }

  /** The last mode set at `q`. */
  function LastAt(log: seq<Event>, q: Path): Option<nat> {
    if log == [] then None
    else if log[|log| - 1].0 == q then Some(log[|log| - 1].1)
    else LastAt(log[..|log| - 1], q)
  }

  /** The chmod of link `name`: it lands where the link leads, if anywhere. */
  function Landing(ns: Names, at: Path, name: bytes, mode: nat): seq<Event> {
    match Resolve(ns, at, [name], MAXSYMLINKS)
    case None => []
    case Some(q) => [(q, mode)]
  }

  /** All modes set while `t` is made as `name` in directory `at`: by creating, and by chmod. */
  function Log(ns: Names, u: User, at: Path, name: bytes, t: Tree<Owner>): seq<Event>
    decreases t
  {
    var p := at + [name];
    match t
    case File(attr, _) => [(p, u.mask(attr.mode)), (p, attr.mode)]
    case Link(attr, target) => Landing(ns[p := ALink(target)], at, name, attr.mode)
    case Dir(attr, names, kids) =>
      [(p, u.mask(attr.mode))] + LogAll(ns[p := ADirectory], u, p, names, kids) + [(p, attr.mode)]
  }

  function LogAll(ns: Names, u: User, at: Path, names: seq<bytes>, kids: seq<Tree<Owner>>): seq<Event>
    decreases kids
  {
    if kids == [] || names == [] then []
    else Log(ns, u, at, names[0], kids[0]) + LogAll(ns + Built(at + [names[0]], kids[0]), u, at, names[1..], kids[1..])
  }

  /** Those of them set through links. */
  function ThroughLinks(ns: Names, at: Path, name: bytes, t: Tree<Owner>): seq<Event>
    decreases t
  {
    var p := at + [name];
    match t
    case File(_, _) => []
    case Link(attr, target) => Landing(ns[p := ALink(target)], at, name, attr.mode)
    case Dir(_, names, kids) => ThroughAllLinks(ns[p := ADirectory], p, names, kids)
  }

  function ThroughAllLinks(ns: Names, at: Path, names: seq<bytes>, kids: seq<Tree<Owner>>): seq<Event>
    decreases kids
  {
    if kids == [] || names == [] then []
    else ThroughLinks(ns, at, names[0], kids[0])
         + ThroughAllLinks(ns + Built(at + [names[0]], kids[0]), at, names[1..], kids[1..])
  }

  /** The modes set through links visited after the item at `q` has got its own. */
  function LaterLinks(ns: Names, at: Path, names: seq<bytes>, kids: seq<Tree<Owner>>, q: Path): seq<Event>
    decreases kids
  {
    if kids == [] || names == [] || |q| <= |at| then []
    else
      var p, ns' := at + [names[0]], ns + Built(at + [names[0]], kids[0]);
      if q[|at|] != names[0] then LaterLinks(ns', at, names[1..], kids[1..], q)
      else
        (if kids[0].Dir? then LaterLinks(ns[p := ADirectory], p, kids[0].names, kids[0].kids, q) else [])
        + ThroughAllLinks(ns', at, names[1..], kids[1..])
  }

  // ---------- proofs ----------

  lemma {:induction false} SplitPlain(name: bytes)
    requires SLASH !in name
    ensures Split(name) == [name]
  {
    if name != [] {
      SplitPlain(name[1..]);
      assert [name[0]] + name[1..] == name;
    }
  }

  /** Nothing stands at `p` or below it. */
  ghost predicate Clear(ns: Names, p: Path) {
    forall q :: q in ns ==> !(p <= q)
  }

  lemma FollowPlain(d: Disk, name: bytes)
    requires Plain(name) && d.cwd + [name] in d.ns && !d.ns[d.cwd + [name]].ALink?
    ensures Followed(d, name) == Some(d.cwd + [name])
  {
    SplitPlain(name);
    assert name[0] in name;
    var p, none: seq<bytes> := d.cwd + [name], [];
    assert [name][1..] == none;
    assert Resolve(d.ns, p, none, MAXSYMLINKS) == Some(p);
    assert Resolve(d.ns, d.cwd, [name], MAXSYMLINKS) == Some(p);
  }

  lemma {:induction false} TrimPlain(name: bytes)
    requires SLASH !in name
    ensures Trim(name) == name
  {
    if |name| > 1 { assert name[|name| - 1] in name; }
  }

  lemma NamedPlain(d: Disk, name: bytes)
    requires Plain(name)
    ensures Named(d, name) == Some(d.cwd + [name]) && Named(d, Trim(name)) == Some(d.cwd + [name])
  {
    SplitPlain(name);
    TrimPlain(name);
    var none, one: seq<bytes> := [], [[]];
    assert [name][..0] == none && none + one == one && one[1..] == none;
    assert Resolve(d.ns, d.cwd, none, MAXSYMLINKS) == Some(d.cwd);
    assert Resolve(d.ns, d.cwd, one, MAXSYMLINKS) == Some(d.cwd);
    assert name[0] in name;
  }

  lemma SplitHere()
    ensures Split(HERE) == [[DOT], []] && Split([DOT]) == [[DOT]] && Trim(HERE) == [DOT]
  {
    assert HERE[1..] == [SLASH] && HERE[1..][1..] == [] && HERE[..1] == [DOT];
    assert [DOT][1..] == [];
    assert Split([]) == [[]];
    assert Split([SLASH]) == [[]] + Split([]);
    assert Split(HERE) == [[DOT] + Split([SLASH])[0]] + Split([SLASH])[1..];
    assert Split([DOT]) == [[DOT] + Split([])[0]] + Split([])[1..];
    assert [DOT] + [] == [DOT];
  }

  lemma NamedHere(d: Disk)
    ensures Followed(d, HERE) == Named(d, HERE) == Some(d.cwd) && Named(d, Trim(HERE)) == Some(d.cwd)
  {
    SplitHere();
    FollowHere(d);
    var dot, none: seq<bytes> := [[DOT]], [];
    assert dot[1..] == none;
    assert Resolve(d.ns, d.cwd, none, MAXSYMLINKS) == Some(d.cwd);
  }

  lemma FollowHere(d: Disk)
    ensures Followed(d, HERE) == Some(d.cwd)
  {
    SplitHere();
    var none, one, two: seq<bytes> := [], [[]], [[DOT], []];
    assert two[1..] == one && one[1..] == none;
    assert Resolve(d.ns, d.cwd, none, MAXSYMLINKS) == Some(d.cwd);
    assert Resolve(d.ns, d.cwd, one, MAXSYMLINKS) == Some(d.cwd);
    assert Resolve(d.ns, d.cwd, two, MAXSYMLINKS) == Some(d.cwd);
  }

  lemma MapAssoc<K, V>(a: map<K, V>, b: map<K, V>, c: map<K, V>)
    ensures a + b + c == a + (b + c)
  {
  }

  lemma {:induction false} BuiltBelow<A>(p: Path, t: Tree<A>)
    ensures p in Built(p, t) && forall q :: q in Built(p, t) ==> p <= q
    decreases t
  {
    if t.Dir? { BuiltAllBelow(p, t.names, t.kids); }
  }

  lemma {:induction false} BuiltAllBelow<A>(p: Path, names: seq<bytes>, kids: seq<Tree<A>>)
    ensures forall q :: q in BuiltAll(p, names, kids) ==> p < q && q[|p|] in names
    decreases kids
  {
    if kids != [] && names != [] {
      BuiltBelow(p + [names[0]], kids[0]);
      BuiltAllBelow(p, names[1..], kids[1..]);
    }
  }

  lemma {:induction false} OwnersKeys(p: Path, t: Tree<Owner>)
    ensures Owners(p, t).Keys == Built(p, t).Keys
    decreases t
  {
    if t.Dir? { OwnersAllKeys(p, t.names, t.kids); }
  }

  lemma {:induction false} OwnersAllKeys(p: Path, names: seq<bytes>, kids: seq<Tree<Owner>>)
    ensures OwnersAll(p, names, kids).Keys == BuiltAll(p, names, kids).Keys
    decreases kids
  {
    if kids != [] && names != [] {
      OwnersKeys(p + [names[0]], kids[0]);
      OwnersAllKeys(p, names[1..], kids[1..]);
    }
  }

  lemma {:induction false} ApplyAppend(mode: map<Path, nat>, a: seq<Event>, b: seq<Event>)
    ensures Apply(mode, a + b) == Apply(Apply(mode, a), b)
    decreases a
  {
    if a == [] {
      assert a + b == b;
    } else {
      ApplyAppend(mode[a[0].0 := a[0].1], a[1..], b);
      assert (a + b)[1..] == a[1..] + b;
    }
  }

  // ---------- one traversal into fresh space ----------

  /** The state after making `t` as `name` in the current directory. */
  ghost predicate Made(d: Disk, d': Disk, u: User, name: bytes, t: Tree<Owner>) {
    var p := d.cwd + [name];
    && d'.cwd == d.cwd && d'.ns == d.ns + Built(p, t) && d'.owner == d.owner + Owners(p, t)
    && d'.mode == Apply(d.mode, Log(d.ns, u, d.cwd, name, t))
  }

  ghost predicate MadeAll(d: Disk, d': Disk, u: User, names: seq<bytes>, kids: seq<Tree<Owner>>) {
    && d'.cwd == d.cwd && d'.ns == d.ns + BuiltAll(d.cwd, names, kids)
    && d'.owner == d.owner + OwnersAll(d.cwd, names, kids)
    && d'.mode == Apply(d.mode, LogAll(d.ns, u, d.cwd, names, kids))
  }

  lemma Apply2(mode: map<Path, nat>, p: Path, a: nat, b: nat)
    ensures Apply(mode, [(p, a), (p, b)]) == mode[p := a][p := b]
  {
    var log: seq<Event> := [(p, a), (p, b)];
    assert log[1..] == [(p, b)];
    Apply1(mode[p := a], p, b);
  }

  lemma Apply1(mode: map<Path, nat>, p: Path, a: nat)
    ensures Apply(mode, [(p, a)]) == mode[p := a]
  {
    assert [(p, a)][1..] == [];
  }

  lemma MakesFile(d: Disk, u: User, name: bytes, attr: Owner, content: bytes)
    requires Plain(name) && Clear(d.ns, d.cwd + [name])
    ensures Made(d, Run(d, u, name, MakeFile(attr, content)), u, name, File(attr, content))
  {
    hide Plain, Named, Followed, Finish, Apply;
    var p := d.cwd + [name];
    NamedPlain(d, name);
    var d1 := Placing(d, u, p, AFile(content), attr.mode);
    assert Unlink(d, name) == d;
    assert Create(d, u, name, attr.mode, content) == Some(d1);
    FinishPlain(d1, name, attr);
    Apply2(d.mode, p, u.mask(attr.mode), attr.mode);
    assert d1.ns == d.ns + map[p := AFile(content)];
    assert d1.owner[p := (attr.uid, attr.gid)] == d.owner + map[p := (attr.uid, attr.gid)];
  }

  lemma MakesLink(d: Disk, u: User, name: bytes, attr: Owner, target: bytes)
    requires Plain(name) && Clear(d.ns, d.cwd + [name]) && target != []
    ensures Made(d, Run(d, u, name, MakeLink(attr, target)), u, name, Link(attr, target))
  {
    hide Plain, Resolve, Named, Followed, Finish, Apply;
    var p := d.cwd + [name];
    NamedPlain(d, name);
    var d1 := d.(ns := d.ns[p := ALink(target)], owner := d.owner[p := (u.uid, u.gid)]);
    assert Unlink(d, name) == d;
    assert Symlink(d, u, target, name) == Some(d1);
    FinishLink(d1, name, attr);
    assert d1.ns == d.ns + map[p := ALink(target)];
    assert d1.owner[p := (attr.uid, attr.gid)] == d.owner + map[p := (attr.uid, attr.gid)];
  }

  lemma FinishLink(d: Disk, name: bytes, attr: Owner)
    requires Plain(name) && d.cwd + [name] in d.ns
    ensures Finish(d, name, attr) == d.(mode := Apply(d.mode, Landing(d.ns, d.cwd, name, attr.mode)),
                                        owner := d.owner[d.cwd + [name] := (attr.uid, attr.gid)])
  {
    hide Plain, Resolve, Named, Trim;
    PlainSplit(name);
    NamedPlain(Chmod(d, name, attr.mode), name);
    var r := Resolve(d.ns, d.cwd, [name], MAXSYMLINKS);
    if r.Some? { Apply1(d.mode, r.value, attr.mode); }
  }

  lemma PlainSplit(name: bytes)
    requires Plain(name)
    ensures name != [] && Split(name) == [name] && name[0] != SLASH
  {
    SplitPlain(name);
    assert name[0] in name;
  }

  /** A directory is made, entered, filled, left, and only then given its mode and owner. */
  lemma {:induction false} RunMakes(d: Disk, u: User, name: bytes, t: Tree<Owner>)
    requires Storable(t) && Plain(name) && Clear(d.ns, d.cwd + [name])
    ensures Made(d, Run(d, u, name, StepOf(t)), u, name, t)
    decreases t
  {
    hide Made, MadeAll, Plain, Run, RunAll, Finish, Up;
    match t
    case File(attr, content) => MakesFile(d, u, name, attr, content);
    case Link(attr, target) => MakesLink(d, u, name, attr, target);
    case Dir(attr, names, kids) =>
      var d1 := Entered(d, u, name, attr.mode);
      EntersDir(d, u, name, attr.mode);
      RunAllMakes(d1, u, names, kids);
      LeavesDir(d, d1, RunAll(d1, u, names, StepsOf(kids)), u, name, t);
      RunsDir(d, u, name, t);
  }

  lemma RunsDir(d: Disk, u: User, name: bytes, t: Tree<Owner>)
    requires t.Dir? && Enter(d, u, name, t.attr.mode) == (true, Entered(d, u, name, t.attr.mode))
    ensures Run(d, u, name, StepOf(t))
         == Finish(Up(RunAll(Entered(d, u, name, t.attr.mode), u, t.names, StepsOf(t.kids))), name, t.attr)
  {
    hide Finish, Up, RunAll, Enter, Entered;
  }

  /** The state inside a directory just made. */
  function Entered(d: Disk, u: User, name: bytes, mode: nat): Disk {
    var p := d.cwd + [name];
    Disk(d.ns[p := ADirectory], d.mode[p := u.mask(mode)], d.owner[p := (u.uid, u.gid)], p)
  }

  lemma EntersDir(d: Disk, u: User, name: bytes, mode: nat)
    requires Plain(name) && Clear(d.ns, d.cwd + [name])
    ensures Enter(d, u, name, mode) == (true, Entered(d, u, name, mode))
    ensures Parent(d.cwd + [name]) == d.cwd
    ensures forall x :: Clear(Entered(d, u, name, mode).ns, d.cwd + [name] + [x])
  {
    hide Plain;
    NamedPlain(d, name);
    FollowPlain(Entered(d, u, name, mode).(cwd := d.cwd), name);
  }

  lemma LeavesDir(d: Disk, d1: Disk, d2: Disk, u: User, name: bytes, t: Tree<Owner>)
    requires Plain(name) && t.Dir? && d1 == Entered(d, u, name, t.attr.mode) && MadeAll(d1, d2, u, t.names, t.kids)
    ensures Made(d, Finish(Up(d2), name, t.attr), u, name, t)
  {
    hide Plain, LogAll, BuiltAll, OwnersAll, Apply, Finish;
    var p, attr := d.cwd + [name], t.attr;
    var below, ids := BuiltAll(p, t.names, t.kids), OwnersAll(p, t.names, t.kids);
    BuiltAllBelow(p, t.names, t.kids);
    OwnersAllKeys(p, t.names, t.kids);
    assert d1.ns == d.ns + map[p := ADirectory];
    MapAssoc(d.ns, map[p := ADirectory], below);
    assert Parent(p) == d.cwd;
    FinishPlain(Up(d2), name, attr);
    OwnersLast(d.owner, p, (u.uid, u.gid), ids, (attr.uid, attr.gid));
    AroundLog(d.mode, (p, u.mask(attr.mode)), LogAll(d1.ns, u, p, t.names, t.kids), (p, attr.mode));
  }

  lemma FinishPlain(d: Disk, name: bytes, attr: Owner)
    requires Plain(name) && d.cwd + [name] in d.ns && !d.ns[d.cwd + [name]].ALink?
    ensures var p := d.cwd + [name];
            Finish(d, name, attr) == d.(mode := d.mode[p := attr.mode], owner := d.owner[p := (attr.uid, attr.gid)])
  {
    hide Plain, Followed, Named, Trim;
    FollowPlain(d, name);
    NamedPlain(Chmod(d, name, attr.mode), name);
  }

  lemma OwnersLast<V>(owner: map<Path, V>, p: Path, first: V, ids: map<Path, V>, last: V)
    requires p !in ids
    ensures (owner[p := first] + ids)[p := last] == owner + (map[p := last] + ids)
  {
  }

  lemma AroundLog(mode: map<Path, nat>, first: Event, log: seq<Event>, last: Event)
    ensures Apply(mode, [first] + log + [last]) == Apply(mode[first.0 := first.1], log)[last.0 := last.1]
  {
    hide Apply;
    Apply1(mode, first.0, first.1);
    ApplyAppend(mode, [first], log);
    ApplyAppend(mode, [first] + log, [last]);
    Apply1(Apply(mode, [first] + log), last.0, last.1);
  }

  lemma {:induction false} RunAllMakes(d: Disk, u: User, names: seq<bytes>, kids: seq<Tree<Owner>>)
    requires |names| == |kids| && (forall i :: 0 <= i < |names| ==> Plain(names[i]) && Storable(kids[i]))
    requires forall i, j :: 0 <= i < j < |names| ==> names[i] != names[j]
    requires forall i :: 0 <= i < |names| ==> Clear(d.ns, d.cwd + [names[i]])
    ensures MadeAll(d, RunAll(d, u, names, StepsOf(kids)), u, names, kids)
    decreases kids
  {
    hide Plain, Storable, Made;
    if kids != [] {
      var d1 := Run(d, u, names[0], StepOf(kids[0]));
      RunMakes(d, u, names[0], kids[0]);
      assert StepsOf(kids)[1..] == StepsOf(kids[1..]);
      StillClear(d, d1, u, names, kids[0]);
      RunAllMakes(d1, u, names[1..], kids[1..]);
      MadeNext(d, d1, RunAll(d1, u, names[1..], StepsOf(kids[1..])), u, names, kids);
    } else {
      NothingMade(d, u, names);
    }
  }

  lemma NothingMade(d: Disk, u: User, names: seq<bytes>)
    ensures MadeAll(d, d, u, names, [])
  {
    assert d.ns + map[] == d.ns && d.owner + map[] == d.owner;
  }

  lemma Apart(at: Path, x: bytes, y: bytes, q: Path)
    requires x != y && at + [x] <= q
    ensures !(at + [y] <= q)
  {
    assert q[|at|] == (at + [x])[|at|];
    assert (at + [y])[|at|] == y;
  }

  lemma StillClear(d: Disk, d1: Disk, u: User, names: seq<bytes>, t: Tree<Owner>)
    requires names != [] && Made(d, d1, u, names[0], t) && forall i :: 0 < i < |names| ==> names[i] != names[0]
    requires forall i :: 0 <= i < |names| ==> Clear(d.ns, d.cwd + [names[i]])
    ensures d1.cwd == d.cwd && forall i :: 0 <= i < |names| - 1 ==> Clear(d1.ns, d.cwd + [names[1..][i]])
  {
    hide Built, Log, Owners, Apply;
    var p := d.cwd + [names[0]];
    BuiltBelow(p, t);
    forall i, q | 0 <= i < |names| - 1 && q in d1.ns
      ensures !(d.cwd + [names[1..][i]] <= q)
    {
      var c := d.cwd + [names[1..][i]];
      if q in Built(p, t) { Apart(d.cwd, names[0], names[1..][i], q); }
    }
  }

  lemma MadeNext(d: Disk, d1: Disk, d2: Disk, u: User, names: seq<bytes>, kids: seq<Tree<Owner>>)
    requires names != [] && kids != [] && Made(d, d1, u, names[0], kids[0]) && MadeAll(d1, d2, u, names[1..], kids[1..])
    ensures MadeAll(d, d2, u, names, kids)
  {
    hide Built, Log, Owners, Apply;
    var p := d.cwd + [names[0]];
    MapAssoc(d.ns, Built(p, kids[0]), BuiltAll(d.cwd, names[1..], kids[1..]));
    MapAssoc(d.owner, Owners(p, kids[0]), OwnersAll(d.cwd, names[1..], kids[1..]));
    ApplyAppend(d.mode, Log(d.ns, u, d.cwd, names[0], kids[0]), LogAll(d1.ns, u, d.cwd, names[1..], kids[1..]));
  }

  // ---------- the whole extraction ----------

  /**
    Extracting into a directory that was not there adds the tree at it and nothing else. Below the output
    directory every item gets its ids; the root's ids and mode land on the directory the tool was started
    in, because "./" is looked up only after the last chdir("..").
   */
  lemma ExtractingFresh(d: Disk, u: User, output: bytes, t: Tree<Owner>)
    requires Storable(t) && t.Dir? && Plain(output) && Clear(d.ns, d.cwd + [output])
    ensures var d', out := Extracting(d, u, output, StepOf(t)), d.cwd + [output];
            && d'.cwd == d.cwd && d'.ns == d.ns + Built(out, t)
            && d'.owner == (d.owner[out := (u.uid, u.gid)] + OwnersAll(out, t.names, t.kids))
                           [d.cwd := (t.attr.uid, t.attr.gid)]
            && d'.mode == Apply(d.mode, [(out, u.mask(511))] + LogAll(d.ns[out := ADirectory], u, out, t.names, t.kids)
                                        + [(d.cwd, t.attr.mode)])
  {
    hide Plain, Made, MadeAll, Run, RunAll, Apply, LogAll, BuiltAll, OwnersAll, Followed, Named, Finish, Enter,
      Storable;
    var out, d1 := d.cwd + [output], Entered(d, u, output, 511);
    EntersDir(d, u, output, 511);
    FreshKids(d, u, output, t);
    RunAllMakes(d1, u, t.names, t.kids);
    var d2 := RunAll(d1, u, t.names, StepsOf(t.kids));
    FilledDir(d1, d2, u, t.names, t.kids);
    RunsRoot(d1, u, t);
    FinishHere(Up(d2), t.attr);
    assert d1.ns == d.ns + map[out := ADirectory];
    MapAssoc(d.ns, map[out := ADirectory], BuiltAll(out, t.names, t.kids));
    AroundLog(d.mode, (out, u.mask(511)), LogAll(d1.ns, u, out, t.names, t.kids), (d.cwd, t.attr.mode));
  }

  lemma FreshKids(d: Disk, u: User, output: bytes, t: Tree<Owner>)
    requires Storable(t) && t.Dir?
    ensures |t.names| == |t.kids| && forall i :: 0 <= i < |t.names| ==> Plain(t.names[i]) && Storable(t.kids[i])
    ensures forall i, j :: 0 <= i < j < |t.names| ==> t.names[i] != t.names[j]
  {
    hide Plain;
  }

  lemma RunsRoot(d: Disk, u: User, t: Tree<Owner>)
    requires t.Dir? && IsDir(d.ns, d.cwd)
    ensures Run(d, u, HERE, StepOf(t)) == Finish(Up(RunAll(d, u, t.names, StepsOf(t.kids))), HERE, t.attr)
  {
    hide RunAll, Finish, Up, Followed, Named, Trim;
    NamedHere(d);
  }

  lemma FinishHere(d: Disk, attr: Owner)
    ensures Finish(d, HERE, attr)
         == d.(mode := d.mode[d.cwd := attr.mode], owner := d.owner[d.cwd := (attr.uid, attr.gid)])
  {
    hide Followed, Named, Trim;
    NamedHere(d);
    NamedHere(Chmod(d, HERE, attr.mode));
  }

  lemma FilledDir(d: Disk, d': Disk, u: User, names: seq<bytes>, kids: seq<Tree<Owner>>)
    requires MadeAll(d, d', u, names, kids)
    ensures d'.cwd == d.cwd && d'.ns == d.ns + BuiltAll(d.cwd, names, kids)
    ensures d'.owner == d.owner + OwnersAll(d.cwd, names, kids)
            && d'.mode == Apply(d.mode, LogAll(d.ns, u, d.cwd, names, kids))
  {
  }

  /** All ids: every item's but the root's are its own; the root's land beside it. */
  lemma IdsLand(d: Disk, u: User, output: bytes, t: Tree<Owner>)
    requires Storable(t) && t.Dir? && Plain(output) && Clear(d.ns, d.cwd + [output])
    ensures var owner, out := Extracting(d, u, output, StepOf(t)).owner, d.cwd + [output];
            && out in owner && owner[out] == (u.uid, u.gid)
            && d.cwd in owner && owner[d.cwd] == (t.attr.uid, t.attr.gid)
            && forall q :: q in OwnersAll(out, t.names, t.kids) ==>
                 q in owner && owner[q] == OwnersAll(out, t.names, t.kids)[q]
  {
    hide Plain, Extracting, Storable, OwnersAll, StepOf;
    var out := d.cwd + [output];
    ExtractingFresh(d, u, output, t);
    BuiltAllBelow(out, t.names, t.kids);
    OwnersAllKeys(out, t.names, t.kids);
  }

  // ---------- modes ----------

  lemma {:induction false} LastAtAppend(a: seq<Event>, b: seq<Event>, q: Path)
    ensures LastAt(a + b, q) == if LastAt(b, q).Some? then LastAt(b, q) else LastAt(a, q)
    decreases |b|
  {
    if b == [] {
      assert a + b == a;
    } else {
      var b' := b[..|b| - 1];
      assert (a + b)[..|a + b| - 1] == a + b';
      LastAtAppend(a, b', q);
    }
  }

  lemma {:induction false} ApplyAt(mode: map<Path, nat>, log: seq<Event>, q: Path)
    ensures LastAt(log, q).Some? ==> q in Apply(mode, log) && Apply(mode, log)[q] == LastAt(log, q).value
    ensures LastAt(log, q).None? ==>
              (q in Apply(mode, log) <==> q in mode) && (q in mode ==> Apply(mode, log)[q] == mode[q])
    decreases log
  {
    if log != [] {
      var mode1 := mode[log[0].0 := log[0].1];
      ApplyAt(mode1, log[1..], q);
      LastAtAppend([log[0]], log[1..], q);
      assert log == [log[0]] + log[1..];
      LastOne(log[0], q);
    }
  }

  lemma LastOne(e: Event, q: Path)
    ensures LastAt([e], q) == if e.0 == q then Some(e.1) else None
  {
    var log: seq<Event> := [e];
    assert log[..0] == [];
  }

  lemma {:induction false} ModesKeys(p: Path, t: Tree<Owner>)
    ensures Modes(p, t).Keys <= Built(p, t).Keys
    decreases t
  {
    if t.Dir? { ModesAllKeys(p, t.names, t.kids); }
  }

  lemma {:induction false} ModesAllKeys(p: Path, names: seq<bytes>, kids: seq<Tree<Owner>>)
    ensures ModesAll(p, names, kids).Keys <= BuiltAll(p, names, kids).Keys
    decreases kids
  {
    if kids != [] && names != [] {
      ModesKeys(p + [names[0]], kids[0]);
      ModesAllKeys(p, names[1..], kids[1..]);
    }
  }

  /** Elsewhere than on a tree's own items, making it sets modes only through its links. */
  lemma {:induction false} OnlyThroughLinks(ns: Names, u: User, at: Path, name: bytes, t: Tree<Owner>, q: Path)
    requires q !in Built(at + [name], t)
    ensures LastAt(Log(ns, u, at, name, t), q) == LastAt(ThroughLinks(ns, at, name, t), q)
    decreases t
  {
    hide LogAll, ThroughAllLinks, Landing;
    var p := at + [name];
    match t
    case File(attr, _) =>
      LastAtAppend([(p, u.mask(attr.mode))], [(p, attr.mode)], q);
      LastOne((p, u.mask(attr.mode)), q);
      LastOne((p, attr.mode), q);
    case Link(_, _) =>
    case Dir(attr, names, kids) =>
      OnlyThroughAllLinks(ns[p := ADirectory], u, p, names, kids, q);
      var log := LogAll(ns[p := ADirectory], u, p, names, kids);
      LastAtAppend([(p, u.mask(attr.mode))], log, q);
      LastAtAppend([(p, u.mask(attr.mode))] + log, [(p, attr.mode)], q);
      LastOne((p, u.mask(attr.mode)), q);
      LastOne((p, attr.mode), q);
  }

  lemma {:induction false} OnlyThroughAllLinks(ns: Names, u: User, at: Path, names: seq<bytes>,
                                               kids: seq<Tree<Owner>>, q: Path)
    requires q !in BuiltAll(at, names, kids)
    ensures LastAt(LogAll(ns, u, at, names, kids), q) == LastAt(ThroughAllLinks(ns, at, names, kids), q)
    decreases kids
  {
    hide Log, ThroughLinks, Built;
    if kids != [] && names != [] {
      var ns' := ns + Built(at + [names[0]], kids[0]);
      OnlyThroughLinks(ns, u, at, names[0], kids[0], q);
      OnlyThroughAllLinks(ns', u, at, names[1..], kids[1..], q);
      LastAtAppend(Log(ns, u, at, names[0], kids[0]), LogAll(ns', u, at, names[1..], kids[1..]), q);
      LastAtAppend(ThroughLinks(ns, at, names[0], kids[0]), ThroughAllLinks(ns', at, names[1..], kids[1..]), q);
    }
  }

  /** A list of items as a directory holds it. */
  ghost predicate Listed(names: seq<bytes>, kids: seq<Tree<Owner>>) {
    && |names| == |kids| && (forall i, j :: 0 <= i < j < |names| ==> names[i] != names[j])
    && (forall i :: 0 <= i < |kids| ==> Storable(kids[i]))
  }

  /** The last mode an item gets is that of the last later link that leads to it, or else its own. */
  lemma {:induction false} LastMode(ns: Names, u: User, at: Path, names: seq<bytes>, kids: seq<Tree<Owner>>, q: Path)
    requires Listed(names, kids) && q in ModesAll(at, names, kids)
    ensures var later := LastAt(LaterLinks(ns, at, names, kids, q), q);
            LastAt(LogAll(ns, u, at, names, kids), q)
            == if later.Some? then later else Some(ModesAll(at, names, kids)[q])
    decreases kids
  {
    hide Log, ThroughLinks, ThroughAllLinks, Built, Modes, LastAt, Landing;
    var p := at + [names[0]];
    var ns' := ns + Built(p, kids[0]);
    var first, rest := Log(ns, u, at, names[0], kids[0]), LogAll(ns', u, at, names[1..], kids[1..]);
    LastAtAppend(first, rest, q);
    Placed(at, names, kids, q);
    if q[|at|] != names[0] {
      LastMode(ns', u, at, names[1..], kids[1..], q);
    } else {
      OnlyThroughAllLinks(ns', u, at, names[1..], kids[1..], q);
      LastModeHere(ns, u, at, names[0], kids[0], q);
      LastAtAppend(if kids[0].Dir? then LaterLinks(ns[p := ADirectory], p, kids[0].names, kids[0].kids, q) else [],
                   ThroughAllLinks(ns', at, names[1..], kids[1..]), q);
    }
  }

  /** Which item of a list a path with a mode belongs to. */
  lemma Placed(at: Path, names: seq<bytes>, kids: seq<Tree<Owner>>, q: Path)
    requires Listed(names, kids) && q in ModesAll(at, names, kids)
    ensures kids != [] && |q| > |at|
    ensures Listed(names[1..], kids[1..])
    ensures q[|at|] == names[0] ==>
              && q !in BuiltAll(at, names[1..], kids[1..]) && q in Modes(at + [names[0]], kids[0])
              && ModesAll(at, names, kids)[q] == Modes(at + [names[0]], kids[0])[q]
    ensures q[|at|] != names[0] ==>
              && q in ModesAll(at, names[1..], kids[1..])
              && ModesAll(at, names, kids)[q] == ModesAll(at, names[1..], kids[1..])[q]
  {
    hide Built, Modes, Storable, BuiltAll;
    var p := at + [names[0]];
    BuiltBelow(p, kids[0]);
    ModesKeys(p, kids[0]);
    BuiltAllBelow(at, names[1..], kids[1..]);
    ModesAllKeys(at, names[1..], kids[1..]);
    ListedRest(names, kids);
    if q in Modes(p, kids[0]) { assert q[|at|] == p[|at|]; }
  }

  lemma ListedRest(names: seq<bytes>, kids: seq<Tree<Owner>>)
    requires Listed(names, kids) && names != []
    ensures Listed(names[1..], kids[1..]) && names[0] !in names[1..]
  {
    hide Storable;
    forall j | 0 <= j < |names| - 1
      ensures names[1..][j] != names[0]
    {
      assert names[j + 1] == names[1..][j];
    }
  }

  lemma {:induction false} LastModeHere(ns: Names, u: User, at: Path, name: bytes, t: Tree<Owner>, q: Path)
    requires Storable(t) && q in Modes(at + [name], t)
    ensures var p := at + [name];
            var later := LastAt(if t.Dir? then LaterLinks(ns[p := ADirectory], p, t.names, t.kids, q) else [], q);
            LastAt(Log(ns, u, at, name, t), q) == if later.Some? then later else Some(Modes(p, t)[q])
    decreases t
  {
    hide LogAll, ModesAll, LastAt;
    var p := at + [name];
    NoneAt(q);
    LastOne((p, t.attr.mode), q);
    match t
    case File(attr, _) =>
      LastAtAppend([(p, u.mask(attr.mode))], [(p, attr.mode)], q);
      assert [(p, u.mask(attr.mode))] + [(p, attr.mode)] == [(p, u.mask(attr.mode)), (p, attr.mode)];
    case Dir(attr, names, kids) =>
      var log := LogAll(ns[p := ADirectory], u, p, names, kids);
      LastAtAppend([(p, u.mask(attr.mode))], log, q);
      LastAtAppend([(p, u.mask(attr.mode))] + log, [(p, attr.mode)], q);
      BuiltAllBelow(p, names, kids);
      ModesAllKeys(p, names, kids);
      if q != p { LastMode(ns[p := ADirectory], u, p, names, kids, q); }
  }

  lemma NoneAt(q: Path)
    ensures LastAt([], q) == None
  {
  }

  lemma StorableListed(t: Tree<Owner>)
    requires Storable(t) && t.Dir?
    ensures Listed(t.names, t.kids)
  {
    hide Plain;
  }

  lemma LastOfThree(first: Event, log: seq<Event>, last: Event, q: Path)
    ensures LastAt([first] + log + [last], q)
         == if last.0 == q then Some(last.1)
            else if LastAt(log, q).Some? then LastAt(log, q)
            else if first.0 == q then Some(first.1) else None
  {
    hide LastAt;
    LastAtAppend([first] + log, [last], q);
    LastAtAppend([first], log, q);
    LastOne(first, q);
    LastOne(last, q);
  }

  /** The modes set through links visited after the item at `q`, when `t` is extracted into `output`. */
  function LaterChmods(d: Disk, output: bytes, t: Tree<Owner>, q: Path): seq<Event>
    requires t.Dir?
  {
    var out := d.cwd + [output];
    LaterLinks(d.ns[out := ADirectory], out, t.names, t.kids, q)
  }

  /**
    Which files and directories keep their modes: the item at `q` below the output directory has its own
    mode in the end if and only if no later link leads to it, or the last one that does has the same mode.
   */
  lemma ModesLand(d: Disk, u: User, output: bytes, t: Tree<Owner>, q: Path)
    requires Storable(t) && t.Dir? && Plain(output) && Clear(d.ns, d.cwd + [output])
    requires q in ModesAll(d.cwd + [output], t.names, t.kids)
    ensures var mode, own := Extracting(d, u, output, StepOf(t)).mode, ModesAll(d.cwd + [output], t.names, t.kids)[q];
            var later := LastAt(LaterChmods(d, output, t, q), q);
            && q in mode && mode[q] == (if later.Some? then later.value else own)
            && (mode[q] == own <==> later == None || later == Some(own))
  {
    hide Plain, Extracting, Storable, LogAll, ModesAll, LastAt, Apply, LaterLinks, StepOf;
    var out := d.cwd + [output];
    var log := LogAll(d.ns[out := ADirectory], u, out, t.names, t.kids);
    ExtractingFresh(d, u, output, t);
    StorableListed(t);
    BuiltAllBelow(out, t.names, t.kids);
    ModesAllKeys(out, t.names, t.kids);
    LastMode(d.ns[out := ADirectory], u, out, t.names, t.kids, q);
    LastOfThree((out, u.mask(511)), log, (d.cwd, t.attr.mode), q);
    ApplyAt(d.mode, [(out, u.mask(511))] + log + [(d.cwd, t.attr.mode)], q);
  }

  /**
    The root never gets its mode: the directory the tool was started in does. The output directory has what
    mkdir gave it, or what a link leading to it brought.
   */
  lemma RootModeLands(d: Disk, u: User, output: bytes, t: Tree<Owner>)
    requires Storable(t) && t.Dir? && Plain(output) && Clear(d.ns, d.cwd + [output])
    ensures var mode, out := Extracting(d, u, output, StepOf(t)).mode, d.cwd + [output];
            var links := LastAt(ThroughAllLinks(d.ns[out := ADirectory], out, t.names, t.kids), out);
            && d.cwd in mode && mode[d.cwd] == t.attr.mode
            && out in mode && mode[out] == if links.Some? then links.value else u.mask(511)
  {
    hide Plain, Extracting, Storable, LogAll, LastAt, Apply, ThroughAllLinks, StepOf;
    var out := d.cwd + [output];
    var ns := d.ns[out := ADirectory];
    var log := LogAll(ns, u, out, t.names, t.kids);
    ExtractingFresh(d, u, output, t);
    BuiltAllBelow(out, t.names, t.kids);
    OnlyThroughAllLinks(ns, u, out, t.names, t.kids, out);
    var all := [(out, u.mask(511))] + log + [(d.cwd, t.attr.mode)];
    LastOfThree((out, u.mask(511)), log, (d.cwd, t.attr.mode), out);
    LastOfThree((out, u.mask(511)), log, (d.cwd, t.attr.mode), d.cwd);
    ApplyAt(d.mode, all, out);
    ApplyAt(d.mode, all, d.cwd);
  }

  // ---------- two sources and a broken image ----------

  /**
    A file that cannot be read in full leaves the tool one directory higher: its next sibling is created
    beside the directory it belongs in.
   */
  lemma BrokenDisplaces(d: Disk, u: User, a: bytes, b: bytes, x: Owner, front: bytes, y: Owner, content: bytes)
    requires Plain(a) && Plain(b) && d.cwd in d.ns && d.cwd != []
    requires Clear(d.ns, d.cwd + [a]) && Clear(d.ns, Parent(d.cwd) + [b])
    ensures var d' := RunAll(d, u, [a, b], [BrokenFile(x, front), MakeFile(y, content)]);
            && d'.cwd == Parent(d.cwd)
            && d'.ns == d.ns[d.cwd + [a] := AFile(front)][Parent(d.cwd) + [b] := AFile(content)]
  {
    hide Plain, Named, Followed, Run, Built;
    var names, kids: seq<Step> := [a, b], [BrokenFile(x, front), MakeFile(y, content)];
    var p, d1 := d.cwd + [a], Up(Placing(d, u, d.cwd + [a], AFile(front), x.mode));
    RunsBroken(d, u, a, x, front);
    var q := Parent(d.cwd) + [b];
    BesideClear(d, a, b, AFile(front));
    MakesFile(d1, u, b, y, content);
    var last, none: seq<Step> := [MakeFile(y, content)], [];
    assert names[1..] == [b] && kids[1..] == last && last[1..] == none;
    assert RunAll(d1, u, [b], last) == Run(d1, u, b, last[0]);
    FileBuilt(q, y, content, d1.ns);
  }

  lemma FileBuilt(q: Path, y: Owner, content: bytes, ns: Names)
    ensures ns + Built(q, File(y, content)) == ns[q := AFile(content)]
  {
  }

  lemma BesideClear(d: Disk, a: bytes, b: bytes, what: What)
    requires d.cwd in d.ns && d.cwd != [] && Clear(d.ns, Parent(d.cwd) + [b])
    ensures Clear(d.ns[d.cwd + [a] := what], Parent(d.cwd) + [b])
  {
    var q, p := Parent(d.cwd) + [b], d.cwd + [a];
    assert q[|d.cwd| - 1] == b && p[|d.cwd| - 1] == d.cwd[|d.cwd| - 1];
    assert d.cwd == Parent(d.cwd) + [d.cwd[|d.cwd| - 1]];
    assert !(q <= d.cwd);
  }

  lemma RunsBroken(d: Disk, u: User, a: bytes, x: Owner, front: bytes)
    requires Plain(a) && Clear(d.ns, d.cwd + [a])
    ensures Run(d, u, a, BrokenFile(x, front)) == Up(Placing(d, u, d.cwd + [a], AFile(front), x.mode))
  {
    hide Plain, Named;
    NamedPlain(d, a);
  }


  /** A file of mode 0755 and, behind it, a link to it: the file ends with the link's mode 0777. */
  lemma LinkSpoilsMode(d: Disk, u: User, output: bytes) returns (t: Tree<Owner>)
    requires Plain(output) && Clear(d.ns, d.cwd + [output])
    ensures t == Dir(Owner(493, 0, 0), [[97], [98]], [File(Owner(493, 0, 0), [7]), Link(Owner(511, 0, 0), [97])])
    ensures var mode, q := Extracting(d, u, output, StepOf(t)).mode, d.cwd + [output] + [[97]];
            q in mode && mode[q] == 511
  {
    hide Plain, Extracting, StepOf, Resolve, Storable;
    var a, b: bytes := [97], [98];
    var x, y := File(Owner(493, 0, 0), [7]), Link(Owner(511, 0, 0), a);
    t := Dir(Owner(493, 0, 0), [a, b], [x, y]);
    var out := d.cwd + [output];
    var p, q := out + [b], out + [a];
    PlainPair(t, x, y);
    var ns := d.ns[out := ADirectory] + Built(q, x);
    var names, kids := [b], [y];
    assert t.names[1..] == names && t.kids[1..] == kids && names[1..] == [] && kids[1..] == [];
    assert p[|out|] == b && q[|out|] == a;
    LeadsThere(ns[p := ALink(a)], out, b, a);
    assert ThroughAllLinks(ns, out, names, kids) == [(q, 511)] + [];
    assert LaterChmods(d, output, t, q) == [] + ([(q, 511)] + []);
    assert [] + ([(q, 511)] + []) == [(q, 511)];
    LastOne((q, 511), q);
    ModesPair(out, t, x, y);
    ModesLand(d, u, output, t, q);
  }

  lemma PlainPair(t: Tree<Owner>, x: Tree<Owner>, y: Tree<Owner>)
    requires t.Dir? && t.names == [[97], [98]] && t.kids == [x, y] && x.File? && y.Link? && y.target != []
    ensures Storable(t)
  {
  }

  lemma ModesPair(out: Path, t: Tree<Owner>, x: Tree<Owner>, y: Tree<Owner>)
    requires t.Dir? && t.names == [[97], [98]] && t.kids == [x, y] && x.File? && y.Link?
    ensures ModesAll(out, t.names, t.kids) == map[out + [[97]] := x.attr.mode]
  {
    var names, kids: seq<Tree<Owner>> := [[98]], [y];
    assert t.names[1..] == names && t.kids[1..] == kids && names[1..] == [] && kids[1..] == [];
    assert ModesAll(out, names, kids) == map[];
  }

  /** A link beside its target leads to it. */
  lemma LeadsThere(ns: Names, at: Path, name: bytes, target: bytes)
    requires Plain(name) && Plain(target) && at + [name] in ns && ns[at + [name]] == ALink(target)
    requires at + [target] in ns && ns[at + [target]].AFile?
    ensures Resolve(ns, at, [name], MAXSYMLINKS) == Some(at + [target])
  {
    SplitPlain(target);
    var none, one: seq<bytes> := [], [target];
    assert [name][1..] == none && one[1..] == none && one + none == one;
    assert target[0] != SLASH;
    assert Resolve(ns, at, one, 39) == Some(at + [target]);
  }

  // ---------- sources without links ----------

  ghost predicate Linkless(t: Tree<Owner>) {
    !t.Link? && (t.Dir? ==> forall i :: 0 <= i < |t.kids| ==> Linkless(t.kids[i]))
  }

  lemma {:induction false} NothingThrough(ns: Names, at: Path, name: bytes, t: Tree<Owner>)
    requires Linkless(t)
    ensures ThroughLinks(ns, at, name, t) == []
    decreases t
  {
    if t.Dir? { NothingThroughAll(ns[at + [name] := ADirectory], at + [name], t.names, t.kids); }
  }

  lemma {:induction false} NothingThroughAll(ns: Names, at: Path, names: seq<bytes>, kids: seq<Tree<Owner>>)
    requires forall i :: 0 <= i < |kids| ==> Linkless(kids[i])
    ensures ThroughAllLinks(ns, at, names, kids) == []
    decreases kids
  {
    hide Linkless, Built;
    if kids != [] && names != [] {
      NothingThrough(ns, at, names[0], kids[0]);
      NothingThroughAll(ns + Built(at + [names[0]], kids[0]), at, names[1..], kids[1..]);
    }
  }

  lemma {:induction false} NothingLater(ns: Names, at: Path, names: seq<bytes>, kids: seq<Tree<Owner>>, q: Path)
    requires forall i :: 0 <= i < |kids| ==> Linkless(kids[i])
    ensures LaterLinks(ns, at, names, kids, q) == []
    decreases kids
  {
    hide Built;
    if kids != [] && names != [] {
      var p, ns' := at + [names[0]], ns + Built(at + [names[0]], kids[0]);
      NothingThroughAll(ns', at, names[1..], kids[1..]);
      NothingLater(ns', at, names[1..], kids[1..], q);
      if kids[0].Dir? { NothingLater(ns[p := ADirectory], p, kids[0].names, kids[0].kids, q); }
    }
  }

  /** Without links every item below the root keeps its mode. */
  lemma LinklessModes(d: Disk, u: User, output: bytes, t: Tree<Owner>, q: Path)
    requires Storable(t) && t.Dir? && Linkless(t) && Plain(output) && Clear(d.ns, d.cwd + [output])
    requires q in ModesAll(d.cwd + [output], t.names, t.kids)
    ensures var mode := Extracting(d, u, output, StepOf(t)).mode;
            q in mode && mode[q] == ModesAll(d.cwd + [output], t.names, t.kids)[q]
  {
    hide Plain, Extracting, Storable, LaterLinks, ModesAll, StepOf;
    var out := d.cwd + [output];
    NothingLater(d.ns[out := ADirectory], out, t.names, t.kids, q);
    NoneAt(q);
    ModesLand(d, u, output, t, q);
  }
}
