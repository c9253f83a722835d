/** What the extraction tool does where something already stands under the name it makes. */
module Replacing {
  import opened Seqs
  import opened Format
  import opened Reader
  import opened Extraction

  /** Something stands at `p` that is no directory. */
  predicate ALeaf(ns: Names, p: Path) {
    p in ns && ns[p] != ADirectory
  }

  predicate ADir(ns: Names, p: Path) {
    p in ns && ns[p] == ADirectory
  }

  lemma Unlinked(d: Disk, name: bytes)
    requires Plain(name)
    ensures var p := d.cwd + [name];
            && Named(d, name) == Named(Unlink(d, name), name) == Some(p)
            && Unlink(d, name) == if ALeaf(d.ns, p) then Disk(d.ns - {p}, d.mode - {p}, d.owner - {p}, d.cwd) else d
  {
    hide Plain, Named;
    NamedPlain(d, name);
    NamedPlain(Unlink(d, name), name);
  }

  lemma Again<V>(m: map<Path, V>, p: Path, v: V)
    ensures (m - {p})[p := v] == m[p := v]
  {
  }

  /** A file or link in the way of a file is replaced, whatever the link led to; nothing else changes. */
  lemma FileReplaces(d: Disk, u: User, name: bytes, attr: Owner, content: bytes)
    requires Plain(name) && !ADir(d.ns, d.cwd + [name])
    ensures var p := d.cwd + [name];
            Run(d, u, name, MakeFile(attr, content))
            == Disk(d.ns[p := AFile(content)], d.mode[p := attr.mode], d.owner[p := (attr.uid, attr.gid)], d.cwd)
  {
    hide Plain, Named, Followed, Finish, Unlink;
    var p := d.cwd + [name];
    Unlinked(d, name);
    var d0 := Unlink(d, name);
    var d1 := Placing(d0, u, p, AFile(content), attr.mode);
    assert Create(d0, u, name, attr.mode, content) == Some(d1);
    FinishPlain(d1, name, attr);
    Again(d.ns, p, AFile(content));
    Again(d.mode, p, attr.mode);
    Again(d.owner, p, (attr.uid, attr.gid));
  }

  /** So is one in the way of a file that cannot be read, which keeps what open gave it; the tool moves up. */
  lemma BrokenFileReplaces(d: Disk, u: User, name: bytes, attr: Owner, front: bytes)
    requires Plain(name) && !ADir(d.ns, d.cwd + [name])
    ensures var p := d.cwd + [name];
            Run(d, u, name, BrokenFile(attr, front))
            == Disk(d.ns[p := AFile(front)], d.mode[p := u.mask(attr.mode)], d.owner[p := (u.uid, u.gid)],
                    Parent(d.cwd))
  {
    hide Plain, Named, Unlink;
    var p := d.cwd + [name];
    Unlinked(d, name);
    Again(d.ns, p, AFile(front));
    Again(d.mode, p, u.mask(attr.mode));
    Again(d.owner, p, (u.uid, u.gid));
  }

  /** A file or link in the way of a link is replaced; the mode lands where the new link leads, if anywhere. */
  lemma LinkReplaces(d: Disk, u: User, name: bytes, attr: Owner, target: bytes)
    requires Plain(name) && !ADir(d.ns, d.cwd + [name]) && target != []
    ensures var p := d.cwd + [name];
            var ns := d.ns[p := ALink(target)];
            var mode := if ALeaf(d.ns, p) then d.mode - {p} else d.mode;
            Run(d, u, name, MakeLink(attr, target))
            == Disk(ns, match Resolve(ns, d.cwd, [name], 40) case None => mode case Some(q) => mode[q := attr.mode],
                    d.owner[p := (attr.uid, attr.gid)], d.cwd)
  {
    hide Plain, Named, Finish, Unlink, Resolve;
    var p := d.cwd + [name];
    Unlinked(d, name);
    var d0 := Unlink(d, name);
    var d1 := d0.(ns := d0.ns[p := ALink(target)], owner := d0.owner[p := (u.uid, u.gid)]);
    assert Symlink(d0, u, target, name) == Some(d1);
    FinishLink(d1, name, attr);
    Again(d.ns, p, ALink(target));
    Again(d.owner, p, (u.uid, u.gid));
    var r := Resolve(d1.ns, d.cwd, [name], MAXSYMLINKS);
    if r.Some? { Apply1(d1.mode, r.value, attr.mode); }
  }

  /** A link that cannot be read, or leads nowhere by name, is not made, but what had its name is gone. */
  lemma NoLink(d: Disk, u: User, name: bytes, attr: Owner)
    requires Plain(name)
    ensures var p := d.cwd + [name];
            var d0 := if ALeaf(d.ns, p) then Disk(d.ns - {p}, d.mode - {p}, d.owner - {p}, d.cwd) else d;
            && Run(d, u, name, BrokenLink) == d0.(cwd := Parent(d.cwd)) && Run(d, u, name, MakeLink(attr, [])) == d0
  {
    hide Plain, Named, Unlink;
    Unlinked(d, name);
  }

  /** A directory in the way of a file or link stays, and nothing is made. */
  lemma DirectoryStays(d: Disk, u: User, name: bytes, attr: Owner, content: bytes)
    requires Plain(name) && ADir(d.ns, d.cwd + [name])
    ensures Run(d, u, name, MakeFile(attr, content)) == d && Run(d, u, name, BrokenFile(attr, content)) == d
    ensures Run(d, u, name, MakeLink(attr, content)) == d
  {
    hide Plain, Named, Unlink, Finish;
    Unlinked(d, name);
  }

  /** A file in the way of a directory stays too, and nothing below it is traversed. */
  lemma FileStays(d: Disk, u: User, name: bytes, attr: Owner, names: seq<bytes>, kids: seq<Step>)
    requires Plain(name) && d.cwd + [name] in d.ns && d.ns[d.cwd + [name]].AFile?
    ensures Run(d, u, name, MakeDir(attr, names, kids)) == d && Run(d, u, name, BrokenDir(attr)) == d
  {
    hide Plain, Named, Followed, Finish, RunAll;
    NamedPlain(d, name);
    FollowPlain(d, name);
  }

  /**
    A directory that stands there already is entered with what is in it, and gets its mode and owner at the end; one
    that cannot be read is only entered and left.
   */
  lemma DirectoryEntered(d: Disk, u: User, name: bytes, attr: Owner, names: seq<bytes>, kids: seq<Step>)
    requires Plain(name) && ADir(d.ns, d.cwd + [name])
    ensures Run(d, u, name, MakeDir(attr, names, kids))
         == Finish(Up(RunAll(d.(cwd := d.cwd + [name]), u, names, kids)), name, attr)
    ensures Run(d, u, name, BrokenDir(attr)) == d
  {
    hide Plain, Named, Followed, Finish, RunAll;
    NamedPlain(d, name);
    FollowPlain(d, name);
    var p := d.cwd + [name];
    assert Enter(d, u, name, attr.mode) == (true, d.(cwd := p));
    assert Parent(p) == d.cwd;
  }

  /** A new directory that cannot be read is made, entered and left. */
  lemma DirectoryLeft(d: Disk, u: User, name: bytes, attr: Owner)
    requires Plain(name) && d.cwd + [name] !in d.ns
    ensures var p := d.cwd + [name];
            Run(d, u, name, BrokenDir(attr))
            == Disk(d.ns[p := ADirectory], d.mode[p := u.mask(attr.mode)], d.owner[p := (u.uid, u.gid)], d.cwd)
  {
    hide Plain, Named, Followed;
    NamedPlain(d, name);
    var p := d.cwd + [name];
    var d1 := Placing(d, u, p, ADirectory, attr.mode);
    FollowPlain(d1, name);
    assert Enter(d, u, name, attr.mode) == (true, d1.(cwd := p));
    assert Parent(p) == d.cwd;
  }
}
