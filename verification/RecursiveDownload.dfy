/**
 * Recursive download of a directory tree (`_download_file` of the Paramiko driver with
 * `recursive=True` and `sync_mode="full"`), onto a local disk that may already hold files.
 */
module RecursiveDownload {
  import opened Types
  import opened FileTransfer
  import opened RemoteTree

  type Path = seq<Name>

  // ---------- What a tree holds ----------

  // The files of a tree placed at p, and those of the first k entries of a directory.
  function Files(t: Tree, p: Path): map<Path, Bytes>
    decreases t, 1, 0
  {
    if t.File? then map[p := t.data] else FilesIn(t, p, |t.entries|)
  }

  function FilesIn(t: Tree, p: Path, k: nat): map<Path, Bytes>
    requires t.Dir? && k <= |t.entries|
    decreases t, 0, k
  {
    if k == 0 then map[]
    else FilesIn(t, p, k - 1) + Files(t.entries[k - 1].node, p + [t.entries[k - 1].name])
  }

  function Dirs(t: Tree, p: Path): set<Path>
    decreases t, 1, 0
  {
    if t.File? then {} else {p} + DirsIn(t, p, |t.entries|)
  }

  function DirsIn(t: Tree, p: Path, k: nat): set<Path>
    requires t.Dir? && k <= |t.entries|
    decreases t, 0, k
  {
    if k == 0 then {}
    else DirsIn(t, p, k - 1) + Dirs(t.entries[k - 1].node, p + [t.entries[k - 1].name])
  }

  // The sizes of all files added up.
  function Volume(t: Tree): nat
    decreases t, 1, 0
  {
    if t.File? then |t.data| else VolumeIn(t, |t.entries|)
  }

  function VolumeIn(t: Tree, k: nat): nat
    requires t.Dir? && k <= |t.entries|
    decreases t, 0, k
  {
    if k == 0 then 0 else VolumeIn(t, k - 1) + Volume(t.entries[k - 1].node)
  }

  lemma {:induction false} AllUnder(t: Tree, p: Path)
    ensures forall q :: q in Files(t, p) ==> p <= q
    ensures forall q :: q in Dirs(t, p) ==> p <= q
    decreases t, 1, 0
  {
    if t.Dir? {
      AllUnderIn(t, p, |t.entries|);
    }
  }

  // Everything in a directory lies below one of its entries.
  predicate Below(t: Tree, p: Path, k: nat, q: Path)
    requires t.Dir? && k <= |t.entries|
  {
    p <= q && |p| < |q| && exists i :: 0 <= i < k && t.entries[i].name == q[|p|]
  }

  lemma {:induction false} AllUnderIn(t: Tree, p: Path, k: nat)
    requires t.Dir? && k <= |t.entries|
    ensures forall q :: q in FilesIn(t, p, k) ==> Below(t, p, k, q)
    ensures forall q :: q in DirsIn(t, p, k) ==> Below(t, p, k, q)
    decreases t, 0, k
  {
    if k > 0 {
      AllUnderIn(t, p, k - 1);
      var e := t.entries[k - 1];
      var c := p + [e.name];
      AllUnder(e.node, c);
      assert forall q :: c <= q ==> p <= q && |p| < |q| && q[|p|] == c[|p|];
    }
  }

  // The node at the end of a relative path, the first entry of each name counting.
  function NodeAt(t: Tree, rel: Path): Option<Tree>
    decreases |rel|
  {
    if rel == [] then Some(t)
    else if t.File? then None
    else EntryAt(t.entries, rel, 0)
  }

  function EntryAt(es: seq<Entry>, rel: Path, i: nat): Option<Tree>
    requires rel != [] && i <= |es|
    decreases |rel|, |es| - i
  {
    if i == |es| then None
    else if es[i].name == rel[0] then NodeAt(es[i].node, rel[1..])
    else EntryAt(es, rel, i + 1)
  }

  ghost predicate FileAt(t: Tree, p: Path, q: Path, data: Bytes) {
    p <= q && NodeAt(t, q[|p|..]) == Some(File(data))
  }

  ghost predicate DirAt(t: Tree, p: Path, q: Path) {
    p <= q && NodeAt(t, q[|p|..]).Some? && NodeAt(t, q[|p|..]).value.Dir?
  }

  lemma {:induction false} EntryFound(es: seq<Entry>, rel: Path, k: nat, i: nat)
    requires rel != [] && DistinctNames(es) && i <= k < |es| && es[k].name == rel[0]
    ensures EntryAt(es, rel, i) == NodeAt(es[k].node, rel[1..])
    decreases k - i
  {
    if i < k {
      assert es[i].name != es[k].name;
      EntryFound(es, rel, k, i + 1);
    }
  }

  lemma {:induction false} NoEntry(es: seq<Entry>, rel: Path, i: nat)
    requires rel != [] && i <= |es| && forall k :: i <= k < |es| ==> es[k].name != rel[0]
    ensures EntryAt(es, rel, i).None?
    decreases |es| - i
  {
    if i < |es| {
      NoEntry(es, rel, i + 1);
    }
  }

  /** A tree placed at p holds exactly its files and directories, each at the path made of the names that
      lead to it. */
  lemma {:induction false} HoldsExactly(t: Tree, p: Path, q: Path, data: Bytes)
    requires Proper(t)
    ensures q in Files(t, p) && Files(t, p)[q] == data <==> FileAt(t, p, q, data)
    ensures q in Dirs(t, p) <==> DirAt(t, p, q)
    decreases t, 1, 0
  {
    if t.File? {
      assert p <= q && q[|p|..] == [] <==> q == p;
    } else {
      AllUnderIn(t, p, |t.entries|);
      if p < q {
        var rel := q[|p|..];
        if k: nat :| k < |t.entries| && t.entries[k].name == rel[0] {
          HoldsIn(t, p, |t.entries|, k, q, data);
          EntryFound(t.entries, rel, k, 0);
          BelowEntry(p, t.entries[k].name, q);
        } else {
          NoEntry(t.entries, rel, 0);
        }
      } else if p <= q {
        assert q == p && q[|p|..] == [];
      }
    }
  }

  lemma BelowEntry(p: Path, name: Name, q: Path)
    requires p < q && q[|p|] == name
    ensures p + [name] <= q && q[|p + [name]|..] == q[|p|..][1..]
  {
  }

  // Below one of the first k entries, a directory holds what the entry holds.
  lemma {:induction false} HoldsIn(t: Tree, p: Path, k: nat, i: nat, q: Path, data: Bytes)
    requires t.Dir? && Proper(t) && i < k <= |t.entries| && p < q && q[|p|] == t.entries[i].name
    ensures var node, c := t.entries[i].node, p + [t.entries[i].name];
            && (q in FilesIn(t, p, k) && FilesIn(t, p, k)[q] == data <==> FileAt(node, c, q, data))
            && (q in DirsIn(t, p, k) <==> DirAt(node, c, q))
    decreases t, 0, k
  {
    var e := t.entries[k - 1];
    var c := p + [e.name];
    if i < k - 1 {
      HoldsIn(t, p, k - 1, i, q, data);
      AllUnder(e.node, c);
      assert c[|p|] == e.name;
      assert !(c <= q);
    } else {
      HoldsExactly(e.node, c, q, data);
      AllUnderIn(t, p, k - 1);
      assert !Below(t, p, k - 1, q);
    }
  }

  /** The volume is the sizes of the files added up. */
  lemma VolumeAdds(data: Bytes, es: seq<Entry>, e: Entry)
    ensures Volume(File(data)) == |data| && Volume(Dir([])) == 0
    ensures Volume(Dir(es + [e])) == Volume(Dir(es)) + Volume(e.node)
  {
    VolumeOfFirst(es, e, |es|);
  }

  lemma {:induction false} VolumeOfFirst(es: seq<Entry>, e: Entry, k: nat)
    requires k <= |es|
    ensures VolumeIn(Dir(es + [e]), k) == VolumeIn(Dir(es), k)
  {
    if k > 0 {
      VolumeOfFirst(es, e, k - 1);
    }
  }

  // ---------- The local disk ----------

  function Prefixes(p: Path): set<Path> {
    set k | 0 <= k <= |p| :: p[..k]
  }

  lemma ParentsArePrefixes(p: Path, n: nat)
    requires n <= |p|
    ensures Prefixes(p[..n]) <= Prefixes(p)
  {
    forall q | q in Prefixes(p[..n]) ensures q in Prefixes(p) {
      assert q == p[..|q|];
    }
  }

  function Lookup(files: map<Path, Bytes>, p: Path): Option<Bytes> {
    if p in files then Some(files[p]) else None
  }

  class Disk {
    var files: map<Path, Bytes>
    var dirs: set<Path>
    // What `os.path.getsize` says of a directory.
    const dirSize: nat

    constructor (files: map<Path, Bytes>, dirs: set<Path>, dirSize: nat)
      ensures this.files == files && this.dirs == dirs
    {
      this.files, this.dirs, this.dirSize := files, dirs, dirSize;
    }

    // `os.makedirs`; when it fails it may have made some of the parents.
    method MakeDirs(p: Path, healthy: bool) returns (ok: bool)
      modifies this`dirs
      ensures ok ==> dirs == old(dirs) + Prefixes(p)
      ensures old(dirs) <= dirs <= old(dirs) + Prefixes(p)
      ensures healthy && (forall q :: q in Prefixes(p) ==> q !in files) ==> ok
    {
      ok := forall q :: q in Prefixes(p) ==> q !in files;
      if !healthy {
        if * {
          ok := false;
        }
      }
      if ok {
        dirs := dirs + Prefixes(p);
      } else {
        var n: nat :| n <= |p|;
        ParentsArePrefixes(p, n);
        if forall q :: q in Prefixes(p[..n]) ==> q !in files {
          dirs := dirs + Prefixes(p[..n]);
        }
      }
    }
  }

  predicate CanOpen(dirs: set<Path>, p: Path) {
    p !in dirs && p != [] && p[..|p| - 1] in dirs
  }

  // The copies the tree leaves, and everything else as it was.
  function Overlay(files: map<Path, Bytes>, copies: map<Path, Bytes>, resume: bool): map<Path, Bytes> {
    files + map q | q in copies :: Landed(copies[q], Lookup(files, q), resume)
  }

  // The tree does not clash in kind with what is on the disk, and its place can be made.
  ghost predicate Fits(t: Tree, p: Path, files: map<Path, Bytes>, dirs: set<Path>) {
    && (forall q :: q in Files(t, p) ==> q !in dirs)
    && (forall q :: q in Dirs(t, p) ==> q !in files)
    && (forall q :: q in Prefixes(p) && q != p ==> q !in files)
    && (t.File? ==> p != [] && p[..|p| - 1] in dirs)
  }

  // ---------- One file ----------

  method DownloadFile(disk: Disk, remote: Bytes, p: Path, resume: bool, chunkSize: int, healthy: bool)
    returns (r: Outcome)
    modifies disk`files
    ensures forall q :: q != p ==> Lookup(disk.files, q) == Lookup(old(disk.files), q)
    ensures CanOpen(disk.dirs, p) && r.Completed? && chunkSize != 0 ==>
              disk.files == old(disk.files)[p := Landed(remote, Lookup(old(disk.files), p), resume)]
              && r.transferred == |remote|
    ensures healthy && CanOpen(disk.dirs, p) ==> r.Completed?
    // a directory in its place counts as done when resuming over one at least as large, and raises otherwise
    ensures p in disk.dirs ==>
              disk.files == old(disk.files) && (r.Completed? <==> resume && disk.dirSize >= |remote|)
  {
    if p in disk.dirs && resume && disk.dirSize >= |remote| {
      return Completed(|remote|, |remote|, false, false);
    }
    if !CanOpen(disk.dirs, p) {
      return Interrupted;
    }
    var local := new Target(Lookup(disk.files, p));
    r := Download(remote, local, resume, None, chunkSize, healthy);
    if local.content.Some? {
      disk.files := disk.files[p := local.content.value];
    }
  }

  // ---------- A tree ----------

  lemma OverlayAt(files: map<Path, Bytes>, copies: map<Path, Bytes>, resume: bool, q: Path)
    ensures Lookup(Overlay(files, copies, resume), q) ==
            if q in copies then Some(Landed(copies[q], Lookup(files, q), resume)) else Lookup(files, q)
  {
  }

  lemma SameLookups(a: map<Path, Bytes>, b: map<Path, Bytes>)
    requires forall q :: Lookup(a, q) == Lookup(b, q)
    ensures a == b
  {
    forall q ensures q in a <==> q in b {
      assert Lookup(a, q) == Lookup(b, q);
    }
    forall q | q in a ensures a[q] == b[q] {
      assert Lookup(a, q) == Lookup(b, q);
    }
  }

  lemma OverlayTwice(files: map<Path, Bytes>, a: map<Path, Bytes>, b: map<Path, Bytes>, resume: bool)
    requires a.Keys !! b.Keys
    ensures Overlay(Overlay(files, a, resume), b, resume) == Overlay(files, a + b, resume)
  {
    var once := Overlay(files, a, resume);
    forall q ensures Lookup(Overlay(once, b, resume), q) == Lookup(Overlay(files, a + b, resume), q) {
      OverlayAt(once, b, resume, q);
      OverlayAt(files, a, resume, q);
      OverlayAt(files, a + b, resume, q);
    }
    SameLookups(Overlay(once, b, resume), Overlay(files, a + b, resume));
  }

  lemma PrefixesOfChild(p: Path, name: Name)
    ensures Prefixes(p + [name]) == Prefixes(p) + {p + [name]}
  {
    var c := p + [name];
    forall q | q in Prefixes(p) ensures q in Prefixes(c) {
      assert q == c[..|q|];
    }
    forall q | q in Prefixes(c) ensures q in Prefixes(p) + {c} {
      assert q == c[..|q|];
      if |q| <= |p| {
        assert q == p[..|q|];
      } else {
        assert q == c;
      }
    }
    assert c == c[..|c|];
  }

  // Nothing the first k entries hold is at, above or below the place of the next one.
  lemma NextApart(t: Tree, p: Path, k: nat)
    requires t.Dir? && Proper(t) && k < |t.entries|
    ensures FilesIn(t, p, k).Keys !! Files(t.entries[k].node, p + [t.entries[k].name]).Keys
    ensures forall q :: q in DirsIn(t, p, k) || q in FilesIn(t, p, k) ==>
              !(p + [t.entries[k].name] <= q) && q !in Prefixes(p + [t.entries[k].name])
  {
    var c := p + [t.entries[k].name];
    AllUnderIn(t, p, k);
    AllUnder(t.entries[k].node, c);
    forall q | Below(t, p, k, q) ensures !(c <= q) && q !in Prefixes(c) {
      assert c[|p|] == t.entries[k].name;
    }
  }

  lemma FitsChild(t: Tree, p: Path, k: nat, files: map<Path, Bytes>, dirs: set<Path>, resume: bool, dirsNow: set<Path>)
    requires t.Dir? && Proper(t) && k < |t.entries| && Fits(t, p, files, dirs)
    requires p in dirsNow && dirsNow <= dirs + Prefixes(p) + DirsIn(t, p, k)
    ensures Fits(t.entries[k].node, p + [t.entries[k].name],
                 Overlay(files, FilesIn(t, p, k), resume), dirsNow)
  {
    var node, c := t.entries[k].node, p + [t.entries[k].name];
    NextApart(t, p, k);
    AllUnder(node, c);
    PrefixesOfChild(p, t.entries[k].name);
    EntryIsPart(t, p, k, |t.entries|);
    assert c[..|c| - 1] == p;
  }

  lemma {:induction false} DirsGrow(t: Tree, p: Path, k: nat, n: nat)
    requires t.Dir? && k <= n <= |t.entries|
    ensures DirsIn(t, p, k) <= DirsIn(t, p, n)
  {
    if k < n {
      DirsGrow(t, p, k, n - 1);
    }
  }

  lemma {:induction false} EntryIsPart(t: Tree, p: Path, k: nat, n: nat)
    requires t.Dir? && k < n <= |t.entries|
    ensures Files(t.entries[k].node, p + [t.entries[k].name]).Keys <= FilesIn(t, p, n).Keys
    ensures Dirs(t.entries[k].node, p + [t.entries[k].name]) <= DirsIn(t, p, n)
  {
    if k < n - 1 {
      EntryIsPart(t, p, k, n - 1);
    }
  }

  // What may have changed: files at or below p, and directories on the way to it or inside it.
  ghost predicate Outside(p: Path, before: map<Path, Bytes>, after: map<Path, Bytes>) {
    forall q :: !(p <= q) ==> Lookup(after, q) == Lookup(before, q)
  }

  ghost predicate OnlyMade(t: Tree, p: Path, before: set<Path>, after: set<Path>) {
    before <= after <= before + (if t.File? then {} else Prefixes(p)) + Dirs(t, p)
  }

  ghost predicate OnlyMadeIn(t: Tree, p: Path, k: nat, before: set<Path>, after: set<Path>)
    requires t.Dir? && k <= |t.entries|
  {
    before <= after <= before + Prefixes(p) + DirsIn(t, p, k)
  }

  // What has been copied: all of a tree, or the first k entries of a directory.
  ghost predicate Copied(t: Tree, p: Path, resume: bool, before: map<Path, Bytes>,
                         after: map<Path, Bytes>, dirs: set<Path>, total: nat) {
    after == Overlay(before, Files(t, p), resume) && Dirs(t, p) <= dirs && total == Volume(t)
  }

  ghost predicate CopiedIn(t: Tree, p: Path, k: nat, resume: bool, before: map<Path, Bytes>,
                           after: map<Path, Bytes>, dirs: set<Path>, total: nat)
    requires t.Dir? && k <= |t.entries|
  {
    && after == Overlay(before, FilesIn(t, p, k), resume)
    && p in dirs && DirsIn(t, p, k) <= dirs && total == VolumeIn(t, k)
  }

  lemma MadeStep(t: Tree, p: Path, k: nat, before: set<Path>, now: set<Path>, after: set<Path>)
    requires t.Dir? && k < |t.entries| && OnlyMadeIn(t, p, k, before, now)
    requires OnlyMade(t.entries[k].node, p + [t.entries[k].name], now, after)
    ensures OnlyMadeIn(t, p, k + 1, before, after)
  {
    PrefixesOfChild(p, t.entries[k].name);
  }

  lemma CopiedStep(t: Tree, p: Path, k: nat, resume: bool, before: map<Path, Bytes>, now: map<Path, Bytes>,
                   after: map<Path, Bytes>, dirsNow: set<Path>, dirs: set<Path>, total: nat, part: nat)
    requires t.Dir? && Proper(t) && k < |t.entries| && dirsNow <= dirs
    requires CopiedIn(t, p, k, resume, before, now, dirsNow, total)
    requires Copied(t.entries[k].node, p + [t.entries[k].name], resume, now, after, dirs, part)
    ensures CopiedIn(t, p, k + 1, resume, before, after, dirs, total + part)
  {
    var e := t.entries[k];
    NextApart(t, p, k);
    OverlayTwice(before, FilesIn(t, p, k), Files(e.node, p + [e.name]), resume);
  }

  lemma OutsideStep(p: Path, name: Name, before: map<Path, Bytes>, now: map<Path, Bytes>, after: map<Path, Bytes>)
    requires Outside(p, before, now) && Outside(p + [name], now, after)
    ensures Outside(p, before, after)
  {
    forall q | !(p <= q) ensures Lookup(after, q) == Lookup(before, q) {
      assert p + [name] <= q ==> p <= q;
    }
  }

  // Whatever is walked, only directories on the way to p or inside it are made.
  ghost predicate Near(p: Path, before: set<Path>, after: set<Path>) {
    before <= after && forall q :: q in after && q !in before ==> q <= p || p <= q
  }

  lemma NearStep(p: Path, name: Name, before: set<Path>, now: set<Path>, after: set<Path>)
    requires Near(p, before, now) && Near(p + [name], now, after)
    ensures Near(p, before, after)
  {
    forall q | q in after && q !in before ensures q <= p || p <= q {
      if q !in now && q <= p + [name] && |q| <= |p| {
        assert q == (p + [name])[..|q|] == p[..|q|];
      }
    }
  }

  lemma PrefixesAreNear(p: Path, before: set<Path>, after: set<Path>)
    requires before <= after <= before + Prefixes(p)
    ensures Near(p, before, after)
  {
  }

  // What a call that walks this tree, or none, has done.
  ghost predicate Delivered(seen: Option<Tree>, p: Path, resume: bool, exact: bool, healthy: bool, files: map<Path, Bytes>,
                            dirs: set<Path>, files': map<Path, Bytes>, dirs': set<Path>, r: Option<nat>) {
    && Outside(p, files, files') && Near(p, dirs, dirs')
    && (seen.None? && !resume ==> r.None?)
    && (seen.Some? ==> OnlyMade(seen.value, p, dirs, dirs'))
    && (seen.Some? && exact && Fits(seen.value, p, files, dirs) ==>
          (r.Some? ==> Copied(seen.value, p, resume, files, files', dirs', r.value)) && (healthy ==> r.Some?))
  }

  method DownloadLeaf(disk: Disk, data: Bytes, p: Path, resume: bool, chunkSize: int, healthy: bool)
    returns (r: Option<nat>)
    modifies disk`files
    ensures Delivered(Some(File(data)), p, resume, chunkSize != 0, healthy,
                      old(disk.files), disk.dirs, disk.files, disk.dirs, r)
  {
    var one := DownloadFile(disk, data, p, resume, chunkSize, healthy);
    return if one.Completed? then Some(one.transferred) else None;
  }

  // A directory where a file was listed.  Resuming over something at least as large counts as done;
  // otherwise reading it fails, before or after the local file was opened.
  method DownloadDirectoryAsFile(disk: Disk, size: nat, p: Path, resume: bool, healthy: bool) returns (r: Option<nat>)
    modifies disk`files
    ensures Delivered(None, p, resume, false, healthy, old(disk.files), disk.dirs, disk.files, disk.dirs, r)
  {
    if resume && p in disk.files && |disk.files[p]| >= size {
      return Some(size);
    }
    if resume && p in disk.dirs && disk.dirSize >= size {
      return Some(size);
    }
    if * {
      if CanOpen(disk.dirs, p) {
        disk.files := disk.files[p := if resume && p in disk.files then disk.files[p] else []];
      }
    }
    return None;
  }

  // Creates the local directory unless something is there already.
  method EnterDirectory(disk: Disk, p: Path, healthy: bool) returns (ok: bool)
    modifies disk`dirs
    ensures old(disk.dirs) <= disk.dirs <= old(disk.dirs) + Prefixes(p)
    ensures ok && p !in disk.files ==> p in disk.dirs
    ensures healthy && (forall q :: q in Prefixes(p) ==> q !in disk.files) ==> ok
  {
    ok := true;
    if p !in disk.files && p !in disk.dirs {
      ok := disk.MakeDirs(p, healthy);
    }
    assert p == p[..|p|];
  }

  // Where the loop over the entries stands: what has been walked so far, and what has been done.
  ghost predicate Underway(seen: Option<Tree>, p: Path, k: nat, resume: bool, exact: bool, files: map<Path, Bytes>,
                           dirs: set<Path>, filesNow: map<Path, Bytes>, dirsNow: set<Path>, total: nat)
    requires seen.Some? ==> seen.value.Dir? && k <= |seen.value.entries|
  {
    && Outside(p, files, filesNow) && Near(p, dirs, dirsNow)
    && (seen.Some? ==> OnlyMadeIn(seen.value, p, k, dirs, dirsNow))
    && (seen.Some? && exact && Fits(seen.value, p, files, dirs) ==>
          CopiedIn(seen.value, p, k, resume, files, filesNow, dirsNow, total))
  }

  lemma Entered(seen: Option<Tree>, p: Path, resume: bool, exact: bool, files: map<Path, Bytes>, dirs: set<Path>, dirsNow: set<Path>)
    requires seen.Some? ==> seen.value.Dir?
    requires dirs <= dirsNow <= dirs + Prefixes(p) && (p !in files ==> p in dirsNow)
    ensures Underway(seen, p, 0, resume, exact, files, dirs, files, dirsNow, 0)
  {
    PrefixesAreNear(p, dirs, dirsNow);
    if seen.Some? && Fits(seen.value, p, files, dirs) {
      assert p in Dirs(seen.value, p);
      assert Overlay(files, map[], resume) == files;
    }
  }

  lemma FitsMakesWay(t: Tree, p: Path, files: map<Path, Bytes>, dirs: set<Path>)
    requires t.Dir? && Fits(t, p, files, dirs)
    ensures forall q :: q in Prefixes(p) ==> q !in files
  {
    assert p in Dirs(t, p);
  }

  // The directory was not entered.
  lemma NotEntered(seen: Option<Tree>, p: Path, resume: bool, exact: bool, healthy: bool, files: map<Path, Bytes>,
                   dirs: set<Path>, dirsNow: set<Path>)
    requires seen.Some? ==> seen.value.Dir?
    requires dirs <= dirsNow <= dirs + Prefixes(p)
    requires !(healthy && forall q :: q in Prefixes(p) ==> q !in files)
    ensures Delivered(seen, p, resume, exact, healthy, files, dirs, files, dirsNow, None)
  {
    PrefixesAreNear(p, dirs, dirsNow);
    if seen.Some? && Fits(seen.value, p, files, dirs) {
      FitsMakesWay(seen.value, p, files, dirs);
    }
  }

  // The k-th entry of what is walked, if all of it can be, is this one.
  ghost predicate IsEntry(seen: Option<Tree>, k: nat, name: Name, node: Option<Tree>) {
    seen.Some? ==>
      && seen.value.Dir? && Proper(seen.value) && k < |seen.value.entries|
      && seen.value.entries[k].name == name && node == Some(seen.value.entries[k].node)
  }

  // One entry more has arrived.
  lemma EntryDone(seen: Option<Tree>, node: Option<Tree>, p: Path, name: Name, k: nat, resume: bool, exact: bool, healthy: bool,
                  files: map<Path, Bytes>, dirs: set<Path>, filesNow: map<Path, Bytes>, dirsNow: set<Path>,
                  files': map<Path, Bytes>, dirs': set<Path>, total: nat, part: nat)
    requires IsEntry(seen, k, name, node)
    requires Underway(seen, p, k, resume, exact, files, dirs, filesNow, dirsNow, total)
    requires Delivered(node, p + [name], resume, exact, healthy, filesNow, dirsNow, files', dirs', Some(part))
    ensures Underway(seen, p, k + 1, resume, exact, files, dirs, files', dirs', total + part)
    ensures !resume ==> node.Some?
  {
    OutsideStep(p, name, files, filesNow, files');
    NearStep(p, name, dirs, dirsNow, dirs');
    if seen.Some? {
      MadeStep(seen.value, p, k, dirs, dirsNow, dirs');
      if exact && Fits(seen.value, p, files, dirs) {
        FitsChild(seen.value, p, k, files, dirs, resume, dirsNow);
        CopiedStep(seen.value, p, k, resume, files, filesNow, files', dirsNow, dirs', total, part);
      }
    }
  }

  // An entry raised, and with it the whole call.
  lemma EntryRaised(seen: Option<Tree>, node: Option<Tree>, p: Path, name: Name, k: nat, resume: bool, exact: bool, healthy: bool,
                    files: map<Path, Bytes>, dirs: set<Path>, filesNow: map<Path, Bytes>, dirsNow: set<Path>,
                    files': map<Path, Bytes>, dirs': set<Path>, total: nat)
    requires IsEntry(seen, k, name, node)
    requires Underway(seen, p, k, resume, exact, files, dirs, filesNow, dirsNow, total)
    requires Delivered(node, p + [name], resume, exact, healthy, filesNow, dirsNow, files', dirs', None)
    ensures Delivered(seen, p, resume, exact, healthy, files, dirs, files', dirs', None)
  {
    OutsideStep(p, name, files, filesNow, files');
    NearStep(p, name, dirs, dirsNow, dirs');
    if seen.Some? {
      MadeStep(seen.value, p, k, dirs, dirsNow, dirs');
      StoppedAt(seen.value, p, k + 1, dirs, dirs');
      if exact && Fits(seen.value, p, files, dirs) {
        FitsChild(seen.value, p, k, files, dirs, resume, dirsNow);
      }
    }
  }

  lemma StoppedAt(t: Tree, p: Path, k: nat, dirs: set<Path>, dirs': set<Path>)
    requires t.Dir? && k <= |t.entries| && OnlyMadeIn(t, p, k, dirs, dirs')
    ensures OnlyMade(t, p, dirs, dirs')
  {
    DirsGrow(t, p, k, |t.entries|);
  }

  lemma AllArrived(seen: Option<Tree>, p: Path, k: nat, resume: bool, exact: bool, healthy: bool, files: map<Path, Bytes>,
                   dirs: set<Path>, files': map<Path, Bytes>, dirs': set<Path>, total: nat)
    requires seen.Some? ==> seen.value.Dir? && k == |seen.value.entries|
    requires !resume ==> seen.Some?
    requires Underway(seen, p, k, resume, exact, files, dirs, files', dirs', total)
    ensures Delivered(seen, p, resume, exact, healthy, files, dirs, files', dirs', Some(total))
  {
    if seen.Some? {
      StoppedAt(seen.value, p, k, dirs, dirs');
    }
  }

  // There is something to walk for the first k entries.
  ghost predicate Walkable(s: Server, path: string, k: nat)
    requires Lawful(s) && path in s.found && s.found[path].RDir? && k <= |s.found[path].items|
  {
    forall i :: 0 <= i < k ==> SeenItem(s, path, i).Some?
  }

  // What is walked, if all of it can be, is walked entry by entry.
  ghost predicate WalksTo(s: Server, path: string, seen: Option<Tree>)
    requires Lawful(s) && path in s.found && s.found[path].RDir?
  {
    && (seen.Some? ==> seen.value.Dir? && |seen.value.entries| == |s.found[path].items|)
    && (forall k: nat :: k < |s.found[path].items| ==> IsNext(s, path, seen, k))
    && (Walkable(s, path, |s.found[path].items|) ==> seen.Some?)
  }

  ghost predicate IsNext(s: Server, path: string, seen: Option<Tree>, k: nat)
    requires Lawful(s) && path in s.found && s.found[path].RDir? && k < |s.found[path].items|
  {
    IsEntry(seen, k, s.found[path].items[k].name, SeenItem(s, path, k))
  }

  lemma WalkEntries(s: Server, path: string)
    requires Lawful(s) && path in s.found && s.found[path].RDir?
    ensures WalksTo(s, path, Seen(s, path, true))
  {
    var seen, items := Seen(s, path, true), s.found[path].items;
    if seen.Some? {
      SeenIsProper(s, path, true);
      SeenEntries(s, path, seen.value.entries);
    }
    if Walkable(s, path, |items|) {
      var es := seq(|items|, i requires 0 <= i < |items| => Entry(items[i].name, SeenItem(s, path, i).value));
      SeenEntries(s, path, es);
    }
  }

  /**
   * The whole call; None means that it raised.  It walks the tree that `Seen` describes.  Whatever
   * happens, nothing outside the place of the tree changes.  If there is no such tree, a call that
   * does not resume raises.  If there is one and it fits, and the call returns, every file of it has
   * arrived, byte for byte unless resuming met other content, and the reported total is its size.
   */
  method DownloadTree(disk: Disk, s: Server, path: string, recursive: bool, p: Path, resume: bool, chunkSize: int, healthy: bool)
    returns (r: Option<nat>)
    requires Lawful(s)
    modifies disk
    ensures Delivered(Seen(s, path, recursive), p, resume, chunkSize != 0, healthy,
                      old(disk.files), old(disk.dirs), disk.files, disk.dirs, r)
    decreases s.longest + 1 - |path|
  {
    if path !in s.found {
      return None;
    }
    if s.found[path].RFile? {
      r := DownloadLeaf(disk, s.found[path].data, p, resume, chunkSize, healthy);
      return;
    }
    if !recursive {
      r := DownloadDirectoryAsFile(disk, s.found[path].size, p, resume, healthy);
      return;
    }
    WalkEntries(s, path);
    r := DownloadEntries(disk, s, path, p, resume, chunkSize, healthy, Seen(s, path, true));
  }

  // What comes before the loop over a directory's entries.
  method BeginEntries(disk: Disk, p: Path, healthy: bool, ghost seen: Option<Tree>, ghost resume: bool, ghost exact: bool)
    returns (entered: bool)
    requires seen.Some? ==> seen.value.Dir?
    modifies disk`dirs
    ensures entered ==> Underway(seen, p, 0, resume, exact, disk.files, old(disk.dirs), disk.files, disk.dirs, 0)
    ensures !entered ==> Delivered(seen, p, resume, exact, healthy, disk.files, old(disk.dirs), disk.files, disk.dirs, None)
  {
    ghost var dirs := disk.dirs;
    entered := EnterDirectory(disk, p, healthy);
    if entered {
      Entered(seen, p, resume, exact, disk.files, dirs, disk.dirs);
    } else {
      NotEntered(seen, p, resume, exact, healthy, disk.files, dirs, disk.dirs);
    }
  }

  // One turn of the loop over a directory's entries.
  method DownloadEntry(disk: Disk, s: Server, path: string, p: Path, resume: bool, chunkSize: int, healthy: bool, k: nat,
                       ghost seen: Option<Tree>, ghost files: map<Path, Bytes>, ghost dirs: set<Path>, ghost total: nat)
    returns (part: Option<nat>)
    requires Lawful(s) && path in s.found && s.found[path].RDir? && k < |s.found[path].items|
    requires IsNext(s, path, seen, k)
    requires Underway(seen, p, k, resume, chunkSize != 0, files, dirs, disk.files, disk.dirs, total)
    requires !resume ==> Walkable(s, path, k)
    modifies disk
    ensures part.None? ==> Delivered(seen, p, resume, chunkSize != 0, healthy, files, dirs, disk.files, disk.dirs, None)
    ensures part.Some? ==> Underway(seen, p, k + 1, resume, chunkSize != 0, files, dirs, disk.files, disk.dirs, total + part.value)
    ensures part.Some? && !resume ==> Walkable(s, path, k + 1)
    decreases s.longest + 1 - |path|, 0
  {
    ghost var filesNow, dirsNow, node, exact := disk.files, disk.dirs, SeenItem(s, path, k), chunkSize != 0;
    var item := s.found[path].items[k];
    EntriesAreLonger(path, s.found[path].items);
    part := DownloadTree(disk, s, Slashed(Join(path, item.name)), item.isDir, p + [item.name], resume, chunkSize, healthy);
    if part.None? {
      EntryRaised(seen, node, p, item.name, k, resume, exact, healthy, files, dirs,
                  filesNow, dirsNow, disk.files, disk.dirs, total);
    } else {
      EntryDone(seen, node, p, item.name, k, resume, exact, healthy, files, dirs,
                filesNow, dirsNow, disk.files, disk.dirs, total, part.value);
    }
  }

  // The branch for directories.
  method DownloadEntries(disk: Disk, s: Server, path: string, p: Path, resume: bool, chunkSize: int, healthy: bool,
                         ghost seen: Option<Tree>)
    returns (r: Option<nat>)
    requires Lawful(s) && path in s.found && s.found[path].RDir?
    requires WalksTo(s, path, seen)
    modifies disk
    ensures Delivered(seen, p, resume, chunkSize != 0, healthy, old(disk.files), old(disk.dirs), disk.files, disk.dirs, r)
    decreases s.longest + 1 - |path|, 1
  {
    ghost var files, dirs := disk.files, disk.dirs;
    var items := s.found[path].items;
    var entered := BeginEntries(disk, p, healthy, seen, resume, chunkSize != 0);
    if !entered {
      return None;
    }
    var total := 0;
    for k := 0 to |items|
      invariant Underway(seen, p, k, resume, chunkSize != 0, files, dirs, disk.files, disk.dirs, total)
      invariant !resume ==> Walkable(s, path, k)
    {
      var part := DownloadEntry(disk, s, path, p, resume, chunkSize, healthy, k, seen, files, dirs, total);
      if part.None? {
        return None;
      }
      total := total + part.value;
    }
    AllArrived(seen, p, |items|, resume, chunkSize != 0, healthy, files, dirs, disk.files, disk.dirs, total);
    return Some(total);
  }

  /**
   * Together with `RemoteTree.SeenExactly`: a tree that is on the server and that the code walks as it
   * is arrives at p.  Without a backslash in any path it always is walked so.
   */
  lemma CleanTreeIsWalked(s: Server, path: string, t: Tree)
    requires Lawful(s) && Held(s, path, t) && Clean(path, t)
    ensures Seen(s, path, true) == Some(t)
  {
    CleanMirrors(s, path, t);
    SeenExactly(s, path, t);
  }

  /**
   * Without resuming, the disk afterwards holds exactly the remote tree over what it held.
   */
  lemma FreshOverlay(files: map<Path, Bytes>, copies: map<Path, Bytes>)
    ensures Overlay(files, copies, false) == files + copies
  {
    forall q | q in copies ensures Landed(copies[q], Lookup(files, q), false) == copies[q] {
      LandedExactly(copies[q], Lookup(files, q), false);
    }
  }

  /**
   * With resuming, exactly when every file the tree would land on is a beginning of what lands.
   */
  lemma ResumedOverlay(files: map<Path, Bytes>, copies: map<Path, Bytes>)
    ensures Overlay(files, copies, true) == files + copies <==>
            forall q :: q in copies ==> Beginning(copies[q], Lookup(files, q))
  {
    forall q | q in copies
      ensures Overlay(files, copies, true)[q] == copies[q] <==> Beginning(copies[q], Lookup(files, q))
    {
      LandedExactly(copies[q], Lookup(files, q), true);
    }
    if forall q :: q in copies ==> Beginning(copies[q], Lookup(files, q)) {
      assert forall q :: q in copies ==> Overlay(files, copies, true)[q] == copies[q];
    } else {
      var q :| q in copies && !Beginning(copies[q], Lookup(files, q));
      assert (files + copies)[q] == copies[q];
    }
  }
}
