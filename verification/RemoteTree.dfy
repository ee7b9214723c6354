/**
 * The remote side of a recursive download (`_download_file` of the Paramiko driver): path strings,
 * what a server finds at them, and the tree the code walks, which is not always the tree that is
 * there, because it turns every backslash of an entry's path into a slash.
 */
module RemoteTree {
  import opened Types
  import opened FileTransfer

  type Name = string

  datatype Tree = File(data: Bytes) | Dir(entries: seq<Entry>)
  datatype Entry = Entry(name: Name, node: Tree)

  // ---------- Paths ----------

  // `os.path.join` on two strings.
  function Join(a: string, b: string): string {
    if b != "" && b[0] == '/' then b
    else if a == "" || a[|a| - 1] == '/' then a + b
    else a + "/" + b
  }

  function Slashed(s: string): (r: string)
    ensures |r| == |s|
    ensures forall i :: 0 <= i < |s| ==> r[i] == if s[i] == '\\' then '/' else s[i]
  {
    seq(|s|, i requires 0 <= i < |s| => if s[i] == '\\' then '/' else s[i])
  }

  // The path an entry of a directory is looked up by.
  function EntryPath(path: string, name: Name): string {
    Slashed(Join(path, name))
  }

  lemma SlashedIsSame(s: string)
    ensures Slashed(s) == s <==> '\\' !in s
  {
    if '\\' !in s {
      assert forall i :: 0 <= i < |s| ==> s[i] in s;
    } else {
      var i :| 0 <= i < |s| && s[i] == '\\';
      assert Slashed(s)[i] == '/';
    }
  }

  // ---------- A server ----------

  datatype Item = Item(name: Name, isDir: bool)

  // What `stat` and `listdir_attr` find; a directory has a size too.
  datatype Found = RFile(data: Bytes) | RDir(size: nat, items: seq<Item>)

  // What the server finds at each path string it resolves, none of them longer than it allows.  How
  // it resolves them is its own affair.
  datatype Server = Server(found: map<string, Found>, longest: nat)

  ghost predicate NamesOk(items: seq<Item>) {
    && (forall i :: 0 <= i < |items| ==> items[i].name != "" && '/' !in items[i].name)
    && (forall i, j :: 0 <= i < j < |items| ==> items[i].name != items[j].name)
  }

  // A directory lists each name once, and a name is not empty and has no slash.
  ghost predicate Lawful(s: Server) {
    forall q :: q in s.found ==> |q| <= s.longest && (s.found[q].RDir? ==> NamesOk(s.found[q].items))
  }

  lemma JoinIsLonger(path: string, name: Name)
    requires name != "" && '/' !in name
    ensures |EntryPath(path, name)| > |path|
  {
    assert name[0] in name;
  }

  lemma EntriesAreLonger(path: string, items: seq<Item>)
    requires NamesOk(items)
    ensures forall i :: 0 <= i < |items| ==> |EntryPath(path, items[i].name)| > |path|
  {
    forall i | 0 <= i < |items| ensures |EntryPath(path, items[i].name)| > |path| {
      JoinIsLonger(path, items[i].name);
    }
  }

  // ---------- The tree the code walks ----------

  // The entries of a directory, if there is something for each of its items.
  function Collect(items: seq<Item>, nodes: seq<Option<Tree>>): Option<seq<Entry>>
    requires |items| == |nodes|
  {
    if items == [] then Some([])
    else
      var last := |items| - 1;
      var front := Collect(items[..last], nodes[..last]);
      if front.None? || nodes[last].None? then None
      else Some(front.value + [Entry(items[last].name, nodes[last].value)])
  }

  ghost predicate Collected(items: seq<Item>, nodes: seq<Option<Tree>>, es: seq<Entry>)
    requires |items| == |nodes|
  {
    |es| == |items| && forall i :: 0 <= i < |es| ==> es[i].name == items[i].name && nodes[i] == Some(es[i].node)
  }

  lemma {:induction false} CollectExactly(items: seq<Item>, nodes: seq<Option<Tree>>, es: seq<Entry>)
    requires |items| == |nodes|
    ensures Collect(items, nodes) == Some(es) <==> Collected(items, nodes, es)
  {
    if items == [] {
    } else {
      var last := |items| - 1;
      var front := Collect(items[..last], nodes[..last]);
      if es != [] {
        CollectExactly(items[..last], nodes[..last], es[..|es| - 1]);
        assert es == es[..|es| - 1] + [es[|es| - 1]];
      }
    }
  }

  // What a call for this path walks, or None where it finds nothing, or a directory it was not told
  // to expect, on the way.
  ghost function Seen(s: Server, path: string, recursive: bool): Option<Tree>
    requires Lawful(s)
    decreases s.longest + 1 - |path|
  {
    if path !in s.found then None
    else if s.found[path].RFile? then Some(File(s.found[path].data))
    else if !recursive then None
    else
      var items := s.found[path].items;
      EntriesAreLonger(path, items);
      match Collect(items, seq(|items|, i requires 0 <= i < |items| =>
                                          Seen(s, EntryPath(path, items[i].name), items[i].isDir)))
      case None => None
      case Some(es) => Some(Dir(es))
  }

  // What is walked for the i-th entry of a directory.
  ghost function SeenItem(s: Server, path: string, i: nat): Option<Tree>
    requires Lawful(s) && path in s.found && s.found[path].RDir? && i < |s.found[path].items|
  {
    Seen(s, EntryPath(path, s.found[path].items[i].name), s.found[path].items[i].isDir)
  }

  ghost function SeenItems(s: Server, path: string): (r: seq<Option<Tree>>)
    requires Lawful(s) && path in s.found && s.found[path].RDir?
    ensures |r| == |s.found[path].items| && forall i :: 0 <= i < |r| ==> r[i] == SeenItem(s, path, i)
  {
    seq(|s.found[path].items|, i requires 0 <= i < |s.found[path].items| => SeenItem(s, path, i))
  }

  // Entry by entry.
  lemma SeenEntries(s: Server, path: string, es: seq<Entry>)
    requires Lawful(s) && path in s.found && s.found[path].RDir?
    ensures Seen(s, path, true) == Some(Dir(es)) <==> Collected(s.found[path].items, SeenItems(s, path), es)
  {
    var items := s.found[path].items;
    EntriesAreLonger(path, items);
    assert SeenItems(s, path) == seq(|items|, i requires 0 <= i < |items| =>
                                                Seen(s, EntryPath(path, items[i].name), items[i].isDir));
    CollectExactly(items, SeenItems(s, path), es);
  }

  /** Without the recursive flag a file is all there is to walk. */
  lemma OnlyFilesUnlessRecursive(s: Server, path: string)
    requires Lawful(s)
    ensures Seen(s, path, false) ==
            if path in s.found && s.found[path].RFile? then Some(File(s.found[path].data)) else None
  {
  }

  // ---------- The tree that is there ----------

  // A directory lists each name once.
  predicate Proper(t: Tree) {
    match t
    case File(_) => true
    case Dir(es) => DistinctNames(es) && forall i :: 0 <= i < |es| ==> Proper(es[i].node)
  }

  predicate DistinctNames(es: seq<Entry>) {
    forall i, j :: 0 <= i < j < |es| ==> es[i].name != es[j].name
  }

  lemma {:induction false} SeenIsProper(s: Server, path: string, recursive: bool)
    requires Lawful(s) && Seen(s, path, recursive).Some?
    ensures Proper(Seen(s, path, recursive).value)
    decreases s.longest + 1 - |path|
  {
    var t := Seen(s, path, recursive).value;
    if t.Dir? {
      var items := s.found[path].items;
      SeenEntries(s, path, t.entries);
      assert NamesOk(items);
      forall i | 0 <= i < |t.entries| ensures Proper(t.entries[i].node) {
        assert SeenItem(s, path, i) == Some(t.entries[i].node);
        JoinIsLonger(path, items[i].name);
        SeenIsProper(s, EntryPath(path, items[i].name), items[i].isDir);
      }
    }
  }

  // The items of a listing are the entries of a directory.
  predicate Lists(items: seq<Item>, es: seq<Entry>) {
    |items| == |es| && forall i :: 0 <= i < |es| ==> items[i] == Item(es[i].name, es[i].node.Dir?)
  }

  // The tree is what the server really holds at the path: every entry at the path made of its own name.
  predicate Held(s: Server, path: string, t: Tree)
    decreases t
  {
    && path in s.found
    && match t
       case File(data) => s.found[path] == RFile(data)
       case Dir(es) =>
         && s.found[path].RDir? && Lists(s.found[path].items, es)
         && forall i :: 0 <= i < |es| ==> Held(s, Join(path, es[i].name), es[i].node)
  }

  // No entry has a backslash in its path, be it from its name or from the path the call was given.
  predicate Clean(path: string, t: Tree)
    decreases t, 1
  {
    t.Dir? ==> forall i: nat :: i < |t.entries| ==> CleanAt(path, t, i)
  }

  predicate CleanAt(path: string, t: Tree, i: nat)
    requires t.Dir? && i < |t.entries|
    decreases t, 0
  {
    '\\' !in Join(path, t.entries[i].name) && Clean(Join(path, t.entries[i].name), t.entries[i].node)
  }

  // Where an entry's path has a backslash, nothing is found at the path with a slash instead.
  predicate Unaliased(s: Server, path: string, t: Tree)
    decreases t
  {
    t.Dir? ==> forall i :: 0 <= i < |t.entries| ==>
      var c := Join(path, t.entries[i].name);
      ('\\' in c ==> Slashed(c) !in s.found) && Unaliased(s, c, t.entries[i].node)
  }

  // Wherever an entry's path has a backslash, the path with a slash instead leads to the same.
  ghost predicate Mirrors(s: Server, path: string, t: Tree)
    requires Lawful(s)
    decreases t, 1
  {
    t.Dir? ==> forall i: nat :: i < |t.entries| ==> MirrorsAt(s, path, t, i)
  }

  ghost predicate MirrorsAt(s: Server, path: string, t: Tree, i: nat)
    requires Lawful(s) && t.Dir? && i < |t.entries|
    decreases t, 0
  {
    var c, node := Join(path, t.entries[i].name), t.entries[i].node;
    if '\\' in c then Seen(s, Slashed(c), node.Dir?) == Some(node) else Mirrors(s, c, node)
  }

  /**
   * What a recursive download walks is what is there exactly when every path that has a backslash
   * leads to the same thing with a slash instead.
   */
  lemma {:induction false} SeenExactly(s: Server, path: string, t: Tree)
    requires Lawful(s) && Held(s, path, t)
    ensures Seen(s, path, t.Dir?) == Some(t) <==> Mirrors(s, path, t)
    decreases t
  {
    if t.Dir? {
      forall i: nat | i < |t.entries| ensures SeenItem(s, path, i) == Some(t.entries[i].node) <==> MirrorsAt(s, path, t, i) {
        var c := Join(path, t.entries[i].name);
        SlashedIsSame(c);
        if '\\' !in c {
          SeenExactly(s, c, t.entries[i].node);
        }
      }
      SeenEntries(s, path, t.entries);
    }
  }

  lemma {:induction false} MirrorsIfClean(s: Server, path: string, t: Tree)
    requires Lawful(s) && Unaliased(s, path, t)
    ensures Mirrors(s, path, t) <==> Clean(path, t)
    decreases t
  {
    if t.Dir? {
      forall i: nat | i < |t.entries| ensures MirrorsAt(s, path, t, i) <==> CleanAt(path, t, i) {
        var c := Join(path, t.entries[i].name);
        if '\\' !in c {
          MirrorsIfClean(s, c, t.entries[i].node);
        }
      }
    }
  }

  /**
   * Where no path with its backslashes turned into slashes meets anything, that is: exactly when no
   * entry has a backslash in its path.
   */
  lemma SeenIfClean(s: Server, path: string, t: Tree)
    requires Lawful(s) && Held(s, path, t) && Unaliased(s, path, t)
    ensures Seen(s, path, t.Dir?) == Some(t) <==> Clean(path, t)
  {
    SeenExactly(s, path, t);
    MirrorsIfClean(s, path, t);
  }

  lemma {:induction false} CleanMirrors(s: Server, path: string, t: Tree)
    requires Lawful(s) && Clean(path, t)
    ensures Mirrors(s, path, t)
    decreases t
  {
    if t.Dir? {
      forall i: nat | i < |t.entries| ensures MirrorsAt(s, path, t, i) {
        assert CleanAt(path, t, i);
        CleanMirrors(s, Join(path, t.entries[i].name), t.entries[i].node);
      }
    }
  }

  // ---------- Names with a backslash ----------

  // The text a name is appended to.
  function Front(path: string): string {
    if path == "" || path[|path| - 1] == '/' then path else path + "/"
  }

  lemma JoinIsFront(path: string, name: Name)
    requires name != "" && '/' !in name
    ensures Join(path, name) == Front(path) + name
    ensures Front(path) == path + (if path == "" || path[|path| - 1] == '/' then "" else "/")
  {
    assert name[0] in name;
  }

  lemma JoinHasBackslash(path: string, name: Name)
    requires name != "" && '/' !in name && '\\' in name
    ensures '\\' in Join(path, name)
  {
    JoinIsFront(path, name);
    var i :| 0 <= i < |name| && name[i] == '\\';
    assert (Front(path) + name)[|Front(path)| + i] == '\\';
  }

  /** A directory with one file whose name has a backslash: the file is there, and the call does not find it. */
  lemma BackslashNotFound(root: string, name: Name, data: Bytes)
    requires name != "" && '/' !in name && '\\' in name
    ensures var c := Join(root, name);
            var s := Server(map[root := RDir(0, [Item(name, false)]), c := RFile(data)], |c|);
            Lawful(s) && Held(s, root, Dir([Entry(name, File(data))])) && Seen(s, root, true).None?
  {
    var c := Join(root, name);
    var s := Server(map[root := RDir(0, [Item(name, false)]), c := RFile(data)], |c|);
    JoinIsLonger(root, name);
    JoinHasBackslash(root, name);
    SlashedIsSame(c);
    assert s.found[root] == RDir(0, [Item(name, false)]);
    assert SeenItem(s, root, 0).None?;
    if Seen(s, root, true).Some? {
      SeenEntries(s, root, Seen(s, root, true).value.entries);
    }
  }

  lemma SlashedSplits(root: string, x: Name, y: Name)
    requires '\\' !in root && '\\' !in x && '\\' !in y && '/' !in x && '/' !in y && x != "" && y != ""
    ensures EntryPath(root, x + "\\" + y) == Join(Join(root, x), y)
    ensures EntryPath(root, x) == Join(root, x) && EntryPath(Join(root, x), y) == Join(Join(root, x), y)
  {
    var front := Front(root);
    JoinIsFront(root, x);
    JoinIsFront(root, x + "\\" + y);
    assert x[|x| - 1] in x;
    JoinIsFront(Join(root, x), y);
    assert Join(Join(root, x), y) == front + x + "/" + y;
    assert Slashed(front + (x + "\\" + y)) == front + x + "/" + y by {
      assert forall i :: 0 <= i < |front| ==> front[i] != '\\';
      assert forall i :: 0 <= i < |x| ==> x[i] in x;
      assert forall i :: 0 <= i < |y| ==> y[i] in y;
    }
    SlashedIsSame(front + x);
    SlashedIsSame(front + x + "/" + y);
  }

  // The listing of a directory that holds a directory x with a file y, and a file named x\y.
  function Twins(root: string, x: Name, y: Name, mine: Bytes, other: Bytes): Server {
    var name := x + "\\" + y;
    Server(map[root := RDir(0, [Item(name, false), Item(x, true)]), Join(root, name) := RFile(mine),
               Join(root, x) := RDir(0, [Item(y, false)]), Join(Join(root, x), y) := RFile(other)],
           |Join(root, name)|)
  }

  lemma TwinPaths(root: string, x: Name, y: Name)
    requires '\\' !in root && '\\' !in x && '\\' !in y && '/' !in x && '/' !in y && x != "" && y != ""
    ensures |root| < |Join(root, x)| < |Join(Join(root, x), y)| == |Join(root, x + "\\" + y)|
    ensures Join(Join(root, x), y) != Join(root, x + "\\" + y)
  {
    SlashedSplits(root, x, y);
    JoinIsFront(root, x);
    JoinIsFront(root, x + "\\" + y);
    assert (x + "\\" + y)[|x|] == '\\';
    JoinHasBackslash(root, x + "\\" + y);
    SlashedIsSame(Join(root, x + "\\" + y));
    JoinIsLonger(root, x);
    JoinIsLonger(Join(root, x), y);
  }

  lemma SeenOne(s: Server, path: string, e: Entry)
    requires Lawful(s) && path in s.found && s.found[path].RDir?
    requires |s.found[path].items| == 1 && s.found[path].items[0].name == e.name && SeenItem(s, path, 0) == Some(e.node)
    ensures Seen(s, path, true) == Some(Dir([e]))
  {
    SeenEntries(s, path, [e]);
  }

  lemma SeenTwo(s: Server, path: string, e: Entry, f: Entry)
    requires Lawful(s) && path in s.found && s.found[path].RDir? && |s.found[path].items| == 2
    requires s.found[path].items[0].name == e.name && SeenItem(s, path, 0) == Some(e.node)
    requires s.found[path].items[1].name == f.name && SeenItem(s, path, 1) == Some(f.node)
    ensures Seen(s, path, true) == Some(Dir([e, f]))
  {
    SeenEntries(s, path, [e, f]);
  }

  // What the server finds at the four paths: root, the file c, the directory d and the file e in it.
  lemma TwinsFound(root: string, x: Name, y: Name, mine: Bytes, other: Bytes, c: string, d: string, e: string)
    requires '\\' !in root && '\\' !in x && '\\' !in y && '/' !in x && '/' !in y && x != "" && y != ""
    requires c == Join(root, x + "\\" + y) && d == Join(root, x) && e == Join(d, y)
    ensures var s := Twins(root, x, y, mine, other);
            && s.found.Keys == {root, c, d, e}
            && s.found[root] == RDir(0, [Item(x + "\\" + y, false), Item(x, true)])
            && s.found[c] == RFile(mine) && s.found[d] == RDir(0, [Item(y, false)]) && s.found[e] == RFile(other)
  {
    TwinPaths(root, x, y);
  }

  lemma TwinNames(x: Name, y: Name)
    requires '/' !in x && '/' !in y && '\\' !in x && x != "" && y != ""
    ensures NamesOk([Item(x + "\\" + y, false), Item(x, true)]) && NamesOk([Item(y, false)])
  {
    assert (x + "\\" + y)[|x|] == '\\';
  }

  lemma TwinsLawful(root: string, x: Name, y: Name, mine: Bytes, other: Bytes)
    requires '\\' !in root && '\\' !in x && '\\' !in y && '/' !in x && '/' !in y && x != "" && y != ""
    ensures Lawful(Twins(root, x, y, mine, other))
  {
    TwinPaths(root, x, y);
    TwinNames(x, y);
    var d := Join(root, x);
    TwinsFound(root, x, y, mine, other, Join(root, x + "\\" + y), d, Join(d, y));
  }

  lemma TwinsHeld(s: Server, root: string, name: Name, x: Name, y: Name, mine: Bytes, other: Bytes)
    requires root in s.found && s.found[root] == RDir(0, [Item(name, false), Item(x, true)])
    requires Join(root, name) in s.found && s.found[Join(root, name)] == RFile(mine)
    requires Join(root, x) in s.found && s.found[Join(root, x)] == RDir(0, [Item(y, false)])
    requires Join(Join(root, x), y) in s.found && s.found[Join(Join(root, x), y)] == RFile(other)
    ensures Held(s, root, Dir([Entry(name, File(mine)), Entry(x, Dir([Entry(y, File(other))]))]))
  {
    assert Held(s, Join(root, x), Dir([Entry(y, File(other))]));
  }

  /** Another file is where the slashed path leads, and its content arrives under the first one's name. */
  lemma BackslashFindsOther(root: string, x: Name, y: Name, mine: Bytes, other: Bytes)
    requires '\\' !in root && '\\' !in x && '\\' !in y && '/' !in x && '/' !in y && x != "" && y != ""
    ensures var s, name := Twins(root, x, y, mine, other), x + "\\" + y;
            var dir := Entry(x, Dir([Entry(y, File(other))]));
            && Lawful(s) && Held(s, root, Dir([Entry(name, File(mine)), dir]))
            && Seen(s, root, true) == Some(Dir([Entry(name, File(other)), dir]))
  {
    var s, name := Twins(root, x, y, mine, other), x + "\\" + y;
    var d := Join(root, x);
    TwinsLawful(root, x, y, mine, other);
    TwinsFound(root, x, y, mine, other, Join(root, name), d, Join(d, y));
    TwinsHeld(s, root, name, x, y, mine, other);
    SlashedSplits(root, x, y);
    SeenOne(s, d, Entry(y, File(other)));
    SeenTwo(s, root, Entry(name, File(other)), Entry(x, Dir([Entry(y, File(other))])));
  }
}
