/** The archive outline of filestructure/script.js: the entry paths of a zip
    archive put into a tree of folders and files, and the tree drawn as text
    with `├── ` and `└── ` connectors under the archive's name. */
module FileTree {
  import opened Wrappers
  import opened Seqs
  import opened Text

  // ---- the archive name ----

  /** `file.name.split(".").slice(0, -1).join(".")`: the name without its
      last dot and what follows it. */
  function RootName(fileName: string): string {
    var pieces := Split(fileName, '.');
    Join(pieces[..|pieces| - 1], '.')
  }

  /** Only the last extension goes: a base and an extension without a dot
      give back the base, inner dots included. */
  lemma RootNameDropsExtension(base: string, ext: string)
    requires '.' !in ext
    ensures RootName(base + "." + ext) == base
  {
    assert base + "." + ext == base + ['.'] + ext;
    SplitBefore(base, '.', ext);
    var pieces := Split(base + "." + ext, '.');
    assert pieces[..|pieces| - 1] == Split(base, '.');
    JoinSplit(base, '.');
  }

  /** A name without a dot gives the empty name. */
  lemma RootNameWithoutDot(fileName: string)
    requires '.' !in fileName
    ensures RootName(fileName) == ""
  {
    SplitNoSeparator(fileName, '.');
  }

  // ---- the tree ----

  /** The nested object: a "file" leaf or a folder whose entries keep the
      order in which their names were first set. */
  datatype Node = File | Folder(entries: seq<Entry>)

  datatype Entry = Entry(name: string, node: Node)

  /** The position of the first entry called `name`. */
  function Find(entries: seq<Entry>, name: string): (r: Option<nat>)
    ensures r.Some? ==>
      r.value < |entries| && entries[r.value].name == name && forall j :: 0 <= j < r.value ==> entries[j].name != name
    ensures r.None? ==> forall j :: 0 <= j < |entries| ==> entries[j].name != name
  {
    if entries == [] then None
    else if entries[0].name == name then Some(0)
    else
      match Find(entries[1..], name)
      case None => None
      case Some(i) => Some(i + 1)
  }

  /** `node[name]`: the value under `name`, if any. */
  function Get(entries: seq<Entry>, name: string): Option<Node> {
    match Find(entries, name)
    case None => None
    case Some(i) => Some(entries[i].node)
  }

  /** `node[name] = value`: the entry replaced where it stands, or added at
      the end when the name is new. */
  function Put(entries: seq<Entry>, name: string, value: Node): seq<Entry> {
    match Find(entries, name)
    case None => entries + [Entry(name, value)]
    case Some(i) => entries[i := Entry(name, value)]
  }

  function Names(entries: seq<Entry>): (r: seq<string>)
    ensures |r| == |entries|
  {
    seq(|entries|, k requires 0 <= k < |entries| => entries[k].name)
  }

  /** Setting a name behaves like a dictionary update: the name now holds the
      new value and every other name keeps its own. */
  lemma GetPut(entries: seq<Entry>, name: string, value: Node, other: string)
    ensures Get(Put(entries, name, value), other) == if other == name then Some(value) else Get(entries, other)
  {
    var r := Put(entries, name, value);
    match Find(entries, name)
    case None =>
      if other != name {
        assert Find(r, other) == Find(entries, other) by {
          FindAppend(entries, Entry(name, value), other);
        }
      } else {
        FindAppend(entries, Entry(name, value), other);
      }
    case Some(i) =>
      FindUpdate(entries, i, Entry(name, value), other);
  }

  lemma {:induction false} FindAppend(entries: seq<Entry>, e: Entry, name: string)
    ensures Find(entries + [e], name) ==
      if Find(entries, name).Some? then Find(entries, name)
      else if e.name == name then Some(|entries|) else None
  {
    if entries != [] {
      assert (entries + [e])[1..] == entries[1..] + [e];
      FindAppend(entries[1..], e, name);
    }
  }

  lemma {:induction false} FindUpdate(entries: seq<Entry>, i: nat, e: Entry, name: string)
    requires i < |entries| && e.name == entries[i].name
    requires Find(entries, e.name) == Some(i)
    ensures Find(entries[i := e], name) == Find(entries, name)
  {
    if i > 0 {
      assert entries[i := e][1..] == entries[1..][i - 1 := e];
      FindUpdate(entries[1..], i - 1, e, name);
    }
  }

  /** Names keep their places: an existing name stays where it is and a new
      one goes last, so names stay distinct. */
  lemma PutNames(entries: seq<Entry>, name: string, value: Node)
    ensures Names(Put(entries, name, value)) == if name in Names(entries) then Names(entries) else Names(entries) + [name]
    ensures Distinct(Names(entries)) ==> Distinct(Names(Put(entries, name, value)))
  {
    var r := Put(entries, name, value);
    match Find(entries, name)
    case None =>
      assert Names(r) == Names(entries) + [name];
    case Some(i) =>
      assert Names(r) == Names(entries);
      assert Names(entries)[i] == name;
  }

  /** What a path leads to: the node itself for the empty path, and nothing
      where a name is missing or a file is in the way. */
  function Lookup(node: Node, path: seq<string>): Option<Node>
    decreases |path|
  {
    if path == [] then Some(node)
    else
      match node
      case File => None
      case Folder(entries) =>
        match Get(entries, path[0])
        case None => None
        case Some(child) => Lookup(child, path[1..])
  }

  datatype TreeError = TypeError

  /** `addFileToStructure(pathArray, node)`: the last name of the path set to
      a file and the folders before it created when missing. Below a file
      the script works on a string: setting a name on it is ignored, and
      going one level further reads a property of `undefined`, a TypeError. */
  function AddFile(path: seq<string>, node: Node): Result<Node, TreeError>
    requires |path| >= 1
    decreases |path|
  {
    match node
    case File => if |path| == 1 then Ok(File) else Err(TypeError)
    case Folder(entries) =>
      if |path| == 1 then Ok(Folder(Put(entries, path[0], File)))
      else
        var child := match Get(entries, path[0]) case Some(c) => c case None => Folder([]);
        match AddFile(path[1..], child)
        case Err(e) => Err(e)
        case Ok(c) => Ok(Folder(Put(entries, path[0], c)))
  }

  lemma EmptyFolderLookup(path: seq<string>)
    requires path != []
    ensures Lookup(Folder([]), path) == None
  {
  }

  lemma LookupStep(entries: seq<Entry>, path: seq<string>, k: nat)
    requires 1 <= k <= |path|
    ensures Lookup(Folder(entries), path[..k]) ==
      match Get(entries, path[0]) case None => None case Some(c) => Lookup(c, path[1..][..k - 1])
  {
    assert path[..k][1..] == path[1..][..k - 1];
  }

  /** Insertion fails exactly when a file stands where the path still needs
      a folder to go through: at a proper prefix that leaves at least two
      names to go. */
  lemma {:induction false} AddFileFails(path: seq<string>, node: Node)
    requires |path| >= 1
    ensures AddFile(path, node).Err? <==>
      exists k :: 0 <= k <= |path| - 2 && Lookup(node, path[..k]) == Some(File)
    decreases |path|
  {
    match node
    case File =>
      if |path| >= 2 {
        assert Lookup(node, path[..0]) == Some(File);
      }
    case Folder(entries) =>
      if |path| >= 2 {
        var rest := path[1..];
        var found := Get(entries, path[0]);
        var child := match found case Some(c) => c case None => Folder([]);
        AddFileFails(rest, child);
        if found.None? {
          forall k' | 0 <= k' <= |rest| - 2 ensures Lookup(child, rest[..k']) != Some(File) {
            if k' > 0 {
              EmptyFolderLookup(rest[..k']);
            }
          }
          forall k | 0 <= k <= |path| - 2 ensures Lookup(node, path[..k]) != Some(File) {
            if k > 0 {
              LookupStep(entries, path, k);
            }
          }
        } else if AddFile(path, node).Err? {
          var k' :| 0 <= k' <= |rest| - 2 && Lookup(child, rest[..k']) == Some(File);
          LookupStep(entries, path, k' + 1);
        } else {
          forall k | 0 <= k <= |path| - 2 ensures Lookup(node, path[..k]) != Some(File) {
            if k > 0 {
              LookupStep(entries, path, k);
            }
          }
        }
      }
  }

  /** With no file in the way along the path, insertion succeeds and the
      path then leads to a file: a file, or a folder of that name, is
      replaced by a file. */
  lemma {:induction false} AddFileReaches(path: seq<string>, node: Node)
    requires |path| >= 1 && node.Folder?
    requires forall k :: 1 <= k < |path| ==> Lookup(node, path[..k]) != Some(File)
    ensures AddFile(path, node).Ok?
    ensures Lookup(AddFile(path, node).value, path) == Some(File)
    decreases |path|
  {
    var entries := node.entries;
    GetPut(entries, path[0], File, path[0]);
    if |path| >= 2 {
      var rest := path[1..];
      var found := Get(entries, path[0]);
      var child := match found case Some(c) => c case None => Folder([]);
      LookupStep(entries, path, 1);
      assert rest[..0] == [];
      forall k | 1 <= k < |rest| ensures Lookup(child, rest[..k]) != Some(File) {
        if found.None? {
          EmptyFolderLookup(rest[..k]);
        } else {
          LookupStep(entries, path, k + 1);
        }
      }
      AddFileReaches(rest, child);
      GetPut(entries, path[0], AddFile(rest, child).value, path[0]);
    }
  }

  /** Insertion leaves alone every path that branches off the inserted one:
      folders on the way are reused, not reset. */
  lemma {:induction false} AddFileKeepsOthers(path: seq<string>, node: Node, other: seq<string>, i: nat)
    requires |path| >= 1 && AddFile(path, node).Ok?
    requires i < |path| && i < |other| && other[..i] == path[..i] && other[i] != path[i]
    ensures Lookup(AddFile(path, node).value, other) == Lookup(node, other)
    decreases |path|
  {
    match node
    case File =>
    case Folder(entries) =>
      var r := AddFile(path, node).value;
      if i == 0 {
        if |path| == 1 {
          GetPut(entries, path[0], File, other[0]);
        } else {
          var found := Get(entries, path[0]);
          var child := match found case Some(c) => c case None => Folder([]);
          GetPut(entries, path[0], AddFile(path[1..], child).value, other[0]);
        }
      } else {
        assert other[0] == path[0];
        var found := Get(entries, path[0]);
        var child := match found case Some(c) => c case None => Folder([]);
        assert other[1..][..i - 1] == path[1..][..i - 1];
        AddFileKeepsOthers(path[1..], child, other[1..], i - 1);
        GetPut(entries, path[0], AddFile(path[1..], child).value, path[0]);
        if found.None? {
          EmptyFolderLookup(other[1..]);
        }
      }
  }

  // ---- building the tree from the archive ----

  /** The tree after inserting each entry path, split on "/", in order; a
      failed insertion ends the build. */
  function Build(paths: seq<string>): Result<Node, TreeError> {
    if paths == [] then Ok(Folder([]))
    else
      match Build(paths[..|paths| - 1])
      case Err(e) => Err(e)
      case Ok(root) => AddFile(Split(paths[|paths| - 1], '/'), root)
  }

  lemma {:induction false} BuildFailureSticks(paths: seq<string>, i: nat)
    requires i <= |paths| && Build(paths[..i]).Err?
    ensures Build(paths).Err?
    decreases |paths| - i
  {
    if i < |paths| {
      assert paths[..i + 1][..i] == paths[..i];
      BuildFailureSticks(paths, i + 1);
    } else {
      assert paths[..i] == paths;
    }
  }

  // ---- drawing the tree ----

  function Connector(isLast: bool): string {
    if isLast then "└── " else "├── "
  }

  function Extension(isLast: bool): string {
    if isLast then "    " else "│   "
  }

  /** The lines drawn for the entries of `folder` from the `i`-th on: an
      entry's line, then the lines of its contents one level deeper, then
      the following entries. */
  function EntryLines(folder: Node, i: nat, prefix: string): seq<string>
    requires folder.Folder? && i <= |folder.entries|
    decreases folder, |folder.entries| - i
  {
    if i == |folder.entries| then []
    else
      var e := folder.entries[i];
      var isLast := i == |folder.entries| - 1;
      assert e in folder.entries;
      [prefix + Connector(isLast) + e.name]
      + (if e.node.Folder? then EntryLines(e.node, 0, prefix + Extension(isLast)) else [])
      + EntryLines(folder, i + 1, prefix)
  }

  /** One node of the tree in the outline: its name, whether it is the last
      entry of its folder, and that fact for each folder above it, outermost
      first. */
  datatype Item = Item(name: string, isLast: bool, above: seq<bool>)

  /** Every node below `folder`, from its `i`-th entry on, in pre-order. */
  function Outline(folder: Node, i: nat): seq<Item>
    requires folder.Folder? && i <= |folder.entries|
    decreases folder, |folder.entries| - i
  {
    if i == |folder.entries| then []
    else
      var e := folder.entries[i];
      var isLast := i == |folder.entries| - 1;
      assert e in folder.entries;
      [Item(e.name, isLast, [])]
      + (if e.node.Folder? then Below(Outline(e.node, 0), isLast) else [])
      + Outline(folder, i + 1)
  }

  /** The items of a folder's contents, seen from one level up. */
  function Below(items: seq<Item>, isLast: bool): (r: seq<Item>)
    ensures |r| == |items|
  {
    seq(|items|, k requires 0 <= k < |items| => items[k].(above := [isLast] + items[k].above))
  }

  /** The indentation before an item: one four-character block per folder
      above it, blank below a last entry and a bar otherwise. */
  function Indent(above: seq<bool>): (s: string)
    ensures |s| == 4 * |above|
  {
    if above == [] then "" else Extension(above[0]) + Indent(above[1..])
  }

  /** The line of one item. */
  function ItemLine(prefix: string, item: Item): string {
    prefix + Indent(item.above) + Connector(item.isLast) + item.name
  }

  /** The drawing has exactly one line per node, in pre-order: a folder's
      line before its contents, entries in their order. Each line is the
      indentation for the folders above the node, `└── ` for the last entry
      of a folder and `├── ` for the others, and the node's name. */
  lemma {:induction false} EntryLinesOutline(folder: Node, i: nat, prefix: string)
    requires folder.Folder? && i <= |folder.entries|
    ensures |EntryLines(folder, i, prefix)| == |Outline(folder, i)|
    ensures forall k :: 0 <= k < |Outline(folder, i)| ==>
      EntryLines(folder, i, prefix)[k] == ItemLine(prefix, Outline(folder, i)[k])
    decreases folder, |folder.entries| - i
  {
    if i < |folder.entries| {
      var e := folder.entries[i];
      var isLast := i == |folder.entries| - 1;
      assert e in folder.entries;
      EntryLinesOutline(folder, i + 1, prefix);
      var head := [prefix + Connector(isLast) + e.name];
      var items := [Item(e.name, isLast, [])];
      assert ItemLine(prefix, items[0]) == head[0];
      if e.node.Folder? {
        var inner := prefix + Extension(isLast);
        EntryLinesOutline(e.node, 0, inner);
        var sub, subItems := EntryLines(e.node, 0, inner), Below(Outline(e.node, 0), isLast);
        BelowLines(sub, Outline(e.node, 0), prefix, isLast);
        SnocLines(prefix, head, sub, EntryLines(folder, i + 1, prefix), items, subItems, Outline(folder, i + 1));
      } else {
        SnocLines(prefix, head, [], EntryLines(folder, i + 1, prefix), items, [], Outline(folder, i + 1));
      }
    }
  }

  /** Lines drawn one level deeper are the lines of the items seen from one
      level up. */
  lemma BelowLines(lines: seq<string>, items: seq<Item>, prefix: string, isLast: bool)
    requires |lines| == |items|
    requires forall k :: 0 <= k < |items| ==> lines[k] == ItemLine(prefix + Extension(isLast), items[k])
    ensures forall k :: 0 <= k < |items| ==> lines[k] == ItemLine(prefix, Below(items, isLast)[k])
  {
    forall k | 0 <= k < |items| ensures lines[k] == ItemLine(prefix, Below(items, isLast)[k]) {
      var above := Below(items, isLast)[k].above;
      assert above[1..] == items[k].above;
      assert Indent(above) == Extension(isLast) + Indent(items[k].above);
    }
  }

  lemma SnocLines(prefix: string, a: seq<string>, b: seq<string>, c: seq<string>, x: seq<Item>, y: seq<Item>, z: seq<Item>)
    requires |a| == |x| && |b| == |y| && |c| == |z|
    requires forall k :: 0 <= k < |x| ==> a[k] == ItemLine(prefix, x[k])
    requires forall k :: 0 <= k < |y| ==> b[k] == ItemLine(prefix, y[k])
    requires forall k :: 0 <= k < |z| ==> c[k] == ItemLine(prefix, z[k])
    ensures forall k :: 0 <= k < |x + y + z| ==> (a + b + c)[k] == ItemLine(prefix, (x + y + z)[k])
  {
  }

  /** Each line's prefix is four characters per folder above the node. */
  lemma ItemLineIndent(prefix: string, item: Item)
    ensures ItemLine(prefix, item)[..|prefix| + 4 * |item.above|] == prefix + Indent(item.above)
    ensures ItemLine(prefix, item)[|prefix| + 4 * |item.above| + 4..] == item.name
  {
  }

  /** `lines.map(line => line + "\n").join("")`. */
  function Unlines(lines: seq<string>): string {
    if lines == [] then "" else lines[0] + "\n" + Unlines(lines[1..])
  }

  lemma {:induction false} UnlinesAppend(a: seq<string>, b: seq<string>)
    ensures Unlines(a + b) == Unlines(a) + Unlines(b)
  {
    if a != [] {
      assert (a + b)[0] == a[0] && (a + b)[1..] == a[1..] + b;
      UnlinesAppend(a[1..], b);
      assert Unlines(a + b) == a[0] + "\n" + (Unlines(a[1..]) + Unlines(b));
    } else {
      assert a + b == b;
    }
  }

  /** The line drawn for the `index`-th entry of a folder. */
  function EntryLine(node: Node, index: nat, prefix: string): string
    requires node.Folder? && index < |node.entries|
  {
    prefix + Connector(index == |node.entries| - 1) + node.entries[index].name
  }

  /** The text drawn for the contents of the `index`-th entry of a folder,
      one level deeper; nothing for a file. */
  function ContentsText(node: Node, index: nat, prefix: string): string
    requires node.Folder? && index < |node.entries|
    decreases node, 0
  {
    var e := node.entries[index];
    assert e in node.entries;
    if e.node.Folder? then Unlines(EntryLines(e.node, 0, prefix + Extension(index == |node.entries| - 1))) else ""
  }

  /** The text of the entries from the `index`-th on: the entry's line, the
      text of its contents one level deeper, then the following entries. */
  lemma EntryText(node: Node, index: nat, prefix: string)
    requires node.Folder? && index < |node.entries|
    ensures Unlines(EntryLines(node, index, prefix)) ==
      EntryLine(node, index, prefix) + "\n" + ContentsText(node, index, prefix)
      + Unlines(EntryLines(node, index + 1, prefix))
  {
    var e, isLast := node.entries[index], index == |node.entries| - 1;
    var line := EntryLine(node, index, prefix);
    var below := if e.node.Folder? then EntryLines(e.node, 0, prefix + Extension(isLast)) else [];
    var rest := EntryLines(node, index + 1, prefix);
    assert EntryLines(node, index, prefix) == [line] + below + rest;
    UnlinesAppend([line] + below, rest);
    UnlinesAppend([line], below);
    assert Unlines([line]) == line + "\n";
  }

  /** Appending the `index`-th entry's line and the text of its contents to
      the text so far leaves the text of the following entries to go. */
  lemma AppendEntry(node: Node, index: nat, prefix: string, structure: string)
    requires node.Folder? && index < |node.entries|
    requires structure + Unlines(EntryLines(node, index, prefix)) == Unlines(EntryLines(node, 0, prefix))
    ensures (structure + EntryLine(node, index, prefix) + "\n" + ContentsText(node, index, prefix))
      + Unlines(EntryLines(node, index + 1, prefix)) == Unlines(EntryLines(node, 0, prefix))
  {
    var line, sub := EntryLine(node, index, prefix), ContentsText(node, index, prefix);
    var rest := Unlines(EntryLines(node, index + 1, prefix));
    EntryText(node, index, prefix);
    assert structure + (line + "\n" + sub + rest) == (structure + line + "\n" + sub) + rest;
  }

  /** `buildAsciiTree(node, depth, prefix)`: the text of the entries of a
      folder, each line ended by a line break. */
  method BuildAsciiTree(node: Node, depth: nat, prefix: string) returns (structure: string)
    requires node.Folder?
    ensures structure == Unlines(EntryLines(node, 0, prefix))
    decreases node
  {
    structure := "";
    var entries := node.entries;
    var index := 0;
    while index < |entries|
      invariant 0 <= index <= |entries|
      invariant structure + Unlines(EntryLines(node, index, prefix)) == Unlines(EntryLines(node, 0, prefix))
    {
      var key, value := entries[index].name, entries[index].node;
      var isLast := index == |entries| - 1;
      var connector := Connector(isLast);
      var newPrefix := prefix + Extension(isLast);
      var sub := "";
      if value.Folder? {
        assert entries[index] in node.entries;
        sub := BuildAsciiTree(value, depth + 1, newPrefix);
      }
      assert prefix + connector + key == EntryLine(node, index, prefix);
      assert sub == ContentsText(node, index, prefix);
      AppendEntry(node, index, prefix, structure);
      structure := structure + (prefix + connector + key) + "\n" + sub;
      index := index + 1;
    }
  }

  // ---- printZipStructure ----

  /** What the page shows: the drawing, or the error notice. */
  datatype Output = Printed(text: string) | Failed

  /** The text for a built tree: the archive name on the first line, then
      the drawing. */
  function Drawing(fileName: string, root: Node): string
    requires root.Folder?
  {
    RootName(fileName) + "\n" + Unlines(EntryLines(root, 0, ""))
  }

  lemma BuildIsFolder(paths: seq<string>)
    ensures Build(paths).Ok? ==> Build(paths).value.Folder?
  {
    if paths != [] && Build(paths[..|paths| - 1]).Ok? {
      BuildIsFolder(paths[..|paths| - 1]);
    }
  }

  /** `printZipStructure`: insert every entry path of the archive, then draw
      the tree under the archive name; a failed insertion shows the error
      notice instead. */
  method PrintZipStructure(fileName: string, paths: seq<string>) returns (output: Output)
    ensures output.Printed? <==> Build(paths).Ok?
    ensures output.Printed? ==> Build(paths).value.Folder? && output.text == Drawing(fileName, Build(paths).value)
  {
    var rootName := RootName(fileName);
    var root := Folder([]);
    var i := 0;
    while i < |paths|
      invariant 0 <= i <= |paths|
      invariant Build(paths[..i]) == Ok(root) && root.Folder?
    {
      assert paths[..i + 1][..i] == paths[..i];
      var pathArray := Split(paths[i], '/');
      var r := AddFile(pathArray, root);
      if r.Err? {
        BuildFailureSticks(paths, i + 1);
        return Failed;
      }
      AddFileKeepsFolder(pathArray, root);
      root := r.value;
      i := i + 1;
    }
    assert paths[..|paths|] == paths;
    var tree := BuildAsciiTree(root, 0, "");
    output := Printed(rootName + "\n" + tree);
  }

  lemma AddFileKeepsFolder(path: seq<string>, node: Node)
    requires |path| >= 1 && node.Folder? && AddFile(path, node).Ok?
    ensures AddFile(path, node).value.Folder?
  {
  }

  /** An archive without entries shows just its name. */
  lemma EmptyArchive(fileName: string)
    ensures Build([]) == Ok(Folder([]))
    ensures Drawing(fileName, Folder([])) == RootName(fileName) + "\n"
  {
  }
}
