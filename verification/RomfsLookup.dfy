/** The path lookup of rt-smart/components/dfs/filesystems/romfs/dfs_romfs.c, on the images of module Romfs. */
module RomfsLookup {
  import opened Common
  import opened Romfs

  // `whole` tells whether all of the path was used to get to the node.
  datatype Search = NotFound | Found(node: Node, whole: bool)

  function SkipSlashes(path: Bytes, i: nat): (j: nat)
    requires i <= |path|
    ensures i <= j <= |path| && (j < |path| ==> path[j] != SLASH) && forall k :: i <= k < j ==> path[k] == SLASH
    decreases |path| - i
  {
    if i < |path| && path[i] == SLASH then SkipSlashes(path, i + 1) else i
  }

  function NameEnd(path: Bytes, i: nat): (j: nat)
    requires i <= |path|
    ensures i <= j <= |path| && (j < |path| ==> path[j] == SLASH) && forall k :: i <= k < j ==> path[k] != SLASH
    decreases |path| - i
  {
    if i < |path| && path[i] != SLASH then NameEnd(path, i + 1) else i
  }

  // The first child of that name, or the number of children.
  function FirstNamed(children: seq<Node>, name: Bytes): (k: nat)
    ensures k <= |children| && (k < |children| ==> children[k].name == name)
    ensures forall i :: 0 <= i < k ==> children[i].name != name
  {
    if children == [] || children[0].name == name then 0 else 1 + FirstNamed(children[1..], name)
  }

  // What the path from its part path[start..end] on leads to below a folder. A file ends the search early.
  function FindIn(f: Node, path: Bytes, start: nat, end: nat): Search
    requires f.Folder? && start <= end <= |path|
    decreases f
  {
    var k := FirstNamed(f.children, path[start..end]);
    if k == |f.children| then NotFound
    else
      var c, next := f.children[k], SkipSlashes(path, end);
      if next == |path| then Found(c, true)
      else if c.Folder? then FindIn(c, path, next, NameEnd(path, next))
      else Found(c, false)
  }

  function Find(tree: Node, path: Bytes): Search
    requires tree.Folder?
  {
    if path == [SLASH] then Found(Folder([SLASH], tree.children), true)
    else
      var start := SkipSlashes(path, 0);
      FindIn(tree, path, start, NameEnd(path, start))
  }

  // A folder's bytes are in memory, at an address its dirents were made for.
  ghost predicate Placed(m: Memory, f: Node, addr: nat, depth: nat) {
    && f.Folder? && addr > 0 && Packs(f, addr) && Holds(m, addr, BinData(f, addr)) && addr + |BinData(f, addr)| < WORD
    && forall k :: 0 <= k < |f.children| ==> Proper(f.children[k]) && Within(f.children[k], depth)
  }

  ghost predicate IsImage(m: Memory, tree: Node, depth: nat) {
    && tree.Folder? && depth > 0 && Packable(RootDirent(tree, m.base))
       && Holds(m, m.base, Pack(RootDirent(tree, m.base)))
    && Holds(m, m.base + DIRENT_SIZE, BinName([SLASH])) && Placed(m, tree, m.base + DIRENT_SIZE + 4, depth - 1)
  }

  /** What mkromfs.py writes is an image in this sense. */
  lemma ImageIsImage(tree: Node, base: nat, depth: nat)
    requires tree.Folder? && Proper(tree) && Within(tree, depth) && base + |Image(tree, base)| < WORD
    ensures IsImage(Memory(base, Image(tree, base)), tree, depth)
  {
    hide Pack, BinData, BinName, Holds, Image, Dirents, Payload;
    ImageSize(tree, base);
    FolderData(tree, base + 20);
    ImageHolds(tree, base);
    FittingPacks(tree, base + DIRENT_SIZE + 4);
  }

  lemma ImageSize(tree: Node, base: nat)
    requires tree.Folder?
    ensures |Image(tree, base)| == 20 + |BinData(tree, base + 20)|
  {
    hide Pack, BinData;
    assert |BinName([SLASH])| == 4;
  }

  lemma RootReads(m: Memory, tree: Node, depth: nat)
    requires IsImage(m, tree, depth)
    ensures ReadDirent(m, m.base) == Some(RootDirent(tree, m.base))
    ensures ReadNode(m, m.base, depth) == Some(Folder([SLASH], tree.children))
    ensures |tree.children| < WORD - 1
  {
    hide Pack, BinData, BinName, Holds, Packs, ReadDirent, ReadNode, ReadNodes, ReadName, Placed;
    var root := RootDirent(tree, m.base);
    DirentReads(m, m.base, root);
    assert ProperName([SLASH]);
    BinNameReads(m, root.name, [SLASH]);
    FolderReads(m, tree, root.data, depth - 1);
    ReadFolder(m, m.base, root, [SLASH], tree.children, depth);
  }

  lemma FolderReads(m: Memory, f: Node, addr: nat, depth: nat)
    requires Placed(m, f, addr, depth)
    ensures ReadNodes(m, addr, |f.children|, depth) == Some(f.children) && |f.children| < WORD - 1
  {
    FolderData(f, addr);
    hide BinData, Holds, Packs, ReadNodes, Proper, Within;
    NodesRead(m, f, |f.children|, addr, depth);
    assert f.children[..|f.children|] == f.children;
  }

  // Everything a lookup reads of child k.
  lemma ChildReads(m: Memory, f: Node, addr: nat, depth: nat, k: nat)
    requires f.Folder? && Placed(m, f, addr, depth) && k < |f.children|
    ensures var c, d := f.children[k], DirentOf(f, k, addr);
            && ReadDirent(m, addr + 16 * k) == Some(d) && ReadName(m, d.name) == Some(c.name)
            && ReadNode(m, addr + 16 * k, depth) == Some(c)
            && d.kind == (if c.File? then 0 else 1) && d.size == EntrySize(c) < WORD - 1
            && (c.Folder? ==> depth > 0 && Placed(m, c, d.data, depth - 1))
  {
    hide Pack, BinData, BinName, Holds, Packs, ReadDirent, ReadName, ReadNode, Payload, Proper, Within;
    var c, d := f.children[k], DirentOf(f, k, addr);
    PacksChild(f, k, addr);
    AddressesExact(m, f, k, addr);
    NodeReads(m, f, k, addr, depth);
    DirentReads(m, addr + 16 * k, d);
    ProperChildren(c, depth);
    BinNameReads(m, d.name, c.name);
    ChildFits(f, k, addr);
    EntryFits(c, d.data);
  }

  lemma EntryFits(c: Node, addr: nat)
    ensures EntrySize(c) <= |BinData(c, addr)|
  {
    if c.Folder? {
      FolderData(c, addr);
    }
  }

  // check_dirent
  predicate Check(d: Dirent)
  {
    (d.kind == 0 || d.kind == 1) && d.size != WORD - 1
  }

  method SkipSlashesFrom(path: Bytes, i: nat) returns (j: nat)
    requires i <= |path|
    ensures j == SkipSlashes(path, i)
  {
    j := i;
    while j < |path| && path[j] == SLASH
      invariant j <= |path| && SkipSlashes(path, j) == SkipSlashes(path, i)
    {
      j := j + 1;
    }
  }

  method NameEndFrom(path: Bytes, i: nat) returns (j: nat)
    requires i <= |path|
    ensures j == NameEnd(path, i)
  {
    j := i;
    while j < |path| && path[j] != SLASH
      invariant j <= |path| && NameEnd(path, j) == NameEnd(path, i)
    {
      j := j + 1;
    }
  }

  lemma {:induction false} FirstNamedIs(children: seq<Node>, name: Bytes, k: nat)
    requires k <= |children| && (k < |children| ==> children[k].name == name)
    requires forall i :: 0 <= i < k ==> children[i].name != name
    ensures FirstNamed(children, name) == k
  {
    if k > 0 {
      FirstNamedIs(children[1..], name, k - 1);
    }
  }

  // The search in one folder; a dirent that cannot be valid would end the lookup.
  method SearchFolder(m: Memory, data: nat, count: nat, name: Bytes, ghost f: Node, ghost depth: nat)
    returns (index: nat)
    requires f.Folder? && Placed(m, f, data, depth) && count == |f.children|
    ensures index == FirstNamed(f.children, name)
  {
    hide Placed, ReadDirent, ReadName, ReadNode, DirentOf, FirstNamed;
    index := 0;
    while index < count
      invariant index <= count
      invariant forall i :: 0 <= i < index ==> f.children[i].name != name
    {
      ChildReads(m, f, data, depth, index);
      var d := ReadDirent(m, data + 16 * index).value;
      if !Check(d) {
        assert false;
      }
      if ReadName(m, d.name) == Some(name) {
        break;
      }
      index := index + 1;
    }
    FirstNamedIs(f.children, name, index);
  }

  lemma FindInUnfolds(f: Node, path: Bytes, start: nat, end: nat)
    requires f.Folder? && start <= end <= |path|
    ensures var k, next := FirstNamed(f.children, path[start..end]), SkipSlashes(path, end);
            FindIn(f, path, start, end) ==
              if k == |f.children| then NotFound
              else if next == |path| then Found(f.children[k], true)
              else if f.children[k].Folder? then FindIn(f.children[k], path, next, NameEnd(path, next))
              else Found(f.children[k], false)
  {
  }

  // The dirent at `addr` is that of the node the search finds, and `size` is set to its size if the whole path was
  // used.
  ghost predicate Answers(m: Memory, search: Search, depth: nat, addr: Option<nat>, size: Option<nat>) {
    match search
    case NotFound => addr.None?
    case Found(node, whole) =>
      && addr.Some? && (exists d: nat :: d <= depth && ReadNode(m, addr.value, d) == Some(node))
      && size == if whole then Some(EntrySize(node)) else None
  }

  lemma AnswerFound(m: Memory, node: Node, whole: bool, depth: nat, d: nat, addr: nat)
    requires d <= depth && ReadNode(m, addr, d) == Some(node)
    ensures Answers(m, Found(node, whole), depth, Some(addr), if whole then Some(EntrySize(node)) else None)
  {
  }

  lemma AnswerNot(m: Memory, depth: nat)
    ensures Answers(m, NotFound, depth, None, None)
  {
  }

  /** dfs_romfs_lookup: `addr` is the dirent it returns, `size` what the caller's variable is set to, if it is set. */
  method Lookup(m: Memory, path: Bytes, ghost tree: Node, ghost depth: nat)
    returns (addr: Option<nat>, size: Option<nat>)
    requires IsImage(m, tree, depth)
    ensures Answers(m, Find(tree, path), depth, addr, size)
  {
    hide FindIn, Placed, ReadDirent, ReadNode, DirentOf, Holds, Packs, EntrySize, SkipSlashes, NameEnd, FirstNamed,
      Answers;
    RootReads(m, tree, depth);
    RootSize(tree, m.base);
    var root := ReadDirent(m, m.base).value;
    if !Check(root) {
      assert false;
    }
    if path == [SLASH] {
      AnswerFound(m, Folder([SLASH], tree.children), true, depth, depth, m.base);
      return Some(m.base), Some(root.size);
    }
    var start: nat := SkipSlashesFrom(path, 0);
    var end: nat := NameEndFrom(path, start);
    assert Find(tree, path) == FindIn(tree, path, start, end);
    hide *;
    var data: nat, count: nat := root.data, root.size;
    ghost var f: Node, below: nat := tree, depth - 1;
    while true
      invariant below < depth && f.Folder? && Placed(m, f, data, below) && count == |f.children|
      invariant start <= end <= |path| && FindIn(f, path, start, end) == Find(tree, path)
      decreases f
    {
      FindInUnfolds(f, path, start, end);
      var index := SearchFolder(m, data, count, path[start..end], f, below);
      if index == count {
        AnswerNot(m, depth);
        return None, None;
      }
      ChildReads(m, f, data, below, index);
      ghost var c := f.children[index];
      var d := ReadDirent(m, data + 16 * index).value;
      start := SkipSlashesFrom(path, end);
      end := NameEndFrom(path, start);
      if start == |path| {
        AnswerFound(m, c, true, depth, below, data + 16 * index);
        return Some(data + 16 * index), Some(d.size);
      }
      if d.kind != 1 {
        AnswerFound(m, c, false, depth, below, data + 16 * index);
        return Some(data + 16 * index), None;
      }
      data, count := d.data, d.size;
      FolderSize(c);
      f, below := c, below - 1;
    }
  }

  lemma FolderSize(c: Node)
    ensures c.Folder? ==> EntrySize(c) == |c.children|
  {
  }

  lemma RootSize(tree: Node, base: nat)
    requires tree.Folder?
    ensures EntrySize(tree) == |tree.children| == EntrySize(Folder([SLASH], tree.children))
  {
  }

  function Join(names: seq<Bytes>): Bytes {
    if names == [] then [] else [SLASH] + names[0] + Join(names[1..])
  }

  ghost predicate PathName(name: Bytes) {
    name != [] && SLASH !in name
  }

  function Walk(f: Node, names: seq<Bytes>): Search
    requires f.Folder? && names != []
    decreases f
  {
    var k := FirstNamed(f.children, names[0]);
    if k == |f.children| then NotFound
    else if |names| == 1 then Found(f.children[k], true)
    else if f.children[k].Folder? then Walk(f.children[k], names[1..])
    else Found(f.children[k], false)
  }

  lemma {:induction false} NameEndIs(path: Bytes, i: nat, name: Bytes, rest: Bytes)
    requires i <= |path| && path[i..] == name + rest && SLASH !in name && (rest != [] ==> rest[0] == SLASH)
    ensures NameEnd(path, i) == i + |name| && i + |name| <= |path|
    ensures path[i..i + |name|] == name && path[i + |name|..] == rest
    decreases name
  {
    assert |path| == i + |name| + |rest|;
    if name != [] {
      assert path[i] == (name + rest)[0];
      assert path[i + 1..] == path[i..][1..] == name[1..] + rest;
      NameEndIs(path, i + 1, name[1..], rest);
      assert name == [name[0]] + name[1..];
    } else if rest != [] {
      assert path[i] == rest[0];
    }
  }

  lemma JoinStarts(names: seq<Bytes>)
    requires names != []
    ensures Join(names) == [SLASH] + (names[0] + Join(names[1..]))
  {
  }

  lemma SlashSkipped(path: Bytes, i: nat, names: seq<Bytes>)
    requires i <= |path| && names != [] && path[i..] == Join(names) && PathName(names[0])
    ensures i < |path| && SkipSlashes(path, i) == i + 1 && path[i + 1..] == names[0] + Join(names[1..])
  {
    JoinStarts(names);
    var tail := names[0] + Join(names[1..]);
    assert path[i..][0] == SLASH && path[i..][1..] == tail;
    assert path[i + 1..] == tail && path[i + 1] == tail[0];
  }

  // The names in a path: what is between its slashes.
  function Parts(path: Bytes, i: nat): seq<Bytes>
    requires i <= |path|
    decreases |path| - i
  {
    var start := SkipSlashes(path, i);
    if start == |path| then [] else
      var end := NameEnd(path, start);
      [path[start..end]] + Parts(path, end)
  }

  lemma PartsAtName(path: Bytes, i: nat, start: nat, end: nat)
    requires i <= |path| && start == SkipSlashes(path, i) < |path| && end == NameEnd(path, start)
    ensures Parts(path, i) == [path[start..end]] + Parts(path, end)
  {
    hide SkipSlashes, NameEnd;
  }

  lemma PartsAtEnd(path: Bytes)
    ensures Parts(path, |path|) == []
  {
  }

  lemma JoinedNames(names: seq<Bytes>)
    requires names != [] && forall n :: n in names ==> PathName(n)
    ensures PathName(names[0]) && (forall n :: n in names[1..] ==> PathName(n)) && names == [names[0]] + names[1..]
    ensures SLASH !in names[0] && (Join(names[1..]) != [] ==> Join(names[1..])[0] == SLASH)
  {
    if |names| > 1 {
      JoinStarts(names[1..]);
    }
  }

  lemma {:induction false} PartsOfJoin(path: Bytes, i: nat, names: seq<Bytes>)
    requires i <= |path| && path[i..] == Join(names) && forall n :: n in names ==> PathName(n)
    ensures Parts(path, i) == names
    decreases names
  {
    hide *;
    if names == [] {
      JoinNone();
      assert path[i..] == [] && i == |path|;
      PartsAtEnd(path);
    } else {
      JoinedNames(names);
      SlashSkipped(path, i, names);
      NameEndIs(path, i + 1, names[0], Join(names[1..]));
      PartsAtName(path, i, i + 1, i + 1 + |names[0]|);
      PartsOfJoin(path, i + 1 + |names[0]|, names[1..]);
    }
  }

  lemma JoinNone()
    ensures Join([]) == []
  {
  }

  lemma {:induction false} FindInIsWalk(f: Node, path: Bytes, i: nat)
    requires f.Folder? && i <= |path| && SkipSlashes(path, i) < |path|
    ensures Parts(path, i) != []
    ensures var start := SkipSlashes(path, i); FindIn(f, path, start, NameEnd(path, start)) == Walk(f, Parts(path, i))
    decreases f
  {
    hide FindIn, FirstNamed, NameEnd;
    var start, names := SkipSlashes(path, i), Parts(path, i);
    var end := NameEnd(path, start);
    FindInUnfolds(f, path, start, end);
    assert names[1..] == Parts(path, end);
    var k := FirstNamed(f.children, names[0]);
    if SkipSlashes(path, end) < |path| && k < |f.children| && f.children[k].Folder? {
      FindInIsWalk(f.children[k], path, end);
    }
  }

  ghost predicate DistinctNames(f: Node) {
    f.Folder? ==>
      && (forall i, j :: 0 <= i < j < |f.children| ==> f.children[i].name != f.children[j].name)
      && forall k :: 0 <= k < |f.children| ==> DistinctNames(f.children[k]) && PathName(f.children[k].name)
  }

  // A way down the tree: the child to take at each folder.
  predicate Leads(f: Node, way: seq<nat>) {
    way != [] ==> f.Folder? && way[0] < |f.children| && Leads(f.children[way[0]], way[1..])
  }

  function At(f: Node, way: seq<nat>): Node
    requires Leads(f, way)
  {
    if way == [] then f else At(f.children[way[0]], way[1..])
  }

  function NamesOn(f: Node, way: seq<nat>): (names: seq<Bytes>)
    requires Leads(f, way)
    ensures |names| == |way|
  {
    if way == [] then [] else [f.children[way[0]].name] + NamesOn(f.children[way[0]], way[1..])
  }

  lemma {:induction false} WalkLeads(f: Node, way: seq<nat>)
    requires f.Folder? && way != [] && Leads(f, way) && DistinctNames(f)
    ensures Walk(f, NamesOn(f, way)) == Found(At(f, way), true)
    ensures forall n :: n in NamesOn(f, way) ==> PathName(n)
    decreases f
  {
    var c, names := f.children[way[0]], NamesOn(f, way);
    assert names[0] == c.name && names[1..] == NamesOn(c, way[1..]);
    assert FirstNamed(f.children, names[0]) == way[0];
    if |way| > 1 {
      WalkLeads(c, way[1..]);
    } else {
      assert way[1..] == [];
    }
  }

  lemma {:induction false} WalkPastFile(f: Node, way: seq<nat>, more: seq<Bytes>)
    requires f.Folder? && way != [] && Leads(f, way) && DistinctNames(f) && At(f, way).File? && more != []
    ensures Walk(f, NamesOn(f, way) + more) == Found(At(f, way), false)
    decreases f
  {
    var c, names := f.children[way[0]], NamesOn(f, way) + more;
    assert names[0] == c.name && names[1..] == NamesOn(c, way[1..]) + more;
    assert FirstNamed(f.children, names[0]) == way[0];
    if |way| > 1 {
      WalkPastFile(c, way[1..], more);
    } else {
      assert way[1..] == [];
    }
  }

  // A walk that finds a node has gone a way to it.
  lemma {:induction false} WalkWay(f: Node, names: seq<Bytes>) returns (way: seq<nat>)
    requires f.Folder? && names != [] && Walk(f, names).Found?
    ensures way != [] && Leads(f, way) && At(f, way) == Walk(f, names).node && NamesOn(f, way) <= names
    ensures if Walk(f, names).whole then NamesOn(f, way) == names else At(f, way).File? && NamesOn(f, way) < names
    decreases f
  {
    var k := FirstNamed(f.children, names[0]);
    var c := f.children[k];
    if |names| > 1 && c.Folder? {
      var rest := WalkWay(c, names[1..]);
      way := [k] + rest;
      assert way[1..] == rest;
      assert NamesOn(f, way) == [names[0]] + NamesOn(c, rest) && names == [names[0]] + names[1..];
    } else {
      way := [k];
      assert way[1..] == [];
      assert NamesOn(f, way) == [names[0]] + [];
    }
  }

  // The way spells all the names and ends at the node.
  ghost predicate Spells(tree: Node, way: seq<nat>, names: seq<Bytes>, n: Node) {
    way != [] && Leads(tree, way) && At(tree, way) == n && NamesOn(tree, way) == names
  }

  // The way spells only the first of the names and ends at a file.
  ghost predicate StopsAt(tree: Node, way: seq<nat>, names: seq<Bytes>, n: Node) {
    way != [] && Leads(tree, way) && At(tree, way) == n && n.File? && NamesOn(tree, way) < names
  }

  lemma WalkTells(tree: Node, names: seq<Bytes>, n: Node)
    requires tree.Folder? && DistinctNames(tree) && names != []
    ensures Walk(tree, names) == Found(n, true) <==> exists way :: Spells(tree, way, names, n)
    ensures Walk(tree, names) == Found(n, false) <==> exists way :: StopsAt(tree, way, names, n)
  {
    hide Walk;
    if way :| Spells(tree, way, names, n) {
      WalkLeads(tree, way);
    }
    if way :| StopsAt(tree, way, names, n) {
      var more := names[|way|..];
      assert names == NamesOn(tree, way) + more;
      WalkPastFile(tree, way, more);
    }
    if Walk(tree, names).Found? {
      var way := WalkWay(tree, names);
      assert if Walk(tree, names).whole then Spells(tree, way, names, Walk(tree, names).node)
             else StopsAt(tree, way, names, Walk(tree, names).node);
    }
  }

  // No child has an empty name.
  lemma NoName(tree: Node)
    requires tree.Folder? && DistinctNames(tree)
    ensures FirstNamed(tree.children, []) == |tree.children|
  {
    hide DistinctNames, FirstNamed;
    if FirstNamed(tree.children, []) < |tree.children| {
      ChildName(tree, FirstNamed(tree.children, []));
    }
  }

  lemma ChildName(tree: Node, k: nat)
    requires tree.Folder? && DistinctNames(tree) && k < |tree.children|
    ensures tree.children[k].name != []
  {
  }

  // A path other than "/" is looked up by the names in it, and one without names leads nowhere.
  lemma FindIsWalk(tree: Node, path: Bytes)
    requires tree.Folder? && DistinctNames(tree) && path != [SLASH]
    ensures var names := Parts(path, 0);
            Find(tree, path) == if names == [] then NotFound else Walk(tree, names)
  {
    hide Walk, FindIn, DistinctNames;
    var start := SkipSlashes(path, 0);
    if start < |path| {
      FindInIsWalk(tree, path, 0);
    } else {
      NoName(tree);
      assert path[start..start] == [];
      FindInUnfolds(tree, path, start, start);
    }
  }

  /** A path leads to a node with all of its names exactly if they are those on a way to it, and ends early at a node
      exactly if that is a file with some of its first names; in all other cases nothing is found. */
  lemma FindTells(tree: Node, path: Bytes, n: Node)
    requires tree.Folder? && DistinctNames(tree) && path != [SLASH]
    ensures Find(tree, path) == Found(n, true) <==> exists way :: Spells(tree, way, Parts(path, 0), n)
    ensures Find(tree, path) == Found(n, false) <==> exists way :: StopsAt(tree, way, Parts(path, 0), n)
  {
    hide Walk, Find, DistinctNames;
    FindIsWalk(tree, path);
    if Parts(path, 0) != [] {
      WalkTells(tree, Parts(path, 0), n);
    }
  }

  /** Every file and folder of a tree is found by its path. */
  lemma EveryNodeFound(tree: Node, way: seq<nat>)
    requires tree.Folder? && way != [] && Leads(tree, way) && DistinctNames(tree)
    ensures Find(tree, Join(NamesOn(tree, way))) == Found(At(tree, way), true)
  {
    WalkLeads(tree, way);
    var names := NamesOn(tree, way);
    var path := Join(names);
    assert path[0..] == path;
    PartsOfJoin(path, 0, names);
    assert PathName(names[0]) && |path| > 1;
    FindIsWalk(tree, path);
  }

  // A tree with one empty file, and a path that goes on behind it.
  lemma FileTakenForFolder()
    ensures var tree := Folder([1], [File([2], [])]);
            DistinctNames(tree) && Find(tree, [SLASH, 2, SLASH, 3]) == Found(File([2], []), false)
  {
    var tree, path := Folder([1], [File([2], [])]), [SLASH, 2, SLASH, 3];
    assert Leads(tree, [0]) && At(tree, [0]) == File([2], []) && [0][1..] == [];
    assert path[3..] == [3] && path[2..] == Join([[3]]) by {
      assert Join([[3]]) == [SLASH] + [3] + Join([]);
    }
    assert path[0..] == Join([[2], [3]]) by {
      assert Join([[2], [3]]) == [SLASH] + [2] + Join([[3]]);
    }
    PartsOfJoin(path, 0, [[2], [3]]);
    assert NamesOn(tree, [0]) == [[2]] + [];
    assert StopsAt(tree, [0], [[2], [3]], File([2], []));
    FindTells(tree, path, File([2], []));
  }
}
