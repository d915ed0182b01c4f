/** The image that rt-smart/tools/mkromfs.py writes for a folder tree, and what a reader of its dirents finds in it. */
module Romfs {
  import opened Common

  type Byte = b: int | 0 <= b < 256

  type Bytes = seq<Byte>

  datatype Node = File(name: Bytes, data: Bytes) | Folder(name: Bytes, children: seq<Node>)

  datatype Dirent = Dirent(kind: nat, name: nat, data: nat, size: nat)

  const NUL: Byte := 0
  const SLASH: Byte := 47
  const WORD := 0x1_0000_0000
  const DIRENT_SIZE := 16

  function Zeros(n: nat): (z: Bytes)
    ensures |z| == n && forall i :: 0 <= i < n ==> z[i] == NUL
  {
    seq(n, i => NUL)
  }

  // bin_name: padded to a multiple of four with at least one NUL.
  function BinName(name: Bytes): Bytes {
    name + Zeros(4 - |name| % 4)
  }

  function Padded(data: Bytes): Bytes {
    if |data| % 4 == 0 then data else data + Zeros(4 - |data| % 4)
  }

  function EntrySize(node: Node): nat {
    if node.File? then |node.data| else |node.children|
  }

  function Kind(node: Node): nat {
    if node.File? then 0 else 1
  }

  // One little-endian word, as struct.pack writes it for a value that fits.
  function Word(v: nat): (w: Bytes)
    ensures |w| == 4
  {
    [v % 256, v / 256 % 256, v / 256 / 256 % 256, v / 256 / 256 / 256 % 256]
  }

  function Pack(d: Dirent): (p: Bytes)
    ensures |p| == DIRENT_SIZE
  {
    Word(d.kind) + Word(d.name) + Word(d.data) + Word(d.size)
  }

  // struct.pack raises an error for any other value.
  predicate Packable(d: Dirent) {
    d.kind < WORD && d.name < WORD && d.data < WORD && d.size < WORD
  }

  // What the first k children add behind the dirents of a folder.
  function Payload(f: Node, k: nat, base: nat): Bytes
    requires f.Folder? && k <= |f.children|
    decreases f, 4 * k
  {
    if k == 0 then [] else Payload(f, k - 1, base) + Entry(f, k - 1, base)
  }

  // Where the name of child k goes.
  function NameAddr(f: Node, k: nat, base: nat): nat
    requires f.Folder? && k <= |f.children|
    decreases f, 4 * k + 1
  {
    base + 16 * |f.children| + |Payload(f, k, base)|
  }

  function DataAddr(f: Node, k: nat, base: nat): nat
    requires f.Folder? && k < |f.children|
    decreases f, 4 * k + 2
  {
    NameAddr(f, k, base) + |BinName(f.children[k].name)|
  }

  // The name and data of child k.
  function Entry(f: Node, k: nat, base: nat): Bytes
    requires f.Folder? && k < |f.children|
    decreases f, 4 * k + 3
  {
    BinName(f.children[k].name) + Padded(BinData(f.children[k], DataAddr(f, k, base)))
  }

  function DirentOf(f: Node, k: nat, base: nat): Dirent
    requires f.Folder? && k < |f.children|
    decreases f, 4 * k + 3
  {
    var c := f.children[k];
    Dirent(Kind(c), NameAddr(f, k, base), DataAddr(f, k, base), EntrySize(c))
  }

  function Dirents(f: Node, k: nat, base: nat): (d: Bytes)
    requires f.Folder? && k <= |f.children|
    ensures |d| == 16 * k
    decreases f, 4 * k
  {
    if k == 0 then [] else Dirents(f, k - 1, base) + Pack(DirentOf(f, k - 1, base))
  }

  // The bytes of a node whose first byte is at address `base`.
  function BinData(node: Node, base: nat): Bytes
    decreases node, if node.Folder? then 4 * |node.children| + 4 else 0
  {
    if node.File? then node.data else Dirents(node, |node.children|, base) + Payload(node, |node.children|, base)
  }

  function RootDirent(tree: Node, base: nat): Dirent {
    Dirent(1, base + DIRENT_SIZE, base + DIRENT_SIZE + 4, EntrySize(tree))
  }

  function Image(tree: Node, base: nat): Bytes {
    Pack(RootDirent(tree, base)) + BinName([SLASH]) + BinData(tree, base + DIRENT_SIZE + 4)
  }

  // No struct.pack on the way raises an error.
  predicate Packs(node: Node, base: nat) {
    node.Folder? ==> forall k :: 0 <= k < |node.children| ==>
      Packable(DirentOf(node, k, base)) && Packs(node.children[k], DataAddr(node, k, base))
  }

  predicate PacksUpTo(f: Node, k: nat, base: nat)
    requires f.Folder? && k <= |f.children|
  {
    forall i :: 0 <= i < k ==> Packable(DirentOf(f, i, base)) && Packs(f.children[i], DataAddr(f, i, base))
  }

  lemma PacksFolder(f: Node, base: nat)
    requires f.Folder?
    ensures Packs(f, base) <==> PacksUpTo(f, |f.children|, base)
    ensures PacksUpTo(f, 0, base)
  {
    hide Packable, DirentOf, DataAddr;
  }

  lemma PacksNext(f: Node, k: nat, base: nat)
    requires f.Folder? && k < |f.children|
    ensures var next := Packable(DirentOf(f, k, base)) && Packs(f.children[k], DataAddr(f, k, base));
            && PacksUpTo(f, k + 1, base) == (PacksUpTo(f, k, base) && next)
            && (!next ==> !Packs(f, base))
  {
    hide Packable, DirentOf, DataAddr;
  }

  lemma EmptyFolder(f: Node, base: nat)
    requires f.Folder?
    ensures Dirents(f, 0, base) == [] && Payload(f, 0, base) == [] && NameAddr(f, 0, base) == base + 16 * |f.children|
  {
  }

  lemma PaddedIs(data: Bytes)
    ensures Padded(data) == if |data| % 4 == 0 then data else data + Zeros(4 - |data| % 4)
  {
  }

  // One round of the loop in Folder.bin_data: the dirent of child k, and its name and data.
  method WriteChild(f: Node, k: nat, base: nat, end: nat) returns (r: Option<(Dirent, Bytes)>)
    requires f.Folder? && k < |f.children| && end == NameAddr(f, k, base)
    ensures r.Some? <==> Packable(DirentOf(f, k, base)) && Packs(f.children[k], DataAddr(f, k, base))
    ensures r.Some? ==> r.value.0 == DirentOf(f, k, base)
    ensures r.Some? ==> r.value.1 == Entry(f, k, base)
    decreases f, 0
  {
    hide *;
    AddressesOf(f, k, base);
    EntryIs(f, k, base);
    var c := f.children[k];
    var name, nameAddr := BinName(c.name), end;
    var dataAddr := nameAddr + |name|;
    var written := WriteNode(c, dataAddr);
    if written.None? {
      return None;
    }
    var data := written.value;
    PaddedIs(data);
    if |data| % 4 != 0 {
      data := data + Zeros(4 - |data| % 4);
    }
    var dirent := Dirent(Kind(c), nameAddr, dataAddr, EntrySize(c));
    if !Packable(dirent) {
      return None;
    }
    return Some((dirent, name + data));
  }

  /** Folder.bin_data and File.bin_data */
  method WriteNode(node: Node, base: nat) returns (r: Option<Bytes>)
    ensures r == if Packs(node, base) then Some(BinData(node, base)) else None
    decreases node, 1
  {
    if node.File? {
      return Some(node.data);
    }
    hide *;
    var dirents: Bytes, payload: Bytes := [], [];
    var end := base + 16 * |node.children|;
    EmptyFolder(node, base);
    PacksFolder(node, base);
    for k := 0 to |node.children|
      invariant dirents == Dirents(node, k, base) && payload == Payload(node, k, base) && end == NameAddr(node, k, base)
      invariant PacksUpTo(node, k, base)
    {
      PacksNext(node, k, base);
      PayloadGrows(node, k, base);
      DirentsGrow(node, k, base);
      var written := WriteChild(node, k, base, end);
      if written.None? {
        return None;
      }
      var (dirent, bytes) := written.value;
      dirents := dirents + Pack(dirent);
      payload := payload + bytes;
      end := end + |bytes|;
    }
    FolderData(node, base);
    return Some(dirents + payload);
  }

  lemma AddressesOf(f: Node, k: nat, base: nat)
    requires f.Folder? && k < |f.children|
    ensures DataAddr(f, k, base) == NameAddr(f, k, base) + |BinName(f.children[k].name)|
    ensures DirentOf(f, k, base) ==
            Dirent(Kind(f.children[k]), NameAddr(f, k, base), DataAddr(f, k, base), EntrySize(f.children[k]))
  {
    hide NameAddr;
  }

  /** get_bin_data */
  method WriteImage(tree: Node, base: nat) returns (r: Option<Bytes>)
    requires tree.Folder?
    ensures r == if Packable(RootDirent(tree, base))
      && Packs(tree, base + DIRENT_SIZE + 4) then Some(Image(tree, base)) else None
  {
    var end := base + DIRENT_SIZE;
    var name: Bytes := [SLASH, NUL, NUL, NUL];
    assert name == BinName([SLASH]);
    var nameAddr := end;
    end := end + |name|;
    var root := Dirent(1, nameAddr, end, EntrySize(tree));
    if !Packable(root) {
      return None;
    }
    var data := WriteNode(tree, end);
    if data.None? {
      return None;
    }
    return Some(Pack(root) + name + data.value);
  }

  // Memory from address `base` on.
  datatype Memory = Memory(base: nat, bytes: Bytes)

  predicate Holds(m: Memory, addr: nat, bytes: Bytes) {
    m.base <= addr && addr + |bytes| <= m.base + |m.bytes| && m.bytes[addr - m.base..addr - m.base + |bytes|] == bytes
  }

  function LittleEndian(a: int, b: int, c: int, d: int): int {
    a + 256 * (b + 256 * (c + 256 * d))
  }

  function ReadWord(m: Memory, addr: nat): Option<nat> {
    if m.base <= addr && addr + 4 <= m.base + |m.bytes| then
      var w := m.bytes[addr - m.base..addr - m.base + 4];
      Some(LittleEndian(w[0], w[1], w[2], w[3]))
    else None
  }

  function ReadDirent(m: Memory, addr: nat): Option<Dirent> {
    var k, n, d, s := ReadWord(m, addr), ReadWord(m, addr + 4), ReadWord(m, addr + 8), ReadWord(m, addr + 12);
    if k.Some? && n.Some? && d.Some? && s.Some? then Some(Dirent(k.value, n.value, d.value, s.value)) else None
  }

  // The bytes up to the first NUL.
  function ReadName(m: Memory, addr: nat): Option<Bytes>
    decreases m.base + |m.bytes| - addr
  {
    if addr < m.base || addr >= m.base + |m.bytes| then None
    else if m.bytes[addr - m.base] == NUL then Some([])
    else
      var rest := ReadName(m, addr + 1);
      if rest.None? then None else Some([m.bytes[addr - m.base]] + rest.value)
  }

  function ReadBytes(m: Memory, addr: nat, size: nat): Option<Bytes> {
    if m.base <= addr && addr + size <= m.base + |m.bytes| then Some(m.bytes[addr - m.base..addr - m.base + size])
    else None
  }

  /** The node whose dirent is at `addr`, if it can be read without going more than `depth` folders down. */
  function ReadNode(m: Memory, addr: nat, depth: nat): Option<Node>
    decreases depth, 0
  {
    var dirent := ReadDirent(m, addr);
    if dirent.None? then None else
      var d := dirent.value;
      var name := ReadName(m, d.name);
      if name.None? then None
      else if d.kind == 0 then
        var data := ReadBytes(m, d.data, d.size);
        if data.None? then None else Some(File(name.value, data.value))
      else if d.kind == 1 && depth > 0 then
        var children := ReadNodes(m, d.data, d.size, depth - 1);
        if children.None? then None else Some(Folder(name.value, children.value))
      else None
  }

  // The nodes of the first n dirents from `addr` on.
  function ReadNodes(m: Memory, addr: nat, n: nat, depth: nat): Option<seq<Node>>
    decreases depth, n + 1
  {
    if n == 0 then Some([]) else
      var before, last := ReadNodes(m, addr, n - 1, depth), ReadNode(m, addr + 16 * (n - 1), depth);
      if before.Some? && last.Some? then Some(before.value + [last.value]) else None
  }

  ghost predicate ProperName(name: Bytes) {
    NUL !in name
  }

  ghost predicate Proper(node: Node) {
    ProperName(node.name) && (node.Folder? ==> forall k :: 0 <= k < |node.children| ==> Proper(node.children[k]))
  }

  predicate Within(node: Node, depth: nat) {
    node.Folder? ==> depth > 0 && forall k :: 0 <= k < |node.children| ==> Within(node.children[k], depth - 1)
  }

  lemma WordReads(m: Memory, addr: nat, v: nat)
    requires v < WORD && Holds(m, addr, Word(v))
    ensures ReadWord(m, addr) == Some(v)
  {
    hide LittleEndian, Word;
    WordValue(v);
  }

  lemma WordValue(v: nat)
    requires v < WORD
    ensures var w := Word(v); LittleEndian(w[0], w[1], w[2], w[3]) == v
  {
    var q := v / 256;
    var r := q / 256;
    assert r / 256 < 256;
    assert v == 256 * q + v % 256 && q == 256 * r + q % 256 && r == 256 * (r / 256) + r % 256;
  }

  lemma HoldsPart(m: Memory, addr: nat, bytes: Bytes, i: nat, part: Bytes)
    requires Holds(m, addr, bytes) && i + |part| <= |bytes| && bytes[i..i + |part|] == part
    ensures Holds(m, addr + i, part)
  {
    var o := addr - m.base;
    assert m.bytes[o..o + |bytes|][i..i + |part|] == m.bytes[o + i..o + i + |part|];
  }

  lemma DirentReads(m: Memory, addr: nat, d: Dirent)
    requires Packable(d) && Holds(m, addr, Pack(d))
    ensures ReadDirent(m, addr) == Some(d)
  {
    hide Word, Holds, ReadWord;
    var p := Pack(d);
    assert p[0..4] == Word(d.kind) && p[4..8] == Word(d.name) && p[8..12] == Word(d.data) && p[12..16] == Word(d.size);
    HoldsPart(m, addr, p, 0, Word(d.kind));
    HoldsPart(m, addr, p, 4, Word(d.name));
    HoldsPart(m, addr, p, 8, Word(d.data));
    HoldsPart(m, addr, p, 12, Word(d.size));
    WordReads(m, addr, d.kind);
    WordReads(m, addr + 4, d.name);
    WordReads(m, addr + 8, d.data);
    WordReads(m, addr + 12, d.size);
  }

  lemma {:induction false} NameReads(m: Memory, addr: nat, name: Bytes, padding: nat)
    requires ProperName(name) && padding > 0 && Holds(m, addr, name + Zeros(padding))
    ensures ReadName(m, addr) == Some(name)
    decreases name
  {
    var all := name + Zeros(padding);
    assert m.bytes[addr - m.base] == all[0] by {
      assert m.bytes[addr - m.base..addr - m.base + |all|][0] == all[0];
    }
    if name != [] {
      assert all[1..] == name[1..] + Zeros(padding);
      HoldsPart(m, addr, all, 1, name[1..] + Zeros(padding));
      NameReads(m, addr + 1, name[1..], padding);
      assert name == [name[0]] + name[1..];
    }
  }

  lemma EntryIs(f: Node, k: nat, base: nat)
    requires f.Folder? && k < |f.children|
    ensures Entry(f, k, base) == BinName(f.children[k].name) + Padded(BinData(f.children[k], DataAddr(f, k, base)))
  {
    hide BinName, BinData, Padded, DataAddr;
  }

  lemma PayloadGrows(f: Node, k: nat, base: nat)
    requires f.Folder? && k < |f.children|
    ensures Payload(f, k + 1, base) == Payload(f, k, base) + Entry(f, k, base)
    ensures NameAddr(f, k + 1, base) == NameAddr(f, k, base) + |Entry(f, k, base)|
  {
    hide Entry;
  }

  lemma DirentsGrow(f: Node, k: nat, base: nat)
    requires f.Folder? && k < |f.children|
    ensures Dirents(f, k + 1, base) == Dirents(f, k, base) + Pack(DirentOf(f, k, base))
  {
    hide Pack, DirentOf;
  }

  lemma FolderData(f: Node, base: nat)
    requires f.Folder?
    ensures BinData(f, base) == Dirents(f, |f.children|, base) + Payload(f, |f.children|, base)
  {
    hide Dirents, Payload;
  }

  lemma {:induction false} DirentInside(f: Node, k: nat, n: nat, base: nat)
    requires f.Folder? && k < n <= |f.children|
    ensures Dirents(f, n, base)[16 * k..16 * k + DIRENT_SIZE] == Pack(DirentOf(f, k, base))
    decreases n
  {
    hide Pack, DirentOf;
    if k < n - 1 {
      DirentInside(f, k, n - 1, base);
    }
  }

  lemma {:induction false} PayloadInside(f: Node, k: nat, n: nat, base: nat)
    requires f.Folder? && k <= n <= |f.children|
    ensures Payload(f, k, base) <= Payload(f, n, base)
    decreases n
  {
    hide Entry;
    if k < n {
      PayloadInside(f, k, n - 1, base);
    }
  }

  /** Every address that a dirent stores is the address of the bytes it names. */
  lemma AddressesExact(m: Memory, f: Node, k: nat, base: nat)
    requires f.Folder? && k < |f.children| && Holds(m, base, BinData(f, base))
    ensures Holds(m, base + 16 * k, Pack(DirentOf(f, k, base)))
    ensures Holds(m, NameAddr(f, k, base), BinName(f.children[k].name))
    ensures Holds(m, DataAddr(f, k, base), BinData(f.children[k], DataAddr(f, k, base)))
  {
    hide Pack, DirentOf, BinName, BinData, Payload, Dirents, Holds, Padded, Entry;
    var n, c := |f.children|, f.children[k];
    var all, dirents, payload := BinData(f, base), Dirents(f, n, base), Payload(f, n, base);
    var before, name, data := Payload(f, k, base), BinName(c.name), BinData(c, DataAddr(f, k, base));
    FolderData(f, base);
    PayloadGrows(f, k, base);
    EntryIs(f, k, base);
    DirentInside(f, k, n, base);
    PayloadInside(f, k + 1, n, base);
    assert all[16 * k..16 * k + DIRENT_SIZE] == dirents[16 * k..16 * k + DIRENT_SIZE];
    HoldsPart(m, base, all, 16 * k, Pack(DirentOf(f, k, base)));
    EntryInside(dirents, payload, before, name, data);
    HoldsPart(m, base, all, |dirents| + |before|, name);
    HoldsPart(m, base, all, |dirents| + |before| + |name|, data);
  }

  /** Names are padded with one to four NULs and data with up to three, to the next multiple of four. */
  lemma PaddingTells(name: Bytes, data: Bytes)
    ensures name <= BinName(name) && |BinName(name)| % 4 == 0 && |name| < |BinName(name)| <= |name| + 4
    ensures forall i :: |name| <= i < |BinName(name)| ==> BinName(name)[i] == NUL
    ensures data <= Padded(data) && |Padded(data)| % 4 == 0 && |data| <= |Padded(data)| < |data| + 4
    ensures forall i :: |data| <= i < |Padded(data)| ==> Padded(data)[i] == NUL
  {
  }

  /** So every address that a dirent stores is a multiple of four if the image starts at one. */
  lemma AddressesAligned(f: Node, k: nat, base: nat)
    requires f.Folder? && k < |f.children| && base % 4 == 0
    ensures NameAddr(f, k, base) % 4 == 0 && DataAddr(f, k, base) % 4 == 0
  {
    hide BinName, BinData, Entry;
    PayloadAligned(f, k, base);
    PaddingTells(f.children[k].name, []);
  }

  lemma {:induction false} PayloadAligned(f: Node, k: nat, base: nat)
    requires f.Folder? && k <= |f.children|
    ensures |Payload(f, k, base)| % 4 == 0
    decreases k
  {
    hide BinName, BinData, Padded, DataAddr;
    if k > 0 {
      PayloadAligned(f, k - 1, base);
      PaddingTells(f.children[k - 1].name, BinData(f.children[k - 1], DataAddr(f, k - 1, base)));
    }
  }

  lemma EntryInside(dirents: Bytes, payload: Bytes, before: Bytes, name: Bytes, data: Bytes)
    requires before + (name + Padded(data)) <= payload
    ensures var all, i := dirents + payload, |dirents| + |before|;
            && i + |name| + |data| <= |all|
            && all[i..i + |name|] == name && all[i + |name|..i + |name| + |data|] == data
  {
    var all, i, e := dirents + payload, |dirents| + |before|, before + (name + Padded(data));
    assert all[|dirents|..|dirents| + |e|] == e;
    assert e[|before|..|before| + |name|] == name;
    assert e[|before| + |name|..|before| + |name| + |data|] == data;
    assert all[i..i + |name|] == all[|dirents|..|dirents| + |e|][|before|..|before| + |name|];
    assert all[i + |name|..i + |name| + |data|]
      == all[|dirents|..|dirents| + |e|][|before| + |name|..|before| + |name| + |data|];
  }

  // The bytes of a child lie within those of its folder.
  lemma ChildFits(f: Node, k: nat, base: nat)
    requires f.Folder? && k < |f.children|
    ensures DataAddr(f, k, base) + |BinData(f.children[k], DataAddr(f, k, base))| <= base + |BinData(f, base)|
  {
    hide Payload, Dirents, BinData, BinName, Entry;
    FolderData(f, base);
    PayloadGrows(f, k, base);
    EntryIs(f, k, base);
    PayloadInside(f, k + 1, |f.children|, base);
  }

  /** An image that ends within 32 bits of address space can be written. */
  lemma {:induction false} FittingPacks(node: Node, base: nat)
    requires base + |BinData(node, base)| < WORD
    ensures Packs(node, base) && EntrySize(node) < WORD
  {
    if node.Folder? {
      forall k | 0 <= k < |node.children|
        ensures Packable(DirentOf(node, k, base)) && Packs(node.children[k], DataAddr(node, k, base))
      {
        ChildFits(node, k, base);
        FittingPacks(node.children[k], DataAddr(node, k, base));
      }
    }
  }

  lemma BinNameReads(m: Memory, addr: nat, name: Bytes)
    requires ProperName(name) && Holds(m, addr, BinName(name))
    ensures ReadName(m, addr) == Some(name)
  {
    NameReads(m, addr, name, 4 - |name| % 4);
  }

  lemma FileReads(m: Memory, c: Node, addr: nat)
    requires c.File? && Holds(m, addr, BinData(c, addr))
    ensures ReadBytes(m, addr, |c.data|) == Some(c.data)
  {
  }

  lemma ReadFile(m: Memory, addr: nat, d: Dirent, name: Bytes, data: Bytes, depth: nat)
    requires ReadDirent(m, addr) == Some(d) && ReadName(m, d.name) == Some(name) && d.kind == 0
    requires ReadBytes(m, d.data, d.size) == Some(data)
    ensures ReadNode(m, addr, depth) == Some(File(name, data))
  {
    hide ReadDirent, ReadName, ReadBytes, ReadNodes;
  }

  lemma ReadFolder(m: Memory, addr: nat, d: Dirent, name: Bytes, children: seq<Node>, depth: nat)
    requires ReadDirent(m, addr) == Some(d) && ReadName(m, d.name) == Some(name) && d.kind == 1
    requires depth > 0 && ReadNodes(m, d.data, d.size, depth - 1) == Some(children)
    ensures ReadNode(m, addr, depth) == Some(Folder(name, children))
  {
    hide ReadDirent, ReadName, ReadBytes, ReadNodes;
  }

  lemma PacksChild(f: Node, k: nat, base: nat)
    requires f.Folder? && k < |f.children| && Packs(f, base)
    ensures Packable(DirentOf(f, k, base)) && Packs(f.children[k], DataAddr(f, k, base))
  {
    hide Packable, DirentOf, DataAddr;
  }

  lemma {:induction false} NodeReads(m: Memory, f: Node, k: nat, base: nat, depth: nat)
    requires f.Folder? && k < |f.children| && Packs(f, base) && Holds(m, base, BinData(f, base))
    requires Proper(f.children[k]) && Within(f.children[k], depth)
    ensures ReadNode(m, base + 16 * k, depth) == Some(f.children[k])
    decreases f, |f.children| + 1, 0
  {
    hide *;
    var c, d := f.children[k], DirentOf(f, k, base);
    AddressesOf(f, k, base);
    PacksChild(f, k, base);
    AddressesExact(m, f, k, base);
    DirentReads(m, base + 16 * k, d);
    ProperChildren(c, depth);
    BinNameReads(m, d.name, c.name);
    KindAndSize(c);
    if c.File? {
      FileReads(m, c, d.data);
      ReadFile(m, base + 16 * k, d, c.name, c.data, depth);
    } else {
      NodesRead(m, c, |c.children|, d.data, depth - 1);
      assert c.children[..|c.children|] == c.children;
      ReadFolder(m, base + 16 * k, d, c.name, c.children, depth);
    }
  }

  lemma KindAndSize(c: Node)
    ensures Kind(c) == (if c.File? then 0 else 1) && EntrySize(c) == if c.File? then |c.data| else |c.children|
  {
  }

  lemma ProperChildren(c: Node, depth: nat)
    requires Proper(c) && Within(c, depth)
    ensures ProperName(c.name)
    ensures c.Folder? ==> depth > 0 && forall i :: 0 <= i < |c.children| ==>
      Proper(c.children[i]) && Within(c.children[i], depth - 1)
  {
  }

  lemma {:induction false} NodesRead(m: Memory, f: Node, n: nat, base: nat, depth: nat)
    requires f.Folder? && n <= |f.children| && Packs(f, base) && Holds(m, base, BinData(f, base))
    requires forall k :: 0 <= k < |f.children| ==> Proper(f.children[k]) && Within(f.children[k], depth)
    ensures ReadNodes(m, base, n, depth) == Some(f.children[..n])
    decreases f, |f.children| + 1, n + 1
  {
    hide ReadNode, BinData, Packs, Proper, Within, Holds, Payload, Dirents;
    if n > 0 {
      NodesRead(m, f, n - 1, base, depth);
      NodeReads(m, f, n - 1, base, depth);
      assert f.children[..n] == f.children[..n - 1] + [f.children[n - 1]];
    }
  }

  lemma ImageHolds(tree: Node, base: nat)
    requires tree.Folder?
    ensures var m := Memory(base, Image(tree, base));
            && Holds(m, base, Pack(RootDirent(tree, base))) && Holds(m, base + DIRENT_SIZE, BinName([SLASH]))
            && Holds(m, base + DIRENT_SIZE + 4, BinData(tree, base + DIRENT_SIZE + 4))
  {
    assert |BinName([SLASH])| == 4;
    hide Pack, BinData, RootDirent, BinName;
    var m, root, name, data := Memory(base, Image(tree, base)), Pack(RootDirent(tree, base)), BinName([SLASH]),
      BinData(tree, base + 20);
    assert m.bytes == root + name + data;
    hide Image;
    assert m.bytes[0..16] == root && m.bytes[16..20] == name && m.bytes[20..20 + |data|] == data;
  }

  /** Round trip: reading the image from its base address gives back the tree, under the name "/" for its root. */
  lemma RoundTrip(tree: Node, base: nat, depth: nat)
    requires tree.Folder? && Proper(tree) && Within(tree, depth) && base + |Image(tree, base)| < WORD
    ensures Packable(RootDirent(tree, base)) && Packs(tree, base + DIRENT_SIZE + 4)
    ensures ReadNode(Memory(base, Image(tree, base)), base, depth) == Some(Folder([SLASH], tree.children))
  {
    var m, root := Memory(base, Image(tree, base)), RootDirent(tree, base);
    ImageHolds(tree, base);
    FittingPacks(tree, root.data);
    hide ReadDirent, ReadName, BinData, Packs, Image, BinName, Pack, ReadNodes, Holds;
    DirentReads(m, base, root);
    BinNameReads(m, root.name, [SLASH]);
    NodesRead(m, tree, |tree.children|, root.data, depth - 1);
    assert tree.children[..|tree.children|] == tree.children;
  }
}
