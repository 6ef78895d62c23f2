/** I-nodes, directories and paths of an ext2 volume. */
module Ext2Dirs {
  import opened Common
  import opened BlockIo
  import opened Ext2Files

  // ----- i-nodes -----

  function Field(b: seq<Byte>, at: nat, n: nat): nat
    requires at + n <= |b|
  {
    LittleEndian(b[at..at + n])
  }

  function ParseNode(b: seq<Byte>): (n: NodeData)
    requires |b| == NODE_BYTES
    ensures NodeOk(n)
  {
    FieldBounds(b);
    NodeData(Field(b, 0, 2), Field(b, 4, 4), Field(b, 28, 4), seq(12, i requires 0 <= i < 12 => Field(b, 40 + 4 * i, 4)), Field(b, 88, 4))
  }

  lemma FieldBounds(b: seq<Byte>)
    ensures forall at: nat {:trigger Field(b, at, 4)} | at + 4 <= |b| :: Field(b, at, 4) < WORD
    ensures forall at: nat {:trigger Field(b, at, 2)} | at + 2 <= |b| :: Field(b, at, 2) < 0x1_0000
  {
    Powers();
    forall at: nat | at + 4 <= |b| ensures Field(b, at, 4) < WORD { LittleEndianBound(b[at..at + 4]); }
    forall at: nat | at + 2 <= |b| ensures Field(b, at, 2) < 0x1_0000 { LittleEndianBound(b[at..at + 2]); }
  }

  /** Where the i-node of a number is on the disk; None where get_node panics. */
  function NodeOffset(v: Volume, number: nat): Option<nat>
    requires v.nodesPerGroup > 0
  {
    if number == 0 || number > v.nodes then None
    else
      var g := (number - 1) / v.nodesPerGroup;
      if g >= |v.tables| || v.tables[g] > v.blocks then None
      else Some((v.tables[g] * v.blockSize + (number - 1) % v.nodesPerGroup * v.nodeSize) % WORD)
  }

  function NodeAt(v: Volume, number: nat): (r: Option<NodeData>)
    requires VolumeOk(v)
    ensures r.Some? ==> NodeOk(r.value)
  {
    match NodeOffset(v, number)
    case None => None
    case Some(offset) =>
      match Fetch(v.disk, offset, NODE_BYTES)
      case None => None
      case Some(b) => Some(ParseNode(b))
  }

  /** Ext2::get_node. */
  method GetNode(v: Volume, number: nat) returns (r: Option<NodeData>)
    requires VolumeOk(v)
    ensures r == NodeAt(v, number)
  {
    if number == 0 { return None; }
    if number > v.nodes { return None; }
    var index := number - 1;
    var groupIndex := index / v.nodesPerGroup;
    if groupIndex >= |v.tables| { return None; }
    var indexInGroup := index % v.nodesPerGroup;
    var base := v.tables[groupIndex];
    if base > v.blocks { return None; }
    var b := ReadExactly(v.disk, (base * v.blockSize + indexInGroup * v.nodeSize) % WORD, NODE_BYTES);
    r := if b.None? then None else Some(ParseNode(b.value));
  }

  /** The bytes of an i-node, with arbitrary bytes in the fields the reader ignores. */
  function NodeBytes(n: NodeData, a: seq<Byte>, b: seq<Byte>, c: seq<Byte>, d: seq<Byte>): seq<Byte>
    requires NodeOk(n) && |a| == 2 && |b| == 20 && |c| == 8 && |d| == 36
  {
    Encode(n.mode, 2) + a + Encode(n.size, 4) + b + Encode(n.sectors, 4) + c + Words(n.direct) + Encode(n.indirect, 4) + d
  }

  /** An i-node is read back from its bytes, whatever the ignored fields hold. */
  lemma NodeIsReadBack(n: NodeData, a: seq<Byte>, b: seq<Byte>, c: seq<Byte>, d: seq<Byte>)
    requires NodeOk(n) && |a| == 2 && |b| == 20 && |c| == 8 && |d| == 36
    ensures |NodeBytes(n, a, b, c, d)| == NODE_BYTES && ParseNode(NodeBytes(n, a, b, c, d)) == n
  {
    var bytes := NodeBytes(n, a, b, c, d);
    Powers();
    NodeParts(n, a, b, c, d);
    FieldIsRead(bytes, 0, n.mode, 2);
    FieldIsRead(bytes, 4, n.size, 4);
    FieldIsRead(bytes, 28, n.sectors, 4);
    FieldIsRead(bytes, 88, n.indirect, 4);
    forall i: nat | i < 12 ensures Field(bytes, 40 + 4 * i, 4) == n.direct[i] {
      DirectIsRead(bytes, n, i);
    }
    assert ParseNode(bytes).direct == n.direct;
  }

  lemma NodeParts(n: NodeData, a: seq<Byte>, b: seq<Byte>, c: seq<Byte>, d: seq<Byte>)
    requires NodeOk(n) && |a| == 2 && |b| == 20 && |c| == 8 && |d| == 36
    ensures var bytes := NodeBytes(n, a, b, c, d);
      && |bytes| == NODE_BYTES && bytes[0..2] == Encode(n.mode, 2) && bytes[4..8] == Encode(n.size, 4)
      && bytes[28..32] == Encode(n.sectors, 4) && bytes[40..88] == Words(n.direct) && bytes[88..92] == Encode(n.indirect, 4)
  {
  }

  lemma FieldIsRead(bytes: seq<Byte>, at: nat, x: nat, n: nat)
    requires at + n <= |bytes| && bytes[at..at + n] == Encode(x, n) && x < Power(n)
    ensures Field(bytes, at, n) == x
  {
    EncodeDecode(x, n);
  }

  lemma SliceOfSlice(s: seq<Byte>, lo: nat, hi: nat, i: nat, j: nat)
    requires lo <= hi <= |s| && i <= j <= hi - lo
    ensures s[lo..hi][i..j] == s[lo + i..lo + j]
  {
    var a, b := s[lo..hi][i..j], s[lo + i..lo + j];
    assert |a| == |b|;
    forall k: nat | k < |a| ensures a[k] == b[k] {
      assert a[k] == s[lo..hi][i + k] == s[lo + (i + k)];
      assert b[k] == s[(lo + i) + k];
    }
  }

  lemma DirectIsRead(bytes: seq<Byte>, n: NodeData, i: nat)
    requires NodeOk(n) && i < 12 && |bytes| == NODE_BYTES && bytes[40..88] == Words(n.direct)
    ensures Field(bytes, 40 + 4 * i, 4) == n.direct[i]
  {
    Powers();
    WordsAt(n.direct, i);
    SliceOfSlice(bytes, 40, 88, 4 * i, 4 * i + 4);
    EncodeDecode(n.direct[i], 4);
  }

  /** get_node finds the node whose bytes lie where its number points. */
  lemma NodeIsFound(v: Volume, number: nat, n: NodeData, a: seq<Byte>, b: seq<Byte>, c: seq<Byte>, d: seq<Byte>)
    requires VolumeOk(v) && NodeOk(n) && |a| == 2 && |b| == 20 && |c| == 8 && |d| == 36
    requires NodeOffset(v, number).Some? && NodeOffset(v, number).value + NODE_BYTES <= v.disk.size
    requires Holds(v.disk, NodeOffset(v, number).value, NodeBytes(n, a, b, c, d))
    ensures NodeAt(v, number) == Some(n)
  {
    NodeIsReadBack(n, a, b, c, d);
    FetchIs(v.disk, NodeOffset(v, number).value, NodeBytes(n, a, b, c, d));
  }

  /** Where the i-node table of a group starts. */
  function TableStart(v: Volume, g: nat): nat
    requires g < |v.tables|
  {
    v.tables[g] * v.blockSize
  }

  ghost predicate TablesApart(v: Volume, g: nat, h: nat)
    requires g < |v.tables| && h < |v.tables|
  {
    var size := v.nodesPerGroup * v.nodeSize;
    TableStart(v, g) + size <= TableStart(v, h) || TableStart(v, h) + size <= TableStart(v, g)
  }

  /** The tables of the groups do not overlap and end below 2^32, and a node has at least the 128
      bytes that are read. */
  ghost predicate WellLaid(v: Volume)
  {
    && v.nodeSize >= NODE_BYTES && v.nodesPerGroup > 0
    && (forall g: nat {:trigger TableStart(v, g)} | g < |v.tables| :: TableStart(v, g) + v.nodesPerGroup * v.nodeSize < WORD)
    && forall g: nat, h: nat {:trigger TablesApart(v, g, h)} | g < |v.tables| && h < |v.tables| && g != h :: TablesApart(v, g, h)
  }

  /** The nodes of different numbers share no byte. */
  lemma NodesApart(v: Volume, x: nat, y: nat)
    requires WellLaid(v) && x != y && NodeOffset(v, x).Some? && NodeOffset(v, y).Some?
    ensures var i, j := NodeOffset(v, x).value, NodeOffset(v, y).value; i + NODE_BYTES <= j || j + NODE_BYTES <= i
  {
    var g, i := InTable(v, x);
    var h, j := InTable(v, y);
    PlacesApart(v, g, i, h, j);
  }

  lemma PlacesApart(v: Volume, g: nat, i: nat, h: nat, j: nat)
    requires WellLaid(v) && g < |v.tables| && h < |v.tables| && (g, i) != (h, j)
    requires i * v.nodeSize + v.nodeSize <= v.nodesPerGroup * v.nodeSize
    requires j * v.nodeSize + v.nodeSize <= v.nodesPerGroup * v.nodeSize
    ensures var a, b := TableStart(v, g) + i * v.nodeSize, TableStart(v, h) + j * v.nodeSize;
      a + NODE_BYTES <= b || b + NODE_BYTES <= a
  {
    if g == h {
      Spaced(i, j, v.nodeSize);
      Spaced(j, i, v.nodeSize);
    } else {
      assert TablesApart(v, g, h);
    }
  }

  /** The group of a number, its place in the table, and that the node lies inside the table. */
  lemma InTable(v: Volume, x: nat) returns (g: nat, i: nat)
    requires WellLaid(v) && NodeOffset(v, x).Some?
    ensures g < |v.tables| && i < v.nodesPerGroup && x - 1 == v.nodesPerGroup * g + i
    ensures NodeOffset(v, x).value == TableStart(v, g) + i * v.nodeSize
    ensures i * v.nodeSize + v.nodeSize <= v.nodesPerGroup * v.nodeSize
  {
    g, i := (x - 1) / v.nodesPerGroup, (x - 1) % v.nodesPerGroup;
    Spaced(i, v.nodesPerGroup, v.nodeSize);
    assert TableStart(v, g) + v.nodesPerGroup * v.nodeSize < WORD;
    var at := TableStart(v, g) + i * v.nodeSize;
    assert at % WORD == at;
  }

  lemma Spaced(i: nat, j: nat, size: nat)
    ensures i < j ==> i * size + size <= j * size
  {
    if i < j {
      var d: nat := j - i - 1;
      assert j * size == i * size + size + d * size;
    }
  }

  // ----- directories -----

  datatype Entry = Entry(inode: nat, name: seq<Byte>)

  /** What a walk comes to: the entries handed to its callback, a failed ASSERT, or a record of
      length 0, on which the walk never ends. */
  datatype Walked = Done(entries: seq<Entry>) | Panic | Endless

  predicate IsDir(n: NodeData): (r: bool)
    ensures r <==> 0x4000 <= n.mode < 0x5000
  {
    n.mode / 4096 == 4
  }

  /** One directory record and its length. */
  function Record(s: Source, offset: nat): Option<(Entry, nat)>
    requires SourceOk(s)
  {
    var inode, length, n := Fetch(s, offset, 4), Fetch(s, offset + 4, 2), Fetch(s, offset + 6, 1);
    if inode.None? || length.None? || n.None? then None
    else
      var name := Fetch(s, offset + 8, LittleEndian(n.value));
      if name.None? then None
      else Some((Entry(LittleEndian(inode.value), name.value), LittleEndian(length.value)))
  }

  function Walk(s: Source, offset: nat): Walked
    requires SourceOk(s)
    decreases s.size - offset
  {
    if offset >= s.size then Done([])
    else
      match Record(s, offset)
      case None => Panic
      case Some((entry, length)) =>
        if length == 0 then Endless
        else
          match Walk(s, offset + length)
          case Done(rest) => Done([entry] + rest)
          case w => w
  }

  lemma ByteBound(b: seq<Byte>)
    ensures |b| == 1 ==> LittleEndian(b) < 256
    ensures |b| == 2 ==> LittleEndian(b) < 0x1_0000
  {
    Powers();
    LittleEndianBound(b);
  }

  /** What the walk sees from `offset` on, after the entries met so far. */
  function Prefixed(seen: seq<Entry>, w: Walked): Walked
  {
    if w.Done? then Done(seen + w.entries) else w
  }

  /** The four reads of one turn of the walk. */
  method ReadRecord(s: Source, offset: nat) returns (r: Option<(Entry, nat)>)
    requires SourceOk(s) && offset < s.size && s.size + 0x1_0000 <= WORD
    ensures r == Record(s, offset)
    ensures r.Some? ==> r.value.1 < 0x1_0000
  {
    var inode := ReadExactly(s, offset, 4);
    if inode.None? { return None; }
    var length := ReadExactly(s, offset + 4, 2);
    if length.None? { return None; }
    var n := ReadExactly(s, offset + 6, 1);
    if n.None? { return None; }
    FetchLengths(s, offset);
    ByteBound(n.value);
    ByteBound(length.value);
    var name := ReadExactly(s, offset + 8, LittleEndian(n.value));
    if name.None? { return None; }
    r := Some((Entry(LittleEndian(inode.value), name.value), LittleEndian(length.value)));
  }

  /** Node::entries: the calls made to its callback, in order.  The offsets of the fields of a
      record must not pass 2^32. */
  method Entries(s: Source) returns (w: Walked)
    requires SourceOk(s) && s.size + 0x1_0000 <= WORD
    ensures w == Walk(s, 0)
  {
    var offset := 0;
    var seen := [];
    assert Prefixed([], Walk(s, 0)) == Walk(s, 0);
    while offset < s.size
      invariant 0 <= offset < WORD
      invariant Prefixed(seen, Walk(s, offset)) == Walk(s, 0)
      decreases s.size - offset
    {
      var record := ReadRecord(s, offset);
      if record.None? { return Panic; }
      var (entry, length) := record.value;
      if length == 0 { return Endless; }
      WalkOn(s, offset, seen);
      seen := seen + [entry];
      offset := offset + length;
    }
    return Done(seen);
  }

  lemma FetchLengths(s: Source, offset: nat)
    requires SourceOk(s)
    ensures Fetch(s, offset + 4, 2).Some? ==> |Fetch(s, offset + 4, 2).value| == 2
    ensures Fetch(s, offset + 6, 1).Some? ==> |Fetch(s, offset + 6, 1).value| == 1
  {
  }

  lemma WalkOn(s: Source, offset: nat, seen: seq<Entry>)
    requires SourceOk(s) && offset < s.size && Record(s, offset).Some? && Record(s, offset).value.1 > 0
    ensures Prefixed(seen, Walk(s, offset)) == Prefixed(seen + [Record(s, offset).value.0], Walk(s, offset + Record(s, offset).value.1))
  {
    var entry, length := Record(s, offset).value.0, Record(s, offset).value.1;
    var w := Walk(s, offset + length);
    if w.Done? {
      assert seen + ([entry] + w.entries) == seen + [entry] + w.entries;
    }
  }

  // ----- directories as they are laid out -----

  /** A record as it is written: `pad` fills it up to its length. */
  datatype Rec = Rec(inode: nat, kind: Byte, name: seq<Byte>, pad: seq<Byte>)

  predicate RecOk(r: Rec)
  {
    r.inode < WORD && |r.name| < 256 && 8 + |r.name| + |r.pad| < 0x1_0000
  }

  function RecBytes(r: Rec): (b: seq<Byte>)
    requires RecOk(r)
    ensures |b| == 8 + |r.name| + |r.pad|
  {
    Encode(r.inode, 4) + Encode(8 + |r.name| + |r.pad|, 2) + Encode(|r.name|, 1) + [r.kind] + r.name + r.pad
  }

  function Layout(rs: seq<Rec>): seq<Byte>
    requires forall i | 0 <= i < |rs| :: RecOk(rs[i])
  {
    if rs == [] then [] else RecBytes(rs[0]) + Layout(rs[1..])
  }

  function EntriesOf(rs: seq<Rec>): seq<Entry>
  {
    if rs == [] then [] else [Entry(rs[0].inode, rs[0].name)] + EntriesOf(rs[1..])
  }

  lemma RecordIsRead(s: Source, offset: nat, r: Rec)
    requires SourceOk(s) && RecOk(r) && Holds(s, offset, RecBytes(r)) && offset + |RecBytes(r)| <= s.size
    ensures Record(s, offset) == Some((Entry(r.inode, r.name), |RecBytes(r)|))
  {
    var b := RecBytes(r);
    Powers();
    FetchPart(s, offset, b, 0, 4);
    FetchPart(s, offset, b, 4, 6);
    FetchPart(s, offset, b, 6, 7);
    FetchPart(s, offset, b, 8, 8 + |r.name|);
    assert b[0..4] == Encode(r.inode, 4) && b[4..6] == Encode(|b|, 2);
    assert b[6..7] == Encode(|r.name|, 1) && b[8..8 + |r.name|] == r.name;
    EncodeDecode(r.inode, 4);
    EncodeDecode(|b|, 2);
    EncodeDecode(|r.name|, 1);
  }

  /** A directory laid out as records is walked record by record, each once, to its end. */
  lemma {:induction false} WalkMeetsEveryRecord(s: Source, offset: nat, rs: seq<Rec>)
    requires SourceOk(s) && forall i | 0 <= i < |rs| :: RecOk(rs[i])
    requires Holds(s, offset, Layout(rs)) && offset + |Layout(rs)| == s.size
    ensures Walk(s, offset) == Done(EntriesOf(rs))
    decreases |rs|
  {
    if rs != [] {
      var b := RecBytes(rs[0]);
      FirstAndRest(s, offset, b, Layout(rs[1..]));
      WalkMeetsEveryRecord(s, offset + |b|, rs[1..]);
      WalkFirst(s, offset, rs[0], EntriesOf(rs[1..]));
    } else {
      assert Walk(s, offset) == Done([]);
    }
  }

  lemma WalkFirst(s: Source, offset: nat, r: Rec, rest: seq<Entry>)
    requires SourceOk(s) && RecOk(r) && Holds(s, offset, RecBytes(r)) && offset + |RecBytes(r)| <= s.size
    requires Walk(s, offset + |RecBytes(r)|) == Done(rest)
    ensures Walk(s, offset) == Done([Entry(r.inode, r.name)] + rest)
  {
    RecordIsRead(s, offset, r);
    WalkOne(s, offset, Entry(r.inode, r.name), |RecBytes(r)|, rest);
  }

  lemma WalkOne(s: Source, offset: nat, entry: Entry, length: nat, rest: seq<Entry>)
    requires SourceOk(s) && offset < s.size && length > 0
    requires Record(s, offset) == Some((entry, length)) && Walk(s, offset + length) == Done(rest)
    ensures Walk(s, offset) == Done([entry] + rest)
  {
  }

  lemma FirstAndRest(s: Source, offset: nat, a: seq<Byte>, b: seq<Byte>)
    requires SourceOk(s) && Holds(s, offset, a + b)
    ensures Holds(s, offset, a) && Holds(s, offset + |a|, b)
  {
    HoldsPart(s, offset, a + b, 0, |a|);
    HoldsPart(s, offset, a + b, |a|, |a + b|);
    assert (a + b)[0..|a|] == a && (a + b)[|a|..|a + b|] == b;
  }

  // ----- names -----

  /** A C string: the bytes before the first 0. */
  function CString(a: seq<Byte>): seq<Byte>
  {
    if a == [] || a[0] == 0 then [] else [a[0]] + CString(a[1..])
  }

  lemma {:induction false} CStringFrom(a: seq<Byte>, i: nat)
    requires i <= |a| && 0 !in a[..i]
    ensures CString(a) == a[..i] + CString(a[i..])
  {
    if i > 0 {
      assert a[..i][0] == a[0];
      assert a[1..][..i - 1] == a[..i][1..];
      assert a[1..][i - 1..] == a[i..];
      CStringFrom(a[1..], i - 1);
    } else {
      assert a[0..] == a;
    }
  }

  lemma FirstDiffers(a: seq<Byte>, b: seq<Byte>)
    requires a != [] && b != [] && a[0] != b[0]
    ensures CString(a) != CString(b)
  {
    assert a[0] != 0 ==> CString(a)[0] == a[0];
    assert b[0] != 0 ==> CString(b)[0] == b[0];
  }

  /** K::streq. */
  method StrEq(a: seq<Byte>, b: seq<Byte>) returns (r: bool)
    requires 0 in a && 0 in b
    ensures r <==> CString(a) == CString(b)
  {
    var i := 0;
    while true
      invariant i < |a| && i < |b| && a[..i] == b[..i] && 0 !in a[..i]
      invariant 0 in a[i..] && 0 in b[i..]
      decreases |a| - i
    {
      var x, y := a[i], b[i];
      if x != y {
        DifferAt(a, b, i);
        return false;
      }
      if x == 0 {
        CStringFrom(a, i);
        CStringFrom(b, i);
        return true;
      }
      assert a[..i + 1] == a[..i] + [x] && b[..i + 1] == b[..i] + [x];
      assert a[i..] == [x] + a[i + 1..] && b[i..] == [x] + b[i + 1..];
      i := i + 1;
    }
  }

  lemma DifferAt(a: seq<Byte>, b: seq<Byte>, i: nat)
    requires i < |a| && i < |b| && a[..i] == b[..i] && 0 !in a[..i] && a[i] != b[i]
    ensures CString(a) != CString(b)
  {
    CStringFrom(a, i);
    CStringFrom(b, i);
    FirstDiffers(a[i..], b[i..]);
    assert CString(a)[i..] == CString(a[i..]) && CString(b)[i..] == CString(b[i..]);
  }

  /** The number of the last entry with that name, or 0. */
  function LastNamed(es: seq<Entry>, name: seq<Byte>): nat
  {
    if es == [] then 0
    else
      var last := es[|es| - 1];
      if CString(last.name) == name then last.inode else LastNamed(es[..|es| - 1], name)
  }

  predicate Named(es: seq<Entry>, name: seq<Byte>, i: nat)
    requires i < |es|
  {
    CString(es[i].name) == name
  }

  /** find keeps overwriting its answer, so the last entry of the name wins. */
  lemma {:induction false} LastNamedIsLast(es: seq<Entry>, name: seq<Byte>, i: nat)
    requires i < |es| && Named(es, name, i) && forall j: nat | i < j < |es| :: !Named(es, name, j)
    ensures LastNamed(es, name) == es[i].inode
  {
    var m := |es| - 1;
    if i < m {
      assert !Named(es, name, m);
      forall j: nat | i < j < m ensures !Named(es[..m], name, j) { assert !Named(es, name, j); }
      LastNamedIsLast(es[..m], name, i);
    }
  }

  lemma {:induction false} NotNamed(es: seq<Entry>, name: seq<Byte>)
    requires forall j: nat | j < |es| :: !Named(es, name, j)
    ensures LastNamed(es, name) == 0
  {
    if es != [] {
      var m := |es| - 1;
      assert !Named(es, name, m);
      forall j: nat | j < m ensures !Named(es[..m], name, j) { assert !Named(es, name, j); }
      NotNamed(es[..m], name);
    }
  }

  datatype Lookup = Number(number: nat) | Fails | Forever

  function Find(v: Volume, n: NodeData, name: seq<Byte>): Lookup
    requires VolumeOk(v) && NodeOk(n)
  {
    FileOk(v, n);
    if !IsDir(n) then Fails
    else
      match Walk(File(v, n), 0)
      case Done(es) => Number(LastNamed(es, name))
      case Panic => Fails
      case Endless => Forever
  }

  /** Node::find. */
  method NodeFind(v: Volume, n: NodeData, name: seq<Byte>) returns (r: Lookup)
    requires VolumeOk(v) && NodeOk(n) && 0 in name
    requires IsDir(n) ==> n.size + 0x1_0000 <= WORD
    ensures r == Find(v, n, CString(name))
  {
    if !IsDir(n) { return Fails; }
    FileOk(v, n);
    var w := Entries(File(v, n));
    if w.Panic? { return Fails; }
    if w.Endless? { return Forever; }
    var out, i := 0, 0;
    while i < |w.entries|
      invariant i <= |w.entries| && out == LastNamed(w.entries[..i], CString(name))
    {
      var nm := w.entries[i].name + [0];
      Terminated(w.entries[i].name);
      var same := StrEq(name, nm);
      assert w.entries[..i + 1][..i] == w.entries[..i];
      if same { out := w.entries[i].inode; }
      i := i + 1;
    }
    assert w.entries[..i] == w.entries;
    return Number(out);
  }

  lemma {:induction false} Terminated(name: seq<Byte>)
    ensures 0 in name + [0] && CString(name + [0]) == CString(name)
  {
    assert (name + [0])[|name|] == 0;
    if name != [] {
      assert (name + [0])[1..] == name[1..] + [0];
      Terminated(name[1..]);
    }
  }

  /** Node::entry_count; None where it panics or never returns. */
  method EntryCount(v: Volume, n: NodeData) returns (r: Option<nat>)
    requires VolumeOk(v) && NodeOk(n) && (IsDir(n) ==> n.size + 0x1_0000 <= WORD)
    ensures SourceOk(File(v, n))
    ensures r.Some? <==> IsDir(n) && Walk(File(v, n), 0).Done?
    ensures r.Some? ==> r.value == |Walk(File(v, n), 0).entries|
  {
    FileOk(v, n);
    if !IsDir(n) { return None; }
    var w := Entries(File(v, n));
    if !w.Done? { return None; }
    var count, i := 0, 0;
    while i < |w.entries|
      invariant i <= |w.entries| && count == i
    {
      count := count + 1;
      i := i + 1;
    }
    return Some(count);
  }
}
