/** Files of an ext2 volume: the i-nodes, the block map, and reads of file blocks through reads
    of the disk. */
module Ext2Files {
  import opened Common
  import opened BlockIo

  const SECTOR: nat := 512
  const NODE_BYTES: nat := 128

  /** The fields of an i-node that the reader uses. */
  datatype NodeData = NodeData(mode: nat, size: nat, sectors: nat, direct: seq<nat>, indirect: nat)

  /** A mounted volume: its disk and what the superblock and the group table said. */
  datatype Volume = Volume(
    disk: Source, blockSize: nat, nodes: nat, blocks: nat, nodeSize: nat, nodesPerGroup: nat, tables: seq<nat>)

  /** The disk driver claims 2^32 - 1 bytes and its block reads never fail. */
  ghost predicate DiskOk(d: Source)
  {
    SourceOk(d) && d.blockSize == SECTOR && d.size == WORD - 1 && forall i: nat {:trigger d.block(i)} :: d.block(i).Some?
  }

  ghost predicate VolumeOk(v: Volume)
  {
    && DiskOk(v.disk) && 1024 <= v.blockSize < WORD
    && v.nodes < WORD && v.nodeSize < WORD && 0 < v.nodesPerGroup && |v.tables| < WORD
  }

  predicate NodeOk(n: NodeData)
  {
    && n.mode < 0x1_0000 && n.size < WORD && n.sectors < WORD && n.indirect < WORD
    && |n.direct| == 12 && forall i | 0 <= i < 12 :: n.direct[i] < WORD
  }

  // ----- exact reads -----

  predicate AllThere(s: Source, offset: nat, n: nat)
    requires SourceOk(s)
  {
    forall i: nat | offset <= i < offset + n :: HasByte(s, i)
  }

  function Slice(s: Source, offset: nat, n: nat): (r: seq<Byte>)
    requires SourceOk(s) && AllThere(s, offset, n)
    ensures |r| == n && Holds(s, offset, r)
  {
    if n == 0 then []
    else
      var r := Slice(s, offset, n - 1);
      var last := ByteAt(s, offset + n - 1);
      OneMore(s, offset, r, last);
      r + [last]
  }

  lemma OneMore(s: Source, offset: nat, r: seq<Byte>, b: Byte)
    requires SourceOk(s) && Holds(s, offset, r) && HasByte(s, offset + |r|) && ByteAt(s, offset + |r|) == b
    ensures Holds(s, offset, r + [b])
  {
    assert Agrees(s, offset + |r|, [b], offset + |r|);
    HoldsThen(s, offset, r, [b]);
  }

  /** The n bytes from `offset` on, if all of them are there. */
  function Fetch(s: Source, offset: nat, n: nat): Option<seq<Byte>>
    requires SourceOk(s)
  {
    if n == 0 then Some([])
    else if offset + n > s.size then None
    else if AllThere(s, offset, n) then Some(Slice(s, offset, n))
    else None
  }

  /** Bytes that a source holds are what Fetch gives. */
  lemma FetchIs(s: Source, offset: nat, bytes: seq<Byte>)
    requires SourceOk(s) && Holds(s, offset, bytes) && (bytes == [] || offset + |bytes| <= s.size)
    ensures Fetch(s, offset, |bytes|) == Some(bytes)
  {
    forall i: nat | offset <= i < offset + |bytes| ensures HasByte(s, i) { assert Agrees(s, offset, bytes, i); }
    SameBytes(s, offset, bytes, Slice(s, offset, |bytes|));
  }

  lemma SameBytes(s: Source, offset: nat, a: seq<Byte>, b: seq<Byte>)
    requires SourceOk(s) && Holds(s, offset, a) && Holds(s, offset, b) && |a| == |b|
    ensures a == b
  {
    forall k: nat | k < |a| ensures a[k] == b[k] {
      assert Agrees(s, offset, a, offset + k) && Agrees(s, offset, b, offset + k);
    }
  }

  /** read_all followed by the check that everything arrived. */
  method ReadExactly(s: Source, offset: nat, n: nat) returns (r: Option<seq<Byte>>)
    requires SourceOk(s) && offset < WORD && n < WORD
    ensures r == Fetch(s, offset, n)
  {
    var buffer := new Byte[n];
    var cnt := ReadAll(s, offset, n, buffer, 0);
    if cnt.None? || cnt.value != n { return None; }
    assert n > 0 ==> buffer[0..0 + n] == buffer[..];
    FetchIs(s, offset, buffer[..]);
    r := Some(buffer[..]);
  }

  function LittleEndian(b: seq<Byte>): nat
  {
    if b == [] then 0 else b[0] + 256 * LittleEndian(b[1..])
  }

  function Encode(x: nat, n: nat): (b: seq<Byte>)
    ensures |b| == n
  {
    if n == 0 then [] else [x % 256] + Encode(x / 256, n - 1)
  }

  function Power(n: nat): nat
  {
    if n == 0 then 1 else 256 * Power(n - 1)
  }

  /** A number of n bytes is read back from its bytes. */
  lemma {:induction false} EncodeDecode(x: nat, n: nat)
    requires x < Power(n)
    ensures LittleEndian(Encode(x, n)) == x
  {
    if n > 0 {
      assert Encode(x, n)[1..] == Encode(x / 256, n - 1);
      EncodeDecode(x / 256, n - 1);
    }
  }

  lemma {:induction false} LittleEndianBound(b: seq<Byte>)
    ensures LittleEndian(b) < Power(|b|)
  {
    if b != [] { LittleEndianBound(b[1..]); }
  }

  lemma Powers()
    ensures Power(1) == 256 && Power(2) == 0x1_0000 && Power(4) == WORD
  {
    assert Power(0) == 1 && Power(1) == 256 && Power(2) == 0x1_0000 && Power(3) == 0x100_0000;
  }

  // ----- numbers and parts of what a source holds -----

  function Words(w: seq<nat>): (b: seq<Byte>)
    ensures |b| == 4 * |w|
  {
    if w == [] then [] else Encode(w[0], 4) + Words(w[1..])
  }

  lemma {:induction false} WordsAt(w: seq<nat>, i: nat)
    requires i < |w|
    ensures Words(w)[4 * i..4 * i + 4] == Encode(w[i], 4)
  {
    if i > 0 {
      WordsAt(w[1..], i - 1);
      assert Words(w)[4 * i..4 * i + 4] == Words(w[1..])[4 * (i - 1)..4 * (i - 1) + 4];
    }
  }

  lemma HoldsPart(s: Source, offset: nat, bytes: seq<Byte>, i: nat, j: nat)
    requires SourceOk(s) && Holds(s, offset, bytes) && i <= j <= |bytes|
    ensures Holds(s, offset + i, bytes[i..j])
  {
    var part, at := bytes[i..j], offset + i;
    forall k: nat | at <= k < at + |part| ensures Agrees(s, at, part, k) {
      assert Agrees(s, offset, bytes, k);
    }
  }

  /** The bytes i..j of something held at `offset` are what Fetch gives there. */
  lemma FetchPart(s: Source, offset: nat, bytes: seq<Byte>, i: nat, j: nat)
    requires SourceOk(s) && Holds(s, offset, bytes) && i <= j <= |bytes| && offset + |bytes| <= s.size
    ensures Fetch(s, offset + i, j - i) == Some(bytes[i..j])
  {
    HoldsPart(s, offset, bytes, i, j);
    FetchIs(s, offset + i, bytes[i..j]);
  }

  /** The four bytes of a number in a table. */
  lemma TableWord(w: seq<nat>, i: nat) returns (word: seq<Byte>)
    requires i < |w| && w[i] < WORD
    ensures |word| == 4 && Words(w)[4 * i..4 * i + 4] == word && LittleEndian(word) == w[i]
  {
    WordsAt(w, i);
    Powers();
    EncodeDecode(w[i], 4);
    word := Encode(w[i], 4);
  }

  /** A part of what is held at `offset` is what is read at its place. */
  lemma PartIsRead(s: Source, offset: nat, bytes: seq<Byte>, from: nat, part: seq<Byte>, at: nat)
    requires SourceOk(s) && Holds(s, offset, bytes) && offset + |bytes| <= s.size
    requires from + |part| <= |bytes| && bytes[from..from + |part|] == part && at == offset + from
    ensures Fetch(s, at, |part|) == Some(part)
  {
    FetchPart(s, offset, bytes, from, from + |part|);
  }

  /** Number `i` of a table is what the four bytes at its place say. */
  lemma EntryIsRead(s: Source, base: nat, table: seq<nat>, i: nat, at: nat) returns (word: seq<Byte>)
    requires SourceOk(s) && Holds(s, base, Words(table)) && base + 4 * |table| <= s.size
    requires i < |table| && table[i] < WORD && at == base + 4 * i
    ensures |word| == 4 && Fetch(s, at, |word|) == Some(word) && LittleEndian(word) == table[i]
  {
    word := TableWord(table, i);
    PartIsRead(s, base, Words(table), 4 * i, word, at);
  }

  // ----- file blocks -----

  /** Where the entry of block `index` is in the indirect block. */
  function EntryOffset(v: Volume, n: NodeData, index: nat): nat
    requires index >= 12
  {
    n.indirect * v.blockSize + (index - 12) * 4
  }

  /** Where block `index` of a file is on the disk, in file-system blocks. */
  function BlockNumber(v: Volume, n: NodeData, index: nat): Option<nat>
    requires DiskOk(v.disk) && NodeOk(n) && v.blockSize >= 1024
  {
    if index >= n.sectors / (v.blockSize / 512) then None
    else if index < 12 then Some(n.direct[index])
    else if index < 12 + v.blockSize / 4 then
      (match Fetch(v.disk, EntryOffset(v, n, index) % WORD, 4)
       case Some(b) => Some(LittleEndian(b))
       case None => None)
    else None
  }

  function NodeBlock(v: Volume, n: NodeData, index: nat): Option<seq<Byte>>
    requires DiskOk(v.disk) && NodeOk(n) && v.blockSize >= 1024
  {
    match BlockNumber(v, n, index)
    case Some(b) => Fetch(v.disk, b * v.blockSize % WORD, v.blockSize)
    case None => None
  }

  /** Node::read_block; None where it panics. */
  method ReadBlock(v: Volume, n: NodeData, index: nat) returns (r: Option<seq<Byte>>)
    requires VolumeOk(v) && NodeOk(n)
    ensures r == NodeBlock(v, n, index)
  {
    if index >= n.sectors / (v.blockSize / 512) { return None; }
    var refsPerBlock := v.blockSize / 4;
    var blockIndex;
    if index < 12 {
      blockIndex := n.direct[index];
    } else if index < 12 + refsPerBlock {
      var b := ReadExactly(v.disk, EntryOffset(v, n, index) % WORD, 4);
      if b.None? { return None; }
      blockIndex := LittleEndian(b.value);
    } else {
      return None;
    }
    r := ReadExactly(v.disk, blockIndex * v.blockSize % WORD, v.blockSize);
  }

  /** The file as something made of blocks: its block reads are Node::read_block. */
  function File(v: Volume, n: NodeData): Source
    requires DiskOk(v.disk) && NodeOk(n) && v.blockSize >= 1024
  {
    Source(v.blockSize, n.size, (index: nat) => NodeBlock(v, n, index))
  }

  lemma FileOk(v: Volume, n: NodeData)
    requires VolumeOk(v) && NodeOk(n)
    ensures SourceOk(File(v, n))
  {
    forall i: nat ensures NodeBlock(v, n, i).Some? ==> |NodeBlock(v, n, i).value| == v.blockSize {
    }
  }

  /** File-system block b ends before the end of the disk. */
  predicate OnDisk(v: Volume, b: nat)
  {
    (b + 1) * v.blockSize < WORD
  }

  /** Block `index` is a direct or singly indirect one, of a file block that is on the disk. */
  ghost predicate Mapped(v: Volume, n: NodeData, index: nat)
    requires VolumeOk(v) && NodeOk(n)
  {
    && index < n.sectors / (v.blockSize / 512) && index < 12 + v.blockSize / 4
    && (BlockNumber(v, n, index).Some? ==> OnDisk(v, BlockNumber(v, n, index).value))
  }

  /** The file is within the direct and singly indirect blocks, and they are on the disk. */
  ghost predicate WellMapped(v: Volume, n: NodeData)
    requires VolumeOk(v) && NodeOk(n)
  {
    && OnDisk(v, n.indirect)
    && forall index: nat {:trigger Mapped(v, n, index)} | v.blockSize * index < n.size :: Mapped(v, n, index)
  }

  /** The entry of an indirect block lies in that block. */
  lemma EntryInBlock(v: Volume, n: NodeData, index: nat)
    requires VolumeOk(v) && NodeOk(n) && 12 <= index < 12 + v.blockSize / 4 && OnDisk(v, n.indirect)
    ensures var at := EntryOffset(v, n, index);
      at + 4 < WORD && at % WORD == at && AllThere(v.disk, at, 4)
  {
    var e := index - 12;
    assert e * 4 + 4 <= v.blockSize;
    assert (n.indirect + 1) * v.blockSize == n.indirect * v.blockSize + v.blockSize;
  }

  /** The number of block `index`, for a file on the disk: a direct entry, or the entry of the
      indirect block. */
  lemma BlockIsMapped(v: Volume, n: NodeData, index: nat)
    requires VolumeOk(v) && NodeOk(n) && WellMapped(v, n) && v.blockSize * index < n.size
    ensures BlockNumber(v, n, index).Some?
    ensures index < 12 ==> BlockNumber(v, n, index).value == n.direct[index]
    ensures index >= 12 ==>
              var at := EntryOffset(v, n, index);
              AllThere(v.disk, at, 4) && BlockNumber(v, n, index).value == LittleEndian(Slice(v.disk, at, 4))
    ensures OnDisk(v, BlockNumber(v, n, index).value)
  {
    assert Mapped(v, n, index);
    if index >= 12 { EntryInBlock(v, n, index); }
  }

  /** The indirect block of the file holds the numbers of `table`. */
  ghost predicate HasTable(v: Volume, n: NodeData, table: seq<nat>)
    requires VolumeOk(v) && NodeOk(n)
  {
    && |table| == v.blockSize / 4 && (forall i | 0 <= i < |table| :: table[i] < WORD)
    && OnDisk(v, n.indirect) && Holds(v.disk, n.indirect * v.blockSize, Words(table))
  }

  /** The block map, read off the i-node and the table: twelve direct numbers, then those of the
      table; every other block panics. */
  lemma BlockMapIs(v: Volume, n: NodeData, table: seq<nat>, index: nat)
    requires VolumeOk(v) && NodeOk(n) && HasTable(v, n, table)
    ensures BlockNumber(v, n, index).Some? <==> index < n.sectors / (v.blockSize / 512) && index < 12 + |table|
    ensures BlockNumber(v, n, index).Some? && index < 12 ==> BlockNumber(v, n, index).value == n.direct[index]
    ensures BlockNumber(v, n, index).Some? && index >= 12 ==> BlockNumber(v, n, index).value == table[index - 12]
  {
    if 12 <= index < 12 + |table| {
      EntryInBlock(v, n, index);
      TableInBlock(v, n.indirect);
      var word := EntryIsRead(v.disk, n.indirect * v.blockSize, table, index - 12, EntryOffset(v, n, index));
    }
  }

  lemma TableInBlock(v: Volume, b: nat)
    requires VolumeOk(v) && OnDisk(v, b)
    ensures b * v.blockSize + 4 * (v.blockSize / 4) <= v.disk.size
  {
    assert (b + 1) * v.blockSize == b * v.blockSize + v.blockSize;
  }

  /** A byte of a file is the byte of the disk that the block map names: two layers of reads
      make one. */
  lemma FileByte(v: Volume, n: NodeData, index: nat, d: nat, i: nat)
    requires VolumeOk(v) && NodeOk(n) && WellMapped(v, n)
    requires d < v.blockSize && i == v.blockSize * index + d && i < n.size
    ensures SourceOk(File(v, n)) && HasByte(File(v, n), i)
    ensures BlockNumber(v, n, index).Some?
    ensures ByteAt(File(v, n), i) == DiskByte(v, BlockNumber(v, n, index).value, d)
  {
    FileOk(v, n);
    BlockIsMapped(v, n, index);
    MappedBlock(v, n, index, d);
    FileByteIn(v, n, index, d, i);
  }

  lemma FileByteIn(v: Volume, n: NodeData, index: nat, d: nat, i: nat)
    requires VolumeOk(v) && NodeOk(n) && SourceOk(File(v, n)) && d < v.blockSize && i == v.blockSize * index + d
    requires NodeBlock(v, n, index).Some? && |NodeBlock(v, n, index).value| == v.blockSize
    ensures HasByte(File(v, n), i) && ByteAt(File(v, n), i) == NodeBlock(v, n, index).value[d]
  {
    assert File(v, n).block(index) == NodeBlock(v, n, index);
    BlockByte(File(v, n), index, d);
  }

  /** Byte d of file-system block b. */
  function DiskByte(v: Volume, b: nat, d: nat): Byte
    requires DiskOk(v.disk)
  {
    ByteAt(v.disk, b * v.blockSize + d)
  }

  lemma MappedBlock(v: Volume, n: NodeData, index: nat, d: nat)
    requires VolumeOk(v) && NodeOk(n) && d < v.blockSize
    requires BlockNumber(v, n, index).Some? && OnDisk(v, BlockNumber(v, n, index).value)
    ensures NodeBlock(v, n, index).Some? && |NodeBlock(v, n, index).value| == v.blockSize
    ensures NodeBlock(v, n, index).value[d] == DiskByte(v, BlockNumber(v, n, index).value, d)
  {
    var b := BlockNumber(v, n, index).value;
    var at := b * v.blockSize;
    assert (b + 1) * v.blockSize == at + v.blockSize;
    assert at % WORD == at;
    assert AllThere(v.disk, at, v.blockSize);
    var bytes := Slice(v.disk, at, v.blockSize);
    assert NodeBlock(v, n, index) == Some(bytes);
    assert Agrees(v.disk, at, bytes, at + d);
  }

  lemma Split(i: nat, size: nat) returns (q: nat, d: nat)
    requires size > 0
    ensures i == size * q + d && d < size
  {
    q, d := i / size, i % size;
  }

  lemma FileHas(v: Volume, n: NodeData, index: nat, d: nat, i: nat)
    requires VolumeOk(v) && NodeOk(n) && WellMapped(v, n) && d < v.blockSize && i == v.blockSize * index + d && i < n.size
    ensures HasByte(File(v, n), i)
  {
    FileByte(v, n, index, d, i);
  }

  lemma FileHasAt(v: Volume, n: NodeData, i: nat)
    requires VolumeOk(v) && NodeOk(n) && WellMapped(v, n) && i < n.size
    ensures HasByte(File(v, n), i)
  {
    var q, d := Split(i, v.blockSize);
    FileHas(v, n, q, d, i);
  }

  /** Every byte of a well-mapped file can be read, so read_all never panics on one. */
  lemma FileIsReadable(v: Volume, n: NodeData, offset: nat, count: nat)
    requires VolumeOk(v) && NodeOk(n) && WellMapped(v, n) && offset + count <= n.size
    ensures SourceOk(File(v, n)) && !Unreadable(File(v, n), offset, count)
  {
    FileOk(v, n);
    forall i: nat | offset <= i < offset + count ensures HasByte(File(v, n), i) {
      FileHasAt(v, n, i);
    }
  }

  // ----- a file as the blocks its map names -----

  /** The bytes of file-system block b. */
  function BlockBytes(v: Volume, b: nat): (r: seq<Byte>)
    requires VolumeOk(v)
    ensures |r| == v.blockSize
  {
    Slice(v.disk, b * v.blockSize, v.blockSize)
  }

  /** How many blocks a file has. */
  function BlockCount(v: Volume, n: NodeData): (k: nat)
    requires VolumeOk(v)
    ensures k > 0 ==> v.blockSize * (k - 1) < n.size
    ensures n.size <= k * v.blockSize
  {
    Ceiling(n.size, v.blockSize);
    (n.size + v.blockSize - 1) / v.blockSize
  }

  lemma Ceiling(n: nat, size: nat)
    requires size > 0
    ensures var k := (n + size - 1) / size; n <= k * size && (k > 0 ==> size * (k - 1) < n)
  {
    var k, d := (n + size - 1) / size, (n + size - 1) % size;
    assert n + size - 1 == size * k + d && size * k == k * size;
    assert k > 0 ==> size * (k - 1) == size * k - size;
  }

  /** The first k disk blocks that the block map of the file names, laid end to end. */
  function MappedBlocks(v: Volume, n: NodeData, k: nat): (r: seq<Byte>)
    requires VolumeOk(v) && NodeOk(n)
    requires forall i: nat {:trigger BlockNumber(v, n, i)} | i < k :: BlockNumber(v, n, i).Some?
    ensures |r| == k * v.blockSize
  {
    if k == 0 then [] else MappedBlocks(v, n, k - 1) + BlockBytes(v, BlockNumber(v, n, k - 1).value)
  }

  lemma BlocksAreMapped(v: Volume, n: NodeData)
    requires VolumeOk(v) && NodeOk(n) && WellMapped(v, n)
    ensures forall i: nat {:trigger BlockNumber(v, n, i)} | i < BlockCount(v, n) :: BlockNumber(v, n, i).Some?
    ensures forall i: nat {:trigger NodeBlock(v, n, i)} | i < BlockCount(v, n) ::
              BlockNumber(v, n, i).Some? && NodeBlock(v, n, i) == Some(BlockBytes(v, BlockNumber(v, n, i).value))
  {
    forall i: nat | i < BlockCount(v, n)
      ensures BlockNumber(v, n, i).Some? && NodeBlock(v, n, i) == Some(BlockBytes(v, BlockNumber(v, n, i).value))
    {
      InFile(v.blockSize, i, BlockCount(v, n) - 1);
      BlockIsMapped(v, n, i);
      FetchBlock(v, n, i);
    }
  }

  lemma InFile(size: nat, i: nat, k: nat)
    requires i <= k
    ensures size * i <= size * k
  {
    assert size * (k - i) >= 0;
  }

  lemma FetchBlock(v: Volume, n: NodeData, i: nat)
    requires VolumeOk(v) && NodeOk(n) && BlockNumber(v, n, i).Some? && OnDisk(v, BlockNumber(v, n, i).value)
    ensures NodeBlock(v, n, i) == Some(BlockBytes(v, BlockNumber(v, n, i).value))
  {
    var at := BlockNumber(v, n, i).value * v.blockSize;
    assert (BlockNumber(v, n, i).value + 1) * v.blockSize == at + v.blockSize;
    assert at % WORD == at;
    assert AllThere(v.disk, at, v.blockSize);
  }

  lemma {:induction false} SameBlocks(v: Volume, n: NodeData, k: nat)
    requires VolumeOk(v) && NodeOk(n) && SourceOk(File(v, n))
    requires forall i: nat {:trigger BlockNumber(v, n, i)} | i < k :: BlockNumber(v, n, i).Some?
    requires forall i: nat {:trigger NodeBlock(v, n, i)} | i < k :: NodeBlock(v, n, i) == Some(BlockBytes(v, BlockNumber(v, n, i).value))
    ensures forall i: nat | i < k :: File(v, n).block(i).Some?
    ensures Blocks(File(v, n), k) == MappedBlocks(v, n, k)
  {
    if k > 0 {
      SameBlocks(v, n, k - 1);
      assert File(v, n).block(k - 1) == NodeBlock(v, n, k - 1);
    }
  }

  /** The contents of a file: the disk blocks its map names, end to end, up to its size. */
  function FileBytes(v: Volume, n: NodeData): (r: seq<Byte>)
    requires VolumeOk(v) && NodeOk(n) && WellMapped(v, n)
    ensures |r| == n.size
  {
    BlocksAreMapped(v, n);
    MappedBlocks(v, n, BlockCount(v, n))[..n.size]
  }

  /** What is read from a file is the slice of its contents. */
  lemma ReadIsContents(v: Volume, n: NodeData, offset: nat, bytes: seq<Byte>)
    requires VolumeOk(v) && NodeOk(n) && WellMapped(v, n) && SourceOk(File(v, n))
    requires Holds(File(v, n), offset, bytes) && offset + |bytes| <= n.size
    ensures bytes == FileBytes(v, n)[offset..offset + |bytes|]
  {
    var k := BlockCount(v, n);
    BlocksAreMapped(v, n);
    SameBlocks(v, n, k);
    ReadIsSlice(File(v, n), k, offset, bytes);
    var all := MappedBlocks(v, n, k);
    assert all[..n.size][offset..offset + |bytes|] == all[offset..offset + |bytes|];
  }

  // ----- a file as it is laid out -----

  /** The number that the i-node and its table give to block `i`. */
  function Listed(n: NodeData, table: seq<nat>, i: nat): nat
    requires NodeOk(n) && i < 12 + |table|
  {
    if i < 12 then n.direct[i] else table[i - 12]
  }

  ghost predicate BlockHeld(v: Volume, n: NodeData, table: seq<nat>, blocks: seq<seq<Byte>>, i: nat)
    requires VolumeOk(v) && NodeOk(n) && i < 12 + |table| && i < |blocks|
  {
    var b := Listed(n, table, i);
    |blocks[i]| == v.blockSize && OnDisk(v, b) && Holds(v.disk, b * v.blockSize, blocks[i])
  }

  /** The disk holds `blocks` at the numbers listed, and the file ends in the last of them. */
  ghost predicate LaidOut(v: Volume, n: NodeData, table: seq<nat>, blocks: seq<seq<Byte>>)
    requires VolumeOk(v) && NodeOk(n)
  {
    && HasTable(v, n, table)
    && |blocks| <= n.sectors / (v.blockSize / 512) && |blocks| <= 12 + |table|
    && n.size <= |blocks| * v.blockSize && (|blocks| > 0 ==> v.blockSize * (|blocks| - 1) < n.size)
    && forall i: nat {:trigger BlockHeld(v, n, table, blocks, i)} | i < |blocks| :: BlockHeld(v, n, table, blocks, i)
  }

  function Flat(blocks: seq<seq<Byte>>): seq<Byte>
  {
    if blocks == [] then [] else Flat(blocks[..|blocks| - 1]) + blocks[|blocks| - 1]
  }

  /** The blocks of a size, counted in two ways. */
  lemma SameCount(size: nat, bytes: nat, j: nat, k: nat)
    requires size > 0 && bytes <= j * size && bytes <= k * size
    requires (j > 0 ==> size * (j - 1) < bytes) && (k > 0 ==> size * (k - 1) < bytes)
    ensures j == k
  {
    if j < k { InFile(size, j, k - 1); }
    if k < j { InFile(size, k, j - 1); }
  }

  lemma InBlocks(size: nat, bytes: nat, k: nat, i: nat)
    requires bytes <= k * size && size * i < bytes
    ensures i < k
  {
    if k <= i { InFile(size, k, i); }
  }

  lemma LaidOutIsMapped(v: Volume, n: NodeData, table: seq<nat>, blocks: seq<seq<Byte>>)
    requires VolumeOk(v) && NodeOk(n) && LaidOut(v, n, table, blocks)
    ensures WellMapped(v, n) && BlockCount(v, n) == |blocks|
    ensures forall i: nat {:trigger BlockNumber(v, n, i)} | i < |blocks| :: BlockNumber(v, n, i) == Some(Listed(n, table, i))
  {
    forall i: nat | i < |blocks| ensures BlockNumber(v, n, i) == Some(Listed(n, table, i)) {
      BlockMapIs(v, n, table, i);
    }
    forall i: nat | v.blockSize * i < n.size ensures Mapped(v, n, i) {
      InBlocks(v.blockSize, n.size, |blocks|, i);
      assert BlockHeld(v, n, table, blocks, i);
    }
    SameCount(v.blockSize, n.size, |blocks|, BlockCount(v, n));
  }

  lemma HeldBytes(v: Volume, n: NodeData, table: seq<nat>, blocks: seq<seq<Byte>>, i: nat)
    requires VolumeOk(v) && NodeOk(n) && LaidOut(v, n, table, blocks) && i < |blocks|
    ensures BlockBytes(v, Listed(n, table, i)) == blocks[i]
  {
    assert BlockHeld(v, n, table, blocks, i);
    var b := Listed(n, table, i);
    SameBytes(v.disk, b * v.blockSize, blocks[i], BlockBytes(v, b));
  }

  lemma {:induction false} MappedAsHeld(v: Volume, n: NodeData, table: seq<nat>, blocks: seq<seq<Byte>>, k: nat)
    requires VolumeOk(v) && NodeOk(n) && LaidOut(v, n, table, blocks) && k <= |blocks|
    requires forall i: nat {:trigger BlockNumber(v, n, i)} | i < |blocks| :: BlockNumber(v, n, i) == Some(Listed(n, table, i))
    ensures MappedBlocks(v, n, k) == Flat(blocks[..k])
  {
    if k > 0 {
      MappedAsHeld(v, n, table, blocks, k - 1);
      HeldBytes(v, n, table, blocks, k - 1);
      assert blocks[..k][..k - 1] == blocks[..k - 1];
    }
  }

  /** A file is read back from the disk: its contents are the blocks laid down where its direct
      numbers and its indirect block say, cut off at its size. */
  lemma FileIsReadBack(v: Volume, n: NodeData, table: seq<nat>, blocks: seq<seq<Byte>>)
    requires VolumeOk(v) && NodeOk(n) && LaidOut(v, n, table, blocks)
    ensures WellMapped(v, n) && n.size <= |Flat(blocks)| && FileBytes(v, n) == Flat(blocks)[..n.size]
  {
    LaidOutIsMapped(v, n, table, blocks);
    MappedAsHeld(v, n, table, blocks, |blocks|);
    assert blocks[..|blocks|] == blocks;
  }

  /** The whole file is held at its start. */
  lemma FileHoldsBytes(v: Volume, n: NodeData)
    requires VolumeOk(v) && NodeOk(n) && WellMapped(v, n)
    ensures SourceOk(File(v, n)) && Holds(File(v, n), 0, FileBytes(v, n))
  {
    FileOk(v, n);
    forall i: nat | i < n.size ensures HasByte(File(v, n), i) {
      FileHasAt(v, n, i);
    }
    var all := Slice(File(v, n), 0, n.size);
    ReadIsContents(v, n, 0, all);
    assert FileBytes(v, n)[0..n.size] == FileBytes(v, n);
  }

  /** Node::read_all on a file in range never panics and delivers exactly the bytes from offset
      up to offset + count or the end; -1 past the end. */
  method ReadFile(v: Volume, n: NodeData, offset: nat, count: nat, buffer: array<Byte>, at: nat) returns (r: int)
    requires VolumeOk(v) && NodeOk(n) && WellMapped(v, n) && offset < WORD && count < WORD && at + count <= buffer.Length
    modifies buffer
    ensures r == if count == 0 then 0 else if offset > n.size then -1 else Min(count, n.size - offset)
    ensures r <= 0 ==> buffer[..] == old(buffer[..])
    ensures r > 0 ==> Wrote(old(buffer[..]), buffer[..], at, r) && buffer[at..at + r] == FileBytes(v, n)[offset..offset + r]
  {
    FileOk(v, n);
    if count > 0 && offset <= n.size { FileIsReadable(v, n, offset, Min(count, n.size - offset)); }
    var cnt := ReadAll(File(v, n), offset, count, buffer, at);
    r := cnt.value;
    if r > 0 { ReadIsContents(v, n, offset, buffer[at..at + r]); }
  }
}
