/** What a lookup finds on a volume as it is laid out: one component in a directory, and a
    whole path through a chain of directories. */
module Ext2Lookup {
  import opened Common
  import opened BlockIo
  import opened Ext2Files
  import opened Ext2Dirs
  import opened Ext2Paths

  // ----- i-nodes -----

  /** Every group's table starts on the volume, and the groups have room for all numbers. */
  predicate GroupsCover(v: Volume)
  {
    && (forall g | 0 <= g < |v.tables| :: v.tables[g] <= v.blocks)
    && v.nodes <= v.nodesPerGroup * |v.tables|
  }

  /** get_node finds a place for exactly the numbers from 1 to the number of nodes. */
  lemma NodesInRange(v: Volume, number: nat)
    requires VolumeOk(v) && GroupsCover(v)
    ensures NodeOffset(v, number).Some? <==> 1 <= number <= v.nodes
  {
    if 1 <= number <= v.nodes {
      var g := (number - 1) / v.nodesPerGroup;
      GroupInRange(v.nodesPerGroup, |v.tables|, number - 1);
      assert v.tables[g] <= v.blocks;
    }
  }

  lemma GroupInRange(size: nat, groups: nat, index: nat)
    requires 0 < size && index < size * groups
    ensures index / size < groups
  {
    var q, d := index / size, index % size;
    assert index == size * q + d;
    if groups <= q { InFile(size, groups, q); }
  }

  /** The bytes of node `m` lie where `number` points. */
  ghost predicate NodeLies(v: Volume, number: nat, m: NodeData)
    requires VolumeOk(v)
  {
    && NodeOk(m) && NodeOffset(v, number).Some? && NodeOffset(v, number).value + NODE_BYTES <= v.disk.size
    && exists a, b, c, d {:trigger NodeBytes(m, a, b, c, d)} ::
         |a| == 2 && |b| == 20 && |c| == 8 && |d| == 36 && Holds(v.disk, NodeOffset(v, number).value, NodeBytes(m, a, b, c, d))
  }

  lemma LyingNodeIsFound(v: Volume, number: nat, m: NodeData)
    requires VolumeOk(v) && NodeLies(v, number, m)
    ensures NodeAt(v, number) == Some(m)
  {
    var a, b, c, d :| |a| == 2 && |b| == 20 && |c| == 8 && |d| == 36
                      && Holds(v.disk, NodeOffset(v, number).value, NodeBytes(m, a, b, c, d));
    NodeIsFound(v, number, m, a, b, c, d);
  }

  // ----- directories -----

  /** The node is a directory whose contents are the records `rs`. */
  ghost predicate IsDirectory(v: Volume, n: NodeData, rs: seq<Rec>)
    requires VolumeOk(v)
  {
    && NodeOk(n) && IsDir(n) && WellMapped(v, n)
    && (forall i | 0 <= i < |rs| :: RecOk(rs[i])) && FileBytes(v, n) == Layout(rs)
  }

  lemma DirectoryIsWalked(v: Volume, n: NodeData, rs: seq<Rec>)
    requires VolumeOk(v) && IsDirectory(v, n, rs)
    ensures SourceOk(File(v, n)) && Walk(File(v, n), 0) == Done(EntriesOf(rs))
  {
    FileHoldsBytes(v, n);
    WalkMeetsEveryRecord(File(v, n), 0, rs);
  }

  /** The walk breaks at `end`: on a record that cannot be read, or on one of length 0. */
  predicate Breaks(s: Source, end: nat, w: Walked)
    requires SourceOk(s)
  {
    && end < s.size
    && ((Record(s, end) == None && w == Panic)
        || (Record(s, end).Some? && Record(s, end).value.1 == 0 && w == Endless))
  }

  /** After well-formed records, a record that cannot be read makes the walk a panic; with one of
      length 0 it never ends. */
  lemma {:induction false} WalkBreaks(s: Source, offset: nat, rs: seq<Rec>, end: nat, w: Walked)
    requires SourceOk(s) && (forall i | 0 <= i < |rs| :: RecOk(rs[i])) && Holds(s, offset, Layout(rs))
    requires end == offset + |Layout(rs)| && Breaks(s, end, w)
    ensures Walk(s, offset) == w
    decreases |rs|
  {
    if rs != [] {
      var b := RecBytes(rs[0]);
      FirstAndRest(s, offset, b, Layout(rs[1..]));
      WalkBreaks(s, offset + |b|, rs[1..], end, w);
      WalkBreaksLater(s, offset, rs[0], w);
    } else {
      BreaksHere(s, offset, w);
    }
  }

  lemma BreaksHere(s: Source, offset: nat, w: Walked)
    requires SourceOk(s) && Breaks(s, offset, w)
    ensures Walk(s, offset) == w
  {
  }

  lemma WalkBreaksLater(s: Source, offset: nat, r: Rec, w: Walked)
    requires SourceOk(s) && RecOk(r) && Holds(s, offset, RecBytes(r)) && offset + |RecBytes(r)| < s.size
    requires Walk(s, offset + |RecBytes(r)|) == w && !w.Done?
    ensures Walk(s, offset) == w
  {
    RecordIsRead(s, offset, r);
    WalkOneBreaks(s, offset, Entry(r.inode, r.name), |RecBytes(r)|, w);
  }

  lemma WalkOneBreaks(s: Source, offset: nat, entry: Entry, length: nat, w: Walked)
    requires SourceOk(s) && offset < s.size && length > 0 && !w.Done?
    requires Record(s, offset) == Some((entry, length)) && Walk(s, offset + length) == w
    ensures Walk(s, offset) == w
  {
  }

  predicate RecNamed(r: Rec, part: seq<Byte>)
  {
    CString(r.name) == part
  }

  /** Record `i` is the last one of that name. */
  predicate LastOf(rs: seq<Rec>, part: seq<Byte>, i: nat)
  {
    i < |rs| && RecNamed(rs[i], part) && forall j: nat | i < j < |rs| :: !RecNamed(rs[j], part)
  }

  predicate NoneOf(rs: seq<Rec>, part: seq<Byte>)
  {
    forall j: nat | j < |rs| :: !RecNamed(rs[j], part)
  }

  lemma {:induction false} EntriesAre(rs: seq<Rec>)
    ensures |EntriesOf(rs)| == |rs|
    ensures forall i: nat | i < |rs| :: EntriesOf(rs)[i] == Entry(rs[i].inode, rs[i].name)
  {
    if rs != [] {
      EntriesAre(rs[1..]);
      assert forall i: nat | 0 < i < |rs| :: EntriesOf(rs)[i] == EntriesOf(rs[1..])[i - 1];
    }
  }

  lemma LastNumber(rs: seq<Rec>, part: seq<Byte>, i: nat)
    requires LastOf(rs, part, i)
    ensures LastNamed(EntriesOf(rs), part) == rs[i].inode
  {
    var es := EntriesOf(rs);
    EntriesAre(rs);
    assert Named(es, part, i);
    forall j: nat | i < j < |es| ensures !Named(es, part, j) { assert !RecNamed(rs[j], part); }
    LastNamedIsLast(es, part, i);
  }

  lemma NoNumber(rs: seq<Rec>, part: seq<Byte>)
    requires NoneOf(rs, part)
    ensures LastNamed(EntriesOf(rs), part) == 0
  {
    var es := EntriesOf(rs);
    EntriesAre(rs);
    forall j: nat | j < |es| ensures !Named(es, part, j) { assert !RecNamed(rs[j], part); }
    NotNamed(es, part);
  }

  // ----- one component -----

  /** The last record of that name leads from directory `n` to node `m`. */
  ghost predicate Leads(v: Volume, n: NodeData, rs: seq<Rec>, i: nat, part: seq<Byte>, m: NodeData)
    requires VolumeOk(v)
  {
    && IsDirectory(v, n, rs) && |part| <= 256 && LastOf(rs, part, i)
    && rs[i].inode != 0 && NodeLies(v, rs[i].inode, m)
  }

  /** A component that is in the directory leads to the node whose bytes lie at the number of
      its last record. */
  lemma EnterFinds(v: Volume, n: NodeData, rs: seq<Rec>, i: nat, part: seq<Byte>, m: NodeData)
    requires VolumeOk(v) && Leads(v, n, rs, i, part, m)
    ensures Enter(v, n, part) == Here(m)
  {
    DirectoryIsWalked(v, n, rs);
    LastNumber(rs, part, i);
    LyingNodeIsFound(v, rs[i].inode, m);
  }

  /** A component that is not in the directory, or whose last record has number 0, leads to the
      null reference. */
  lemma EnterMisses(v: Volume, n: NodeData, rs: seq<Rec>, part: seq<Byte>)
    requires VolumeOk(v) && IsDirectory(v, n, rs) && |part| <= 256
    requires NoneOf(rs, part) || exists i: nat :: LastOf(rs, part, i) && rs[i].inode == 0
    ensures Enter(v, n, part) == Nowhere
  {
    DirectoryIsWalked(v, n, rs);
    if NoneOf(rs, part) {
      NoNumber(rs, part);
    } else {
      var i: nat :| LastOf(rs, part, i) && rs[i].inode == 0;
      LastNumber(rs, part, i);
    }
  }

  /** A component that is too long, a node that is no directory, or a number out of range ends in
      a panic. */
  lemma EnterStops(v: Volume, n: NodeData, part: seq<Byte>)
    requires VolumeOk(v) && NodeOk(n)
    ensures |part| > 256 || !IsDir(n) ==> Enter(v, n, part) == Stopped
    ensures forall rs: seq<Rec>, i: nat {:trigger LastOf(rs, part, i)} |
              IsDirectory(v, n, rs) && LastOf(rs, part, i) && rs[i].inode > v.nodes :: Enter(v, n, part) == Stopped
  {
    forall rs: seq<Rec>, i: nat | IsDirectory(v, n, rs) && LastOf(rs, part, i) && rs[i].inode > v.nodes
      ensures Enter(v, n, part) == Stopped
    {
      DirectoryIsWalked(v, n, rs);
      LastNumber(rs, part, i);
    }
  }

  // ----- whole paths -----

  /** Directories, the records followed in them, and the nodes they lead to, in order. */
  datatype Hop = Hop(rs: seq<Rec>, pick: nat, part: seq<Byte>, to: NodeData)

  /** The hops form a chain that starts at `n`. */
  ghost predicate Chain(v: Volume, n: NodeData, hops: seq<Hop>)
    requires VolumeOk(v)
    decreases |hops|
  {
    NodeOk(n) && (hops != [] ==> Leads(v, n, hops[0].rs, hops[0].pick, hops[0].part, hops[0].to) && Chain(v, hops[0].to, hops[1..]))
  }

  function Parts(hops: seq<Hop>): (parts: seq<seq<Byte>>)
    ensures |parts| == |hops|
  {
    if hops == [] then [] else [hops[0].part] + Parts(hops[1..])
  }

  function Target(n: NodeData, hops: seq<Hop>): NodeData
  {
    if hops == [] then n else hops[|hops| - 1].to
  }

  lemma FirstHop(v: Volume, n: NodeData, hops: seq<Hop>, more: seq<seq<Byte>>)
    requires VolumeOk(v) && Chain(v, n, hops) && hops != []
    ensures NodeOk(n) && Chain(v, hops[0].to, hops[1..]) && NodeOk(hops[0].to)
    ensures Resolve(v, Here(n), [hops[0].part] + more) == Resolve(v, Here(hops[0].to), more)
  {
    var h := hops[0];
    EnterFinds(v, n, h.rs, h.pick, h.part, h.to);
    assert ([h.part] + more)[0] == h.part && ([h.part] + more)[1..] == more;
  }

  lemma TargetStep(n: NodeData, hops: seq<Hop>, rest: seq<seq<Byte>>)
    requires hops != []
    ensures Target(n, hops) == Target(hops[0].to, hops[1..])
    ensures Parts(hops) + rest == [hops[0].part] + (Parts(hops[1..]) + rest)
  {
  }

  /** Through any number of directories, resolving follows the records to the node that the last
      of them leads to, and goes on from there. */
  lemma {:induction false} PathIsFollowed(v: Volume, n: NodeData, hops: seq<Hop>, rest: seq<seq<Byte>>)
    requires VolumeOk(v) && Chain(v, n, hops)
    ensures NodeOk(n) && NodeOk(Target(n, hops))
    ensures Resolve(v, Here(n), Parts(hops) + rest) == Resolve(v, Here(Target(n, hops)), rest)
    decreases |hops|
  {
    if hops == [] {
      assert Parts(hops) + rest == rest;
    } else {
      FirstHop(v, n, hops, Parts(hops[1..]) + rest);
      PathIsFollowed(v, hops[0].to, hops[1..], rest);
      TargetStep(n, hops, rest);
    }
  }

  /** A path whose next component is missing gives the null reference, whatever follows. */
  lemma MissingIsNowhere(v: Volume, n: NodeData, hops: seq<Hop>, rs: seq<Rec>, part: seq<Byte>, rest: seq<seq<Byte>>)
    requires VolumeOk(v) && Chain(v, n, hops) && IsDirectory(v, Target(n, hops), rs)
    requires |part| <= 256 && NoneOf(rs, part)
    ensures Resolve(v, Here(n), Parts(hops) + ([part] + rest)) == Nowhere
  {
    PathIsFollowed(v, n, hops, [part] + rest);
    EnterMisses(v, Target(n, hops), rs, part);
    assert ([part] + rest)[0] == part && ([part] + rest)[1..] == rest;
  }

  /** A path that goes on through a node that is no directory ends in a panic. */
  lemma FileStops(v: Volume, n: NodeData, hops: seq<Hop>, part: seq<Byte>, rest: seq<seq<Byte>>)
    requires VolumeOk(v) && Chain(v, n, hops) && !IsDir(Target(n, hops))
    ensures Resolve(v, Here(n), Parts(hops) + ([part] + rest)) == Stopped
  {
    PathIsFollowed(v, n, hops, [part] + rest);
    EnterStops(v, Target(n, hops), part);
    assert ([part] + rest)[0] == part && ([part] + rest)[1..] == rest;
  }

  lemma {:induction false} WrittenString(p: seq<Byte>, tail: seq<Byte>)
    requires 0 !in p
    ensures CString(p + [0] + tail) == p
  {
    if p != [] {
      assert (p + [0] + tail)[0] == p[0] && (p + [0] + tail)[1..] == p[1..] + [0] + tail;
      assert p == [p[0]] + p[1..];
      WrittenString(p[1..], tail);
    } else {
      assert (p + [0] + tail)[0] == 0;
    }
  }

  lemma {:induction false} NoZeros(parts: seq<seq<Byte>>, gaps: seq<nat>)
    requires |gaps| == |parts| + 1 && forall i | 0 <= i < |parts| :: 0 !in parts[i]
    ensures 0 !in Write(parts, gaps)
  {
    if parts != [] { NoZeros(parts[1..], gaps[1..]); }
  }

  lemma ChainIsFollowed(v: Volume, n: NodeData, hops: seq<Hop>)
    requires VolumeOk(v) && Chain(v, n, hops)
    ensures NodeOk(n) && Resolve(v, Here(n), Parts(hops)) == Here(Target(n, hops))
  {
    PathIsFollowed(v, n, hops, []);
    assert Parts(hops) + [] == Parts(hops);
  }

  lemma WrittenParts(parts: seq<seq<Byte>>, gaps: seq<nat>, path: seq<Byte>, tail: seq<Byte>)
    requires |gaps| == |parts| + 1 && path == Write(parts, gaps) + [0] + tail
    requires forall i | 0 <= i < |parts| :: Plain(parts[i]) && 0 !in parts[i]
    requires forall i | 0 < i < |parts| :: gaps[i] > 0
    ensures Components(CString(path)) == parts
  {
    NoZeros(parts, gaps);
    WrittenString(Write(parts, gaps), tail);
    ComponentsOfWritten(parts, gaps);
  }

  /** A path written with any runs of slashes is resolved to the node at the end of the chain of
      directories it names. */
  lemma WrittenPathIsFollowed(v: Volume, n: NodeData, hops: seq<Hop>, gaps: seq<nat>, path: seq<Byte>, tail: seq<Byte>)
    requires VolumeOk(v) && Chain(v, n, hops) && |gaps| == |hops| + 1
    requires path == Write(Parts(hops), gaps) + [0] + tail
    requires forall i | 0 <= i < |hops| :: Plain(Parts(hops)[i]) && 0 !in Parts(hops)[i]
    requires forall i | 0 < i < |hops| :: gaps[i] > 0
    ensures Resolve(v, Here(n), Components(CString(path))) == Here(Target(n, hops))
  {
    WrittenParts(Parts(hops), gaps, path, tail);
    ChainIsFollowed(v, n, hops);
  }
}
