/** Path resolution: one pass over the characters of a path, and what it means. */
module Ext2Paths {
  import opened Common
  import opened BlockIo
  import opened Ext2Files
  import opened Ext2Dirs

  const SLASH: Byte := 47
  /** The longest component that passes the ASSERT. */
  const LONGEST: nat := 256

  /** What resolving a path comes to: a node, the null reference, a panic, or a directory that
      is walked forever. */
  datatype Place = Here(node: NodeData) | Nowhere | Stopped | Loops

  /** From a directory to the node of one component. */
  function Enter(v: Volume, n: NodeData, part: seq<Byte>): (r: Place)
    requires VolumeOk(v) && NodeOk(n)
    ensures r.Here? ==> NodeOk(r.node)
  {
    if |part| > LONGEST then Stopped
    else
      match Find(v, n, part)
      case Fails => Stopped
      case Forever => Loops
      case Number(k) =>
        if k == 0 then Nowhere
        else if NodeAt(v, k).None? then Stopped
        else Here(NodeAt(v, k).value)
  }

  /** One component after the other, from `cur`. */
  function Resolve(v: Volume, cur: Place, parts: seq<seq<Byte>>): Place
    requires VolumeOk(v) && (cur.Here? ==> NodeOk(cur.node))
    decreases |parts|
  {
    if !cur.Here? || parts == [] then cur
    else Resolve(v, Enter(v, cur.node, parts[0]), parts[1..])
  }

  /** The length of the part of a path before the first slash. */
  function PartLength(p: seq<Byte>): (k: nat)
    ensures k <= |p| && SLASH !in p[..k] && (k < |p| ==> p[k] == SLASH)
  {
    if p == [] || p[0] == SLASH then 0
    else
      var k := PartLength(p[1..]);
      assert p[..k + 1] == [p[0]] + p[1..][..k];
      k + 1
  }

  /** The components of a path: what lies between the slashes, empty pieces left out. */
  function Components(p: seq<Byte>): seq<seq<Byte>>
    decreases |p|
  {
    if p == [] then []
    else if p[0] == SLASH then Components(p[1..])
    else
      var k := PartLength(p);
      if k == 0 then [] else [p[..k]] + Components(p[k..])
  }

  /** No directory is so long that the offsets of its records pass 2^32. */
  ghost predicate SmallDirs(v: Volume)
    requires VolumeOk(v)
  {
    forall k: nat {:trigger NodeAt(v, k)} | NodeAt(v, k).Some? :: SmallDir(NodeAt(v, k).value)
  }

  predicate SmallDir(n: NodeData)
  {
    IsDir(n) ==> n.size + 0x1_0000 <= WORD
  }

  lemma SkipSlash(p: seq<Byte>, i: nat)
    requires i < |p| && p[i] == SLASH
    ensures Components(p[i..]) == Components(p[i + 1..])
  {
    assert p[i..][1..] == p[i + 1..];
  }

  /** A maximal run of characters without a slash is the next component. */
  lemma NextPart(p: seq<Byte>, i: nat, j: nat)
    requires i < j <= |p| && SLASH !in p[i..j] && (j < |p| ==> p[j] == SLASH)
    ensures Components(p[i..]) == [p[i..j]] + Components(p[j..])
  {
    var q := p[i..];
    assert q[..j - i] == p[i..j];
    PartLengthIs(q, j - i);
    assert q[0] == p[i..j][0];
    assert q[j - i..] == p[j..];
  }

  lemma {:induction false} PartLengthIs(p: seq<Byte>, k: nat)
    requires k <= |p| && SLASH !in p[..k]
    ensures PartLength(p) >= k
    ensures (k < |p| ==> p[k] == SLASH) ==> PartLength(p) == k
  {
    if k > 0 {
      assert p[..k][0] == p[0];
      assert p[1..][..k - 1] == p[..k][1..];
      PartLengthIs(p[1..], k - 1);
    }
  }

  /** A run without a slash begins a component at least as long. */
  lemma LongPart(p: seq<Byte>, i: nat, j: nat)
    requires i < j <= |p| && SLASH !in p[i..j]
    ensures Components(p[i..]) != [] && |Components(p[i..])[0]| >= j - i
  {
    var q := p[i..];
    assert q[..j - i] == p[i..j];
    PartLengthIs(q, j - i);
    assert q[0] == p[i..j][0];
  }

  /** The lookup of one component: Node::find and get_node. */
  method EnterPart(v: Volume, n: NodeData, part: seq<Byte>) returns (r: Place)
    requires VolumeOk(v) && SmallDirs(v) && NodeOk(n) && SmallDir(n) && 0 in part && |CString(part)| <= LONGEST
    ensures r == Enter(v, n, CString(part)) && (r.Here? ==> SmallDir(r.node))
  {
    var number := NodeFind(v, n, part);
    if number.Fails? { return Stopped; }
    if number.Forever? { return Loops; }
    if number.number == 0 { return Nowhere; }
    var node := GetNode(v, number.number);
    if node.None? { return Stopped; }
    return Here(node.value);
  }

  /** Ext2::find; `start` is Nowhere for the null reference. */
  method FindPath(v: Volume, start: Place, path: seq<Byte>) returns (r: Place)
    requires VolumeOk(v) && SmallDirs(v) && 0 in path
    requires start.Here? || start.Nowhere?
    requires start.Here? ==> NodeOk(start.node) && SmallDir(start.node)
    ensures r == Resolve(v, start, Components(CString(path)))
  {
    ghost var p := CString(path);
    StringEnd(path);
    var current, idx := start, 0;
    assert p[0..] == p;
    while true
      invariant idx <= |p| && (current.Here? || current.Nowhere?)
      invariant current.Here? ==> NodeOk(current.node) && SmallDir(current.node)
      invariant Resolve(v, current, Components(p[idx..])) == Resolve(v, start, Components(p))
      decreases |p| - idx
    {
      idx := SkipSlashes(path, idx);
      if !current.Here? || path[idx] == 0 { return current; }
      ghost var first := idx;
      var part, ok;
      part, idx, ok := CopyPart(path, idx);
      if !ok { return Stopped; }
      NextPart(p, first, idx);
      current := EnterPart(v, current.node, part);
      if current.Stopped? || current.Loops? { return current; }
    }
  }

  lemma {:induction false} StringEnd(a: seq<Byte>)
    requires 0 in a
    ensures |CString(a)| < |a| && a[|CString(a)|] == 0 && a[..|CString(a)|] == CString(a)
    ensures 0 !in CString(a)
  {
    if a[0] != 0 {
      StringEnd(a[1..]);
      assert a == [a[0]] + a[1..];
    }
  }

  method SkipSlashes(path: seq<Byte>, from: nat) returns (idx: nat)
    requires 0 in path && from <= |CString(path)|
    ensures from <= idx <= |CString(path)| && idx < |path| && path[idx] != SLASH
    ensures path[idx] == 0 <==> idx == |CString(path)|
    ensures Components(CString(path)[idx..]) == Components(CString(path)[from..])
  {
    StringEnd(path);
    ghost var p := CString(path);
    idx := from;
    while path[idx] == SLASH
      invariant from <= idx <= |p| && Components(p[idx..]) == Components(p[from..])
      decreases |p| - idx
    {
      assert idx < |p| && p[idx] == SLASH;
      SkipSlash(p, idx);
      idx := idx + 1;
    }
    assert idx < |p| ==> path[idx] == p[idx] && p[idx] in p;
  }

  lemma Copied(a: seq<Byte>, i: nat)
    requires i < |a| && a[i] == 0 && 0 !in a[..i]
    ensures 0 in a && CString(a) == a[..i]
  {
    CStringFrom(a, i);
  }

  /** Copies one component into a 257-byte buffer and terminates it; not ok if it is too long. */
  method CopyPart(path: seq<Byte>, from: nat) returns (part: seq<Byte>, idx: nat, ok: bool)
    requires 0 in path && from < |CString(path)| && CString(path)[from] != SLASH
    ensures var p := CString(path);
      && from < idx <= |p| && (ok ==> SLASH !in p[from..idx] && (idx < |p| ==> p[idx] == SLASH))
      && (ok ==> 0 in part && CString(part) == p[from..idx] && idx - from <= LONGEST)
      && (!ok ==> |Components(p[from..])| > 0 && |Components(p[from..])[0]| > LONGEST)
  {
    StringEnd(path);
    ghost var p := CString(path);
    idx := from;
    var buffer := new Byte[257];
    var i := 0;
    while true
      invariant from <= idx <= |p| && i == idx - from <= LONGEST
      invariant SLASH !in p[from..idx] && buffer[..i] == p[from..idx]
      decreases |p| - idx
    {
      var c := path[idx];
      if c == 0 || c == SLASH { break; }
      assert idx < |p| && p[from..idx + 1] == p[from..idx] + [c];
      idx := idx + 1;
      if i >= 256 {
        LongPart(p, from, idx);
        return [], idx, false;
      }
      buffer[i] := c;
      i := i + 1;
    }
    buffer[i] := 0;
    Copied(buffer[..], i);
    return buffer[..], idx, true;
  }

  // ----- paths as they are written -----

  function Slashes(n: nat): seq<Byte>
  {
    seq(n, i => SLASH)
  }

  /** The components with `gaps[i]` slashes before the i-th and the last gap at the end. */
  function Write(parts: seq<seq<Byte>>, gaps: seq<nat>): seq<Byte>
    requires |gaps| == |parts| + 1
  {
    if parts == [] then Slashes(gaps[0])
    else Slashes(gaps[0]) + parts[0] + Write(parts[1..], gaps[1..])
  }

  predicate Plain(part: seq<Byte>)
  {
    part != [] && SLASH !in part
  }

  lemma {:induction false} SlashesSkipped(n: nat, p: seq<Byte>)
    ensures Components(Slashes(n) + p) == Components(p)
  {
    if n > 0 {
      assert (Slashes(n) + p)[1..] == Slashes(n - 1) + p;
      SlashesSkipped(n - 1, p);
    } else {
      assert Slashes(0) + p == p;
    }
  }

  /** Any way of writing components with one or more slashes between them, and any number
      before and after, is taken apart into the same components. */
  lemma {:induction false} ComponentsOfWritten(parts: seq<seq<Byte>>, gaps: seq<nat>)
    requires |gaps| == |parts| + 1
    requires forall i | 0 <= i < |parts| :: Plain(parts[i])
    requires forall i | 0 < i < |parts| :: gaps[i] > 0
    ensures Components(Write(parts, gaps)) == parts
  {
    if parts == [] {
      SlashesSkipped(gaps[0], []);
      assert Slashes(gaps[0]) + [] == Slashes(gaps[0]);
    } else {
      var rest := Write(parts[1..], gaps[1..]);
      var p := parts[0] + rest;
      assert Write(parts, gaps) == Slashes(gaps[0]) + p;
      SlashesSkipped(gaps[0], p);
      ComponentsOfWritten(parts[1..], gaps[1..]);
      RestBegins(parts, gaps);
      assert p[0..|parts[0]|] == parts[0] && p[|parts[0]|..] == rest && p[0..] == p;
      NextPart(p, 0, |parts[0]|);
    }
  }

  /** After a component comes a slash or nothing. */
  lemma RestBegins(parts: seq<seq<Byte>>, gaps: seq<nat>)
    requires |gaps| == |parts| + 1 && parts != [] && (|parts| > 1 ==> gaps[1] > 0)
    ensures var rest := Write(parts[1..], gaps[1..]); rest == [] || rest[0] == SLASH
  {
  }
}
