/** Physical frames (kernel/physmem.cc): a list of freed frames threaded through the frames
    themselves, and a bump pointer for the frames never handed out. */
module PhysMem {
  import opened Common

  const FRAME_SIZE := 4096
  const WORDS := 1024

  /** The contents of one frame, as 32-bit words. */
  type Frame = s: seq<nat> | |s| == WORDS witness ZeroFrame()

  function ZeroFrame(): (z: seq<nat>)
    ensures |z| == WORDS
  {
    seq(WORDS, _ => 0)
  }

  function AddressOf(free: seq<nat>, k: nat): nat
  {
    if k < |free| then free[k] * FRAME_SIZE else 0
  }

  ghost predicate LinkedFrame(mem: seq<Frame>, free: seq<nat>, k: nat)
    requires k < |free|
  {
    free[k] < |mem| && mem[free[k]][0] == AddressOf(free, k + 1)
  }

  /** From `first`, following the first word of each frame leads through `free` to null. */
  ghost predicate Threaded(mem: seq<Frame>, first: nat, free: seq<nat>)
  {
    first == AddressOf(free, 0) && forall k: nat {:trigger LinkedFrame(mem, free, k)} | k < |free| :: LinkedFrame(mem, free, k)
  }

  ghost predicate Distinct(s: seq<nat>)
  {
    forall j, k | 0 <= j < k < |s| :: s[j] != s[k]
  }

  /** Every frame of lo..hi is in use or on the list, and not both. */
  ghost predicate Partition(lo: nat, hi: nat, used: set<nat>, free: seq<nat>)
  {
    && Distinct(free)
    && (forall f: nat :: lo <= f < hi <==> f in used || f in free)
    && (forall f: nat :: !(f in used && f in free))
  }

  class Frames {
    /** Frame f holds the words at physical addresses 4096*f .. 4096*f + 4095. */
    const mem: array<Frame>
    const start: nat
    const limit: nat
    var firstFree: nat
    var avail: nat
    ghost var free: seq<nat>
    ghost var used: set<nat>

    ghost predicate Valid()
      reads this, mem
    {
      && start % FRAME_SIZE == 0 && limit % FRAME_SIZE == 0 && avail % FRAME_SIZE == 0
      && 0 < start <= avail <= limit <= mem.Length * FRAME_SIZE
      && Threaded(mem[..], firstFree, free)
      && Partition(start / FRAME_SIZE, avail / FRAME_SIZE, used, free)
    }

    /** The frames that can still be handed out: those on the list and those never handed out. */
    ghost function Left(): int
      reads this
    {
      |free| + (limit - avail) / FRAME_SIZE
    }

    /** init: nothing has been handed out. */
    constructor (memory: array<Frame>, start: nat, size: nat)
      requires start % FRAME_SIZE == 0 && size % FRAME_SIZE == 0 && 0 < start
      requires start + size <= memory.Length * FRAME_SIZE
      ensures Valid() && mem == memory && this.start == start && limit == start + size
      ensures used == {} && free == [] && avail == start && Left() == size / FRAME_SIZE
    {
      mem := memory;
      this.start, limit := start, start + size;
      firstFree, avail := 0, start;
      free, used := [], {};
    }

    /** A zeroed frame that was not in use; None where the kernel panics because no frame is
        left. */
    method AllocFrame() returns (r: Option<nat>)
      requires Valid()
      modifies this, mem
      ensures Valid()
      ensures r.None? <==> old(free) == [] && old(avail) == limit
      ensures r.None? <==> old(Left()) == 0
      ensures 0 <= Left() == old(Left()) - (if r.Some? then 1 else 0)
      ensures r.None? ==> used == old(used) && free == old(free) && avail == old(avail) && mem[..] == old(mem[..])
      ensures r.Some? ==> r.value % FRAME_SIZE == 0 && start <= r.value < limit
      ensures r.Some? ==> var f := r.value / FRAME_SIZE;
                && f < mem.Length && f !in old(used) && used == old(used) + {f}
                && mem[..] == old(mem[..])[f := ZeroFrame()]
                && (if old(free) == [] then r.value == old(avail) && free == [] && avail == r.value + FRAME_SIZE
                    else old(free) == [f] + free && avail == old(avail))
    {
      ghost var m, fs := mem[..], free;
      var p;
      ListEmpty(start / FRAME_SIZE, avail / FRAME_SIZE, used, free);
      WholeFrames(avail, limit);
      if firstFree != 0 {
        assert free != [] && LinkedFrame(mem[..], free, 0);
        ListedFrame(start / FRAME_SIZE, avail / FRAME_SIZE, used, free);
        p := firstFree;
        firstFree := mem[p / FRAME_SIZE][0];
        free := free[1..];
      } else {
        if avail == limit { return None; }
        FreshFrame(start / FRAME_SIZE, avail / FRAME_SIZE, used, free);
        p := avail;
        avail := avail + FRAME_SIZE;
      }
      mem[p / FRAME_SIZE] := ZeroFrame();
      used := used + {p / FRAME_SIZE};
      Taken(m, fs, mem[..], free, p / FRAME_SIZE);
      return Some(p);
    }

    /** Returns a frame in use; only the frame's first word changes. */
    method DeallocFrame(p: nat)
      requires Valid() && p % FRAME_SIZE == 0 && p / FRAME_SIZE in used
      modifies this, mem
      ensures Valid()
      ensures avail == old(avail) && Left() == old(Left()) + 1
      ensures var f := p / FRAME_SIZE;
        && f < mem.Length && used == old(used) - {f} && free == [f] + old(free)
        && (forall g | 0 <= g < mem.Length && g != f :: mem[g] == old(mem[g]))
        && (forall w | 0 < w < WORDS :: mem[f][w] == old(mem[f][w]))
    {
      var f := p / FRAME_SIZE;
      FreedFrame(start / FRAME_SIZE, avail / FRAME_SIZE, used, free, f);
      mem[f] := mem[f][0 := firstFree];
      firstFree := p;
      Returned(old(mem[..]), old(free), mem[..], f);
      free := [f] + free;
      used := used - {f};
    }

    /** A store of one word into a frame in use. */
    method Store(f: nat, w: nat, v: nat)
      requires Valid() && f in used && w < WORDS
      modifies mem
      ensures Valid() && f < mem.Length && mem[..] == old(mem[..])[f := old(mem[f])[w := v]]
    {
      FreedFrame(start / FRAME_SIZE, avail / FRAME_SIZE, used, free, f);
      mem[f] := mem[f][w := v];
      Unlisted(old(mem[..]), mem[..], free, f, mem[f]);
    }

    /** A copy of a whole frame, or of the first `n` words of one, into a frame in use. */
    method CopyFrame(dst: nat, src: nat, n: nat)
      requires Valid() && dst in used && src in used && n <= WORDS
      modifies mem
      ensures Valid() && dst < mem.Length && src < mem.Length
      ensures mem[..] == old(mem[..])[dst := old(mem[src])[..n] + old(mem[dst])[n..]]
    {
      FreedFrame(start / FRAME_SIZE, avail / FRAME_SIZE, used, free, dst);
      FreedFrame(start / FRAME_SIZE, avail / FRAME_SIZE, used, free, src);
      mem[dst] := mem[src][..n] + mem[dst][n..];
      Unlisted(old(mem[..]), mem[..], free, dst, mem[dst]);
    }
  }

  lemma WholeFrames(avail: nat, limit: nat)
    requires avail <= limit && avail % FRAME_SIZE == 0 && limit % FRAME_SIZE == 0
    ensures (limit - avail) / FRAME_SIZE == 0 <==> avail == limit
    ensures avail < limit ==>
              avail + FRAME_SIZE <= limit && (limit - (avail + FRAME_SIZE)) / FRAME_SIZE == (limit - avail) / FRAME_SIZE - 1
  {
  }

  /** The list does not run through frames in use. */
  lemma Unlisted(m: seq<Frame>, m': seq<Frame>, free: seq<nat>, f: nat, contents: Frame)
    requires (forall k: nat {:trigger LinkedFrame(m, free, k)} | k < |free| :: LinkedFrame(m, free, k))
    requires f < |m| && f !in free && m' == m[f := contents]
    ensures forall k: nat {:trigger LinkedFrame(m', free, k)} | k < |free| :: LinkedFrame(m', free, k)
  {
    forall k: nat | k < |free| ensures LinkedFrame(m', free, k) {
      assert LinkedFrame(m, free, k);
      assert free[k] in free;
    }
  }

  lemma FreshFrame(lo: nat, hi: nat, used: set<nat>, free: seq<nat>)
    requires Partition(lo, hi, used, free) && lo <= hi
    ensures hi !in used && hi !in free && Partition(lo, hi + 1, used + {hi}, free)
  {
  }

  lemma ListedFrame(lo: nat, hi: nat, used: set<nat>, free: seq<nat>)
    requires Partition(lo, hi, used, free) && free != []
    ensures free[0] !in used && lo <= free[0] < hi && Partition(lo, hi, used + {free[0]}, free[1..])
  {
    assert free[0] in free && free[0] !in free[1..];
    assert forall f :: f in free <==> f == free[0] || f in free[1..];
  }

  lemma ListEmpty(lo: nat, hi: nat, used: set<nat>, free: seq<nat>)
    requires Partition(lo, hi, used, free) && 0 < lo
    ensures AddressOf(free, 0) == 0 <==> free == []
  {
    if free != [] {
      ListedFrame(lo, hi, used, free);
    }
  }

  lemma FreedFrame(lo: nat, hi: nat, used: set<nat>, free: seq<nat>, f: nat)
    requires Partition(lo, hi, used, free) && f in used
    ensures f !in free && lo <= f < hi && Partition(lo, hi, used - {f}, [f] + free)
  {
  }

  lemma Taken(m: seq<Frame>, fs: seq<nat>, m': seq<Frame>, free: seq<nat>, f: nat)
    requires Distinct(fs) && (forall k: nat | k < |fs| :: LinkedFrame(m, fs, k)) && f < |m|
    requires m' == m[f := ZeroFrame()]
    requires (fs != [] && f == fs[0] && free == fs[1..]) || (fs == [] == free)
    ensures forall k: nat | k < |free| :: LinkedFrame(m', free, k)
  {
    forall k: nat | k < |free| ensures LinkedFrame(m', free, k) {
      assert LinkedFrame(m, fs, k + 1);
      assert fs[0] != fs[k + 1];
    }
  }

  lemma Returned(m: seq<Frame>, free: seq<nat>, m': seq<Frame>, f: nat)
    requires (forall k: nat | k < |free| :: LinkedFrame(m, free, k)) && f < |m| == |m'| && f !in free
    requires (forall g: nat | g < |m| && g != f :: m'[g] == m[g]) && m'[f][0] == AddressOf(free, 0)
    ensures forall k: nat | k < |free| + 1 :: LinkedFrame(m', [f] + free, k)
  {
    forall k: nat | k < |free| + 1 ensures LinkedFrame(m', [f] + free, k) {
      if k > 0 {
        assert LinkedFrame(m, free, k - 1);
        assert free[k - 1] in free;
      }
    }
  }

  // ----- conservation -----

  function Interval(lo: nat, hi: nat): (s: set<nat>)
    requires lo <= hi
    ensures forall f :: f in s <==> lo <= f < hi
    ensures |s| == hi - lo
    decreases hi - lo
  {
    if lo == hi then {} else {lo} + Interval(lo + 1, hi)
  }

  ghost function Elements(s: seq<nat>): set<nat>
  {
    set f | f in s
  }

  lemma {:induction false} DistinctSize(s: seq<nat>)
    requires Distinct(s)
    ensures |Elements(s)| == |s|
  {
    if s != [] {
      DistinctSize(s[1..]);
      assert s[0] !in s[1..];
      assert Elements(s) == {s[0]} + Elements(s[1..]);
    }
  }

  /** Frames in use, frames on the list and frames never handed out always add up to the
      frames the kernel was given. */
  lemma FramesAreConserved(lo: nat, mid: nat, hi: nat, used: set<nat>, free: seq<nat>)
    requires lo <= mid <= hi && Partition(lo, mid, used, free)
    ensures |used| + |free| + (hi - mid) == hi - lo
  {
    DistinctSize(free);
    assert forall f | f in Elements(free) :: f in free;
    assert Interval(lo, mid) == used + Elements(free);
    assert used !! Elements(free);
  }
}
