/** The boundary-tag heap of kernel/heap.cc and test.dir/sbin/heap.c: one array of words and
    the head of the list of available blocks.  The two files share every operation but the
    search in malloc; realloc exists only in user code. */
module BoundaryTagHeap {
  import opened HeapSpec
  import opened HeapLemmas
  import opened HeapMemory
  import opened HeapShape
  import opened HeapSteps
  import opened HeapBytes

  class BlockHeap {
    const words: array<int>
    var avail: int
    ghost var h: Heap

    /** The array has at most 2^30 words because its size in bytes is a 32-bit value. */
    ghost predicate Valid()
      reads this, words
    {
      Inv(h) && Represents(words[..], avail, h) && words.Length <= 0x4000_0000
    }

    // ----- reading tags and links -----

    function SizeOf(i: int): nat
      requires 0 <= i < words.Length
      reads words
    {
      Abs(words[i])
    }

    function Left(i: int): int
      requires 0 < i <= words.Length
      reads words
    {
      i - 1 - SizeOf(i - 1) + 1
    }

    function Right(i: int): int
      requires 0 <= i < words.Length
      reads words
    {
      i + SizeOf(i)
    }

    // ----- writing tags and links -----

    /** Unlinks the k-th block of the list; only links of listed blocks change. */
    method Remove(i: int, ghost free: seq<int>, ghost k: nat)
      requires k < |free| && free[k] == i
      requires Spaced(free, words.Length) && Linked(words[..], avail, free)
      modifies words, `avail
      ensures Linked(words[..], avail, Without(free, i))
      ensures Framed(old(words[..]), words[..], free, 0, 0)
    {
      assert LinkAt(words[..], free, k) && Room(i, words.Length);
      assert k > 0 ==> Room(free[k - 1], words.Length);
      assert k + 1 < |free| ==> Room(free[k + 1], words.Length);
      var prevIndex := words[i + 2];
      var nextIndex := words[i + 1];
      if prevIndex == 0 {
        avail := nextIndex;
      } else {
        words[prevIndex + 1] := nextIndex;
      }
      if nextIndex != 0 {
        words[nextIndex + 2] := prevIndex;
      }
      UnlinkedRest(old(words[..]), old(avail), words[..], avail, free, k);
    }

    /** Makes the `ints` words from `i` an available block and puts it at the head of the list. */
    method MakeAvail(i: int, ints: int, ghost free: seq<int>)
      requires 4 <= ints && i + ints <= words.Length
      requires Spaced([i] + free, words.Length) && Linked(words[..], avail, free)
      requires !LinkWord(free, i) && !LinkWord(free, i + ints - 1)
      modifies words, `avail
      ensures Linked(words[..], avail, [i] + free)
      ensures TagAt(words[..], i, ints)
      ensures Framed(old(words[..]), words[..], free, i, i + ints)
    {
      assert Room(([i] + free)[0], words.Length);
      assert free != [] ==> Room(([i] + free)[1], words.Length) && Far(([i] + free)[0], ([i] + free)[1]);
      words[i] := ints;
      words[i + SizeOf(i) - 1] := ints;
      words[i + 1] := avail;
      words[i + 2] := 0;
      if avail != 0 {
        words[avail + 2] := i;
      }
      avail := i;
      LinkedFront(old(words[..]), old(avail), words[..], avail, free, i, ints);
    }

    method MakeTaken(i: int, ints: int)
      requires 0 <= i && 2 <= ints && i + ints <= words.Length
      modifies words
      ensures TagAt(words[..], i, -ints)
      ensures words[..] == old(words[..])[i := -ints][i + ints - 1 := -ints]
    {
      words[i] := -ints;
      words[i + SizeOf(i) - 1] := -ints;
    }

    // ----- initialisation -----

    /** heap_init, and heapInit up to the allocation of its lock. */
    constructor (len: int)
      requires 8 <= len <= 0x4000_0000
      ensures Valid() && fresh(words) && h == Initial(len)
    {
      words := new int[len];
      avail := 0;
      h := Initial(len);
      new;
      MakeTaken(0, 2);
      assert Room(([2] + [])[0], words.Length);
      MakeAvail(2, len - 4, []);
      ghost var m := words[..];
      MakeTaken(len - 2, 2);
      InitialInv(len);
      InitialRepresents(m, words[..], avail, len);
    }

    // ----- malloc -----

    /** The kernel's search: the smallest of the first 20 blocks that fit, 0 when none does. */
    method FindBest(ints: int) returns (it: int, mx: int)
      requires Readable(words[..], avail, h)
      ensures BestFit(h, ints, it, mx)
    {
      mx := 0x7FFF_FFFF;
      it := 0;
      var countDown := 20;
      var p := avail;
      ghost var k, best := 0, 0;
      while p != 0
        invariant Searching(h, ints, k, best, it, mx, countDown) && 0 < countDown
        invariant p == NextOf(h.free, k - 1)
        decreases |h.free| - k
      {
        assert ReadableAt(words[..], h, k);
        assert words[p] > 0;
        SearchStep(h, ints, k, best, it, mx, countDown);
        var sz := SizeOf(p);
        if sz >= ints {
          if sz < mx {
            mx := sz;
            it := p;
            best := 20 - countDown;
          }
          countDown := countDown - 1;
          if countDown == 0 {
            SearchDone(h, ints, k + 1, best, it, mx, countDown);
            return;
          }
        }
        p := words[p + 1];
        k := k + 1;
      }
      ListEnds(words[..], avail, h, k - 1);
      SearchDone(h, ints, k, best, it, mx, countDown);
    }

    /** The user's search: the first block that fits, 0 when none does. */
    method FindFirst(ints: int) returns (p: int)
      requires Readable(words[..], avail, h)
      ensures p == 0 <==> Fitting(h, h.free, ints) == []
      ensures p != 0 ==> p == Fitting(h, h.free, ints)[0]
    {
      p := avail;
      ghost var k := 0;
      while p != 0
        invariant 0 <= k <= |h.free| && p == NextOf(h.free, k - 1)
        invariant Fitting(h, h.free[..k], ints) == []
        decreases |h.free| - k
      {
        assert ReadableAt(words[..], h, k);
        FittingNext(h, h.free, k, ints);
        var sz := SizeOf(p);
        if sz >= ints {
          FittingPrefix(h, h.free, k + 1, ints);
          return;
        }
        p := words[p + 1];
        k := k + 1;
      }
      ListEnds(words[..], avail, h, k - 1);
      assert h.free[..k] == h.free;
    }

    /** Takes `ints` words of the available block `it`, leaving the rest available when it has
        four words or more: the tail of both mallocs. */
    method TakeFrom(it: int, mx: int, ints: int)
      requires Valid() && CanCarve(h, it, ints) && mx == h.tags[it]
      modifies this, words
      ensures Valid() && h == Carve(old(h), it, ints)
      ensures TakenKept(old(h), old(words[..]), words[..])
    {
      ghost var g, m, a := h, words[..], avail;
      CarveRoom(g, it, ints);
      TakeWords(it, mx, ints, g.free, FindListed(g, it));
      assert [] + Without(g.free, it) == Without(g.free, it);
      CarveRepresents(g, m, a, it, ints, words[..], avail);
      CarveKeepsInv(g, it, ints);
      h := Carve(g, it, ints);
    }

    method TakeWords(it: int, mx: int, ints: int, ghost free: seq<int>, ghost k: nat)
      requires k < |free| && free[k] == it
      requires Spaced(free, words.Length) && Linked(words[..], avail, free)
      requires 4 <= ints <= mx && 0 <= it && it + mx <= words.Length
      requires forall w | it <= w < it + mx :: !LinkWord(Without(free, it), w)
      requires mx - ints >= 4 ==> Spaced([it + ints] + Without(free, it), words.Length)
      modifies `avail, words
      ensures Framed(old(words[..]), words[..], free, it, it + mx)
      ensures mx - ints >= 4 ==> TagAt(words[..], it, -ints) && TagAt(words[..], it + ints, mx - ints)
      ensures mx - ints < 4 ==> TagAt(words[..], it, -mx)
      ensures Linked(words[..], avail, (if mx - ints >= 4 then [it + ints] else []) + Without(free, it))
    {
      ghost var m0, rest := words[..], Without(free, it);
      Remove(it, free, k);
      ghost var m1 := words[..];
      var extra := mx - ints;
      if extra >= 4 {
        MakeTaken(it, ints);
        ghost var m2 := words[..];
        LinkedFrame(m1, m2, avail, rest);
        MakeAvail(it + ints, extra, rest);
        FramedTwice(m0, m1, m2, words[..], free, rest, it, it + ints, it + mx);
        FramedTag(m2, words[..], rest, it, -ints, it + ints, it + mx);
      } else {
        MakeTaken(it, mx);
        ghost var m2 := words[..];
        LinkedFrame(m1, m2, avail, rest);
        FramedTwice(m0, m1, m2, m2, free, rest, it, it, it + mx);
        assert [] + rest == rest;
      }
    }

    /** The kernel's malloc. */
    method Malloc(bytes: int) returns (res: Ptr)
      requires Valid() && 0 <= bytes < 0x1_0000_0000
      modifies this, words
      ensures Valid()
      ensures bytes == 0 || res == Null ==> h == old(h) && words[..] == old(words[..])
      ensures bytes == 0 ==> res == Word(0)
      ensures bytes != 0 ==> (res == Null <==> Fitting(old(h), old(h).free, RequestInts(bytes)) == [])
      ensures bytes != 0 && bytes + 3 < 0x1_0000_0000 ==>
                (res == Null <==> forall i :: !HasRoom(old(h), i, bytes))
      ensures bytes + 3 >= 0x1_0000_0000 ==> (res == Null <==> forall i :: !Available(old(h), i))
      ensures bytes != 0 && res != Null ==> Allocated(old(h), bytes, res, h)
      ensures bytes != 0 && res != Null ==>
                BestFit(old(h), RequestInts(bytes), res.index - 1, SizeIn(old(h), res.index - 1))
      ensures TakenKept(old(h), old(words[..]), words[..])
    {
      AllKept(h, words[..], avail);
      if bytes == 0 { return Word(0); }
      FitsWhereRoom(h, bytes);
      var ints := ((bytes + 3) % 0x1_0000_0000) / 4 + 2;
      if ints < 4 { ints := 4; }
      ListReadable(words[..], avail, h);
      var it, mx := FindBest(ints);
      res := Null;
      if it != 0 {
        BestFits(h, ints, it, mx);
        TakeFrom(it, mx, ints);
        res := Word(it + 1);
      }
    }

    /** The user's malloc: the first block that fits. */
    method MallocFirstFit(bytes: int) returns (res: Ptr)
      requires Valid() && 0 <= bytes < 0x1_0000_0000
      modifies this, words
      ensures Valid()
      ensures bytes == 0 || res == Null ==> h == old(h) && words[..] == old(words[..])
      ensures bytes == 0 ==> res == Word(0)
      ensures bytes != 0 ==> (res == Null <==> Fitting(old(h), old(h).free, RequestInts(bytes)) == [])
      ensures bytes != 0 && bytes + 3 < 0x1_0000_0000 ==>
                (res == Null <==> forall i :: !HasRoom(old(h), i, bytes))
      ensures bytes + 3 >= 0x1_0000_0000 ==> (res == Null <==> forall i :: !Available(old(h), i))
      ensures bytes != 0 && res != Null ==> Allocated(old(h), bytes, res, h)
      ensures bytes != 0 && res != Null ==> FirstFit(old(h), bytes, res.index - 1)
      ensures TakenKept(old(h), old(words[..]), words[..])
    {
      AllKept(h, words[..], avail);
      if bytes == 0 { return Word(0); }
      FitsWhereRoom(h, bytes);
      var ints := ((bytes + 3) % 0x1_0000_0000) / 4 + 2;
      if ints < 4 { ints := 4; }
      ListReadable(words[..], avail, h);
      var p := FindFirst(ints);
      res := Null;
      if p != 0 {
        FirstFits(h, words[..], avail, ints);
        var sz := SizeOf(p);
        TakeFrom(p, sz, ints);
        res := Word(p + 1);
      }
    }

    // ----- free -----

    /** Null and the zero-size pointer are ignored, and so is a block that is already
        available; the kernel also reports the latter. */
    method Free(p: Ptr)
      requires Valid()
      requires p.Word? && p.index != 0 ==> p.index - 1 in h.tags && p.index != 1 && p.index != words.Length - 1
      modifies this, words
      ensures Valid()
      ensures p.Word? && Live(old(h), p.index - 1) ==> Releases(old(h), p.index - 1, h)
      ensures !(p.Word? && Live(old(h), p.index - 1)) ==> h == old(h) && words[..] == old(words[..])
      ensures OthersKept(old(h), old(words[..]), words[..], if p.Word? then p.index - 1 else -1)
    {
      AllKept(h, words[..], avail);
      if p == Null { return; }
      NoBlockBelow(h, -1);
      if p == Word(0) { return; }
      var idx := p.index - 1;
      BlockFacts(h, idx);
      assert TagAt(words[..], idx, h.tags[idx]);
      if !(words[idx] < 0) { return; }
      ghost var g, m, a := h, words[..], avail;
      ghost var l, r := NeighboursExist(g, idx);
      NeighbourWords(g, m, a, l, idx, r);
      assert Left(idx) == l && Right(idx) == r;
      ReleaseRoom(g, l, idx, r);
      ReleaseWords(idx, l, r, g);
      ReleaseRepresents(g, m, a, l, idx, r, words[..], avail);
      ReleaseKeepsInv(g, l, idx, r);
      h := Release(g, l, idx, r);
      assert Frees(g, l, idx, r, h);
    }

    method ReleaseWords(index: int, ghost l: int, ghost r: int, ghost g: Heap)
      requires Neighbours(g, l, index, r) && ReleaseReady(g, l, index, r)
      requires |words[..]| == g.len && Linked(words[..], avail, g.free)
      requires 0 < index < words.Length && Left(index) == l && 0 <= l && Right(index) == r < words.Length
      requires words[l] == g.tags[l] && words[r] == g.tags[r] && words[index] == g.tags[index]
      modifies words, `avail
      ensures ReleaseWritten(g, l, index, r, old(words[..]), words[..])
      ensures Linked(words[..], avail, Release(g, l, index, r).free)
    {
      ghost var m := words[..];
      var idx := index;
      var sz := SizeOf(idx);
      var leftIndex := Left(idx);
      var rightIndex := Right(idx);
      if words[leftIndex] > 0 {
        Remove(leftIndex, g.free, FindListed(g, l));
        idx := leftIndex;
        sz := sz + SizeOf(leftIndex);
      }
      ghost var m1 := words[..];
      assert m1[r] == g.tags[r];
      if words[rightIndex] > 0 {
        FewerLinkWords(Free1(g, l), g.free, r);
        Remove(rightIndex, Free1(g, l), FindIn(Free1(g, l), r));
        sz := sz + SizeOf(rightIndex);
      }
      ghost var m2 := words[..];
      MakeAvail(idx, sz, Free2(g, l, r));
      FramedThrice(m, m1, m2, words[..], g.free, Free1(g, l), Free2(g, l, r), idx, idx + sz);
    }

    // ----- the user's realloc -----

    /** A program stores into a live block. */
    method Store(i: int, k: int, v: int)
      requires Valid() && Live(h, i) && 0 <= k < Abs(h.tags[i]) - 2
      requires 0 <= i && End(h, i) <= words.Length
      modifies words
      ensures Valid() && words[i + 1 + k] == v
      ensures forall w | 0 <= w < words.Length && w != i + 1 + k :: words[w] == old(words[w])
    {
      ghost var m := words[..];
      words[i + 1 + k] := v;
      PayloadWritten(h, m, avail, words[..], i);
    }

    /** Copies the block to a new one and frees it.  When malloc fails the block is freed all
        the same.  As many bytes as the smaller of the two sizes are the same afterwards. */
    method Realloc(p: Ptr, newSize: int) returns (res: Ptr)
      requires Valid() && 0 <= newSize && newSize + 3 < 0x1_0000_0000
      requires p.Word? && p.index + newSize != 0 ==>
                 p.index - 1 in h.tags && p.index != 1 && p.index != words.Length - 1
      modifies this, words
      ensures Valid()
      ensures p.Null? && newSize == 0 ==> res == Word(0) && h == old(h)
      ensures p.Null? && newSize != 0 ==>
                && (res == Null <==> forall i :: !HasRoom(old(h), i, newSize))
                && (res == Null ==> h == old(h))
                && (res != Null ==> Allocated(old(h), newSize, res, h))
                && (res != Null ==> FirstFit(old(h), newSize, res.index - 1))
      ensures p.Word? && newSize == 0 ==> res == Null
      ensures p.Word? && !Live(old(h), p.index - 1) ==> res == Null && h == old(h)
      ensures p.Word? && Live(old(h), p.index - 1) && res == Null ==> Releases(old(h), p.index - 1, h)
      ensures p.Word? && Live(old(h), p.index - 1) && newSize != 0 ==>
                (res == Null <==> forall i :: !HasRoom(old(h), i, newSize))
      ensures p.Word? && Live(old(h), p.index - 1) && res != Null ==>
                && FirstFit(old(h), newSize, res.index - 1)
                && Moved(old(h), p.index - 1, newSize, res, h)
                && SameContents(old(words[..]), p.index, words[..], res.index, Kept(old(h), p.index - 1, newSize))
      ensures OthersKept(old(h), old(words[..]), words[..], if p.Word? then p.index - 1 else -1)
    {
      if p == Null {
        res := MallocFirstFit(newSize);
        return;
      }
      NoBlockBelow(h, -1);
      if newSize == 0 {
        Free(p);
        return Null;
      }
      var idx := p.index - 1;
      BlockFacts(h, idx);
      assert TagAt(words[..], idx, h.tags[idx]);
      if !(words[idx] < 0) {
        AllKept(h, words[..], avail);
        return Null;
      }
      res := Move(idx, newSize);
    }

    method Move(idx: nat, newSize: int) returns (res: Ptr)
      requires Valid() && Live(h, idx) && 0 < newSize && newSize + 3 < 0x1_0000_0000
      modifies this, words
      ensures Valid()
      ensures res == Null ==> Releases(old(h), idx, h)
      ensures res == Null <==> forall i :: !HasRoom(old(h), i, newSize)
      ensures res != Null ==> FirstFit(old(h), newSize, res.index - 1)
      ensures res != Null ==>
                && Moved(old(h), idx, newSize, res, h)
                && SameContents(old(words[..]), idx + 1, words[..], res.index, Kept(old(h), idx, newSize))
      ensures OthersKept(old(h), old(words[..]), words[..], idx)
    {
      ghost var g, m0 := h, words[..];
      BlockFacts(h, idx);
      assert TagAt(words[..], idx, h.tags[idx]);
      var sz := SizeOf(idx) * 4;
      res := MallocFirstFit(newSize);
      if res != Null {
        CopyAndFree(idx, sz, newSize, res, g, m0);
      } else {
        Free(Word(idx + 1));
      }
    }

    method CopyAndFree(idx: nat, sz: nat, newSize: int, res: Ptr, ghost g: Heap, ghost m0: seq<int>)
      requires Valid() && 0 < newSize && newSize + 3 < 0x1_0000_0000
      requires Inv(g) && Live(g, idx) && |m0| == g.len && sz == 4 * SizeIn(g, idx)
      requires Allocated(g, newSize, res, h) && TakenKept(g, m0, words[..])
      modifies this, words
      ensures Valid() && Releases(old(h), idx, h)
      ensures SameContents(m0, idx + 1, words[..], res.index, Kept(g, idx, newSize))
      ensures OthersKept(g, m0, words[..], idx)
    {
      ghost var g1, m1 := h, words[..];
      OldAndNew(g, idx, newSize, res, g1);
      var n := if newSize > sz then sz else newSize;
      CopyInto(res.index - 1, idx, n);
      ghost var m2 := words[..];
      Free(Word(idx + 1));
      MoveDone(g, g1, idx, newSize, res, m0, m1, m2, words[..], n);
    }

    method CopyInto(n: int, idx: int, bytes: int)
      requires Valid() && Live(h, n) && Live(h, idx) && n != idx && 0 <= n && 0 <= idx
      requires 0 <= bytes <= 4 * (Abs(h.tags[n]) - 2) && bytes <= 4 * Abs(h.tags[idx])
      requires End(h, n) <= idx || End(h, idx) <= n
      requires End(h, n) <= words.Length && End(h, idx) < words.Length
      modifies words
      ensures Valid()
      ensures n + 1 + (bytes + 3) / 4 <= words.Length && idx + 1 + (bytes + 3) / 4 <= words.Length
      ensures Bytes(words[..], n + 1, bytes) == Bytes(old(words[..]), idx + 1, bytes)
      ensures OthersKept(h, old(words[..]), words[..], n)
    {
      ghost var m := words[..];
      CopyBytes(words, n + 1, idx + 1, bytes);
      PayloadWritten(h, m, avail, words[..], n);
    }
  }
}
