/** What the invariant says about a heap as a whole, and about every run. */
module HeapShape {
  import opened HeapSpec
  import opened HeapLemmas

  // ----- walking the blocks from left to right -----

  ghost function BlocksFrom(h: Heap, i: int): seq<int>
    requires Tiled(h) && i in h.tags
    decreases h.len - i
  {
    assert Within(h, i) && Chained(h, i);
    [i] + if End(h, i) == h.len then [] else BlocksFrom(h, End(h, i))
  }

  ghost function SumOfSizes(h: Heap, blocks: seq<int>): int
    requires forall j | 0 <= j < |blocks| :: blocks[j] in h.tags
  {
    if blocks == [] then 0 else Abs(h.tags[blocks[0]]) + SumOfSizes(h, blocks[1..])
  }

  /** The walk by `right` from block `i` meets every block from there on once, in address
      order. */
  lemma {:induction false} WalkMeetsEveryBlock(h: Heap, i: int)
    requires Tiled(h) && i in h.tags
    ensures var bs := BlocksFrom(h, i);
      && (forall x :: x in bs <==> x in h.tags && i <= x)
      && (forall j, k | 0 <= j < k < |bs| :: bs[j] < bs[k])
    decreases h.len - i
  {
    assert Within(h, i) && Chained(h, i);
    forall x | x in h.tags && i < x ensures End(h, i) <= x < h.len {
      NothingInside(h, i, x);
    }
    if End(h, i) < h.len {
      WalkMeetsEveryBlock(h, End(h, i));
      FirstOfWalk(h, i, BlocksFrom(h, End(h, i)));
    }
  }

  /** The walk from a block is that block and the walk from its end. */
  lemma FirstOfWalk(h: Heap, i: int, rest: seq<int>)
    requires i in h.tags && i < End(h, i)
    requires forall x | x in h.tags && i < x :: End(h, i) <= x
    requires forall x :: x in rest <==> x in h.tags && End(h, i) <= x
    requires forall j, k | 0 <= j < k < |rest| :: rest[j] < rest[k]
    ensures forall x :: x in [i] + rest <==> x in h.tags && i <= x
    ensures forall j, k | 0 <= j < k < |[i] + rest| :: ([i] + rest)[j] < ([i] + rest)[k]
  {
    assert forall j | 0 <= j < |rest| :: rest[j] in rest;
  }

  /** The sizes met by that walk add up to the rest of the heap. */
  lemma {:induction false} WalkSumsToLength(h: Heap, i: int)
    requires Tiled(h) && i in h.tags
    ensures forall j | 0 <= j < |BlocksFrom(h, i)| :: BlocksFrom(h, i)[j] in h.tags
    ensures SumOfSizes(h, BlocksFrom(h, i)) == h.len - i
    decreases h.len - i
  {
    assert Within(h, i) && Chained(h, i);
    if End(h, i) < h.len {
      WalkSumsToLength(h, End(h, i));
      assert BlocksFrom(h, i)[1..] == BlocksFrom(h, End(h, i));
    } else {
      assert BlocksFrom(h, i)[1..] == [];
    }
  }

  ghost function AvailableFrom(h: Heap, i: int): set<int>
  {
    set x | x in h.tags && h.tags[x] > 0 && i <= x
  }

  ghost function TakenFrom(h: Heap, i: int): set<int>
  {
    set x | x in h.tags && h.tags[x] < 0 && i <= x
  }

  lemma SplitFrom(h: Heap, i: int)
    requires Inv(h) && i in h.tags
    ensures AvailableFrom(h, i) == (if h.tags[i] > 0 then {i} else {}) + AvailableFrom(h, End(h, i))
    ensures TakenFrom(h, i) == (if h.tags[i] < 0 then {i} else {}) + TakenFrom(h, End(h, i))
    ensures i !in AvailableFrom(h, End(h, i)) && i !in TakenFrom(h, End(h, i))
    ensures End(h, i) == h.len ==> AvailableFrom(h, End(h, i)) == {} == TakenFrom(h, End(h, i))
  {
    BlockFacts(h, i);
    forall x | x in h.tags ensures x < h.len && (i < x ==> End(h, i) <= x) {
      NothingInside(h, i, x);
      BlockFacts(h, x);
    }
  }

  lemma {:induction false} CountFrom(h: Heap, i: int)
    requires Inv(h) && i in h.tags
    ensures |AvailableFrom(h, i)| + (if h.tags[i] < 0 then 1 else 0) <= |TakenFrom(h, i)|
    decreases h.len - i
  {
    BlockFacts(h, i);
    SplitFrom(h, i);
    assert Chained(h, i);
    assert Available(h, i) ==> RightTaken(h, i);
    if End(h, i) in h.tags {
      CountFrom(h, End(h, i));
    } else {
      assert End(h, i) == h.len;
    }
  }

  lemma {:induction false} SizeOfSet(s: seq<int>)
    requires NoRepeats(s)
    ensures |set x | x in s| == |s|
  {
    if s != [] {
      SizeOfSet(s[1..]);
      assert s[0] !in s[1..];
      assert (set x | x in s) == {s[0]} + set x | x in s[1..];
    }
  }

  /** Coalescing is complete: there are always fewer available blocks than taken ones. */
  lemma FewerAvailableThanTaken(h: Heap)
    requires Inv(h)
    ensures |h.free| + 1 <= |set i | i in h.tags && h.tags[i] < 0|
  {
    CountFrom(h, 0);
    SizeOfSet(h.free);
    forall x | x in h.tags ensures 0 <= x { BlockFacts(h, x); }
    forall x ensures x in AvailableFrom(h, 0) <==> x in h.free {
      assert Available(h, x) <==> OnList(h, x);
    }
    assert AvailableFrom(h, 0) == set x | x in h.free;
    assert TakenFrom(h, 0) == set i | i in h.tags && h.tags[i] < 0;
  }

  // ----- the taken blocks determine the heap -----

  ghost function Taken(h: Heap): map<int, int>
  {
    map i | i in h.tags && h.tags[i] < 0 :: h.tags[i]
  }

  lemma AvailableInBoth(h: Heap, g: Heap, i: int)
    requires Inv(h) && Inv(g) && h.len == g.len && Taken(h) == Taken(g)
    requires i in h.tags && h.tags[i] > 0
    ensures i in g.tags && g.tags[i] == h.tags[i]
  {
    AvailableFacts(h, i);
    var l := LeftExists(h, i);
    assert Available(h, l) ==> RightTaken(h, l);
    assert Within(h, l);
    assert l in Taken(h) && End(h, i) in Taken(h);
    assert l in Taken(g) && End(h, i) in Taken(g);
    BlockFacts(g, l);
    assert Chained(g, l);
    assert i in g.tags && i !in Taken(g);
    BlockFacts(g, i);
    assert Available(g, i);
    AvailableFacts(g, i);
    assert End(g, i) in Taken(g);
    assert End(h, i) in g.tags && Apart(g, i, End(h, i));
    assert End(g, i) in h.tags && Apart(h, i, End(g, i));
    BlockFacts(h, End(g, i));
    BlockFacts(g, End(h, i));
  }

  /** Two heaps with the same taken blocks have the same blocks altogether, whatever the order
      of the calls that led to them. */
  lemma TakenDeterminesBlocks(h: Heap, g: Heap)
    requires Inv(h) && Inv(g) && h.len == g.len && Taken(h) == Taken(g)
    ensures h.tags == g.tags
  {
    forall i | i in h.tags ensures i in g.tags && g.tags[i] == h.tags[i] {
      assert Within(h, i);
      if h.tags[i] > 0 { AvailableInBoth(h, g, i); } else { assert i in Taken(h); }
    }
    forall i | i in g.tags ensures i in h.tags {
      assert Within(g, i);
      if g.tags[i] > 0 { AvailableInBoth(g, h, i); } else { assert i in Taken(g); }
    }
  }

  /** With only the two end blocks taken, everything between them is one available block. */
  lemma EmptyHeapIsOneBlock(h: Heap)
    requires Inv(h) && (forall i | i in h.tags && h.tags[i] < 0 :: i == 0 || i == h.len - 2)
    ensures h == Initial(h.len)
  {
    InitialInv(h.len);
    var g := Initial(h.len);
    assert forall i | i in Taken(h) :: i in Taken(g) && Taken(g)[i] == Taken(h)[i];
    assert forall i | i in Taken(g) :: i in Taken(h);
    TakenDeterminesBlocks(h, g);
    assert forall i :: Available(h, i) <==> OnList(h, i);
    assert Available(h, 2);
    forall k | 0 <= k < |h.free| ensures h.free[k] == 2 {
      assert OnList(h, h.free[k]);
    }
    SizeOfSet(h.free);
    assert (set x | x in h.free) == {2};
  }

  // ----- what allocation and release do to the taken blocks -----

  function CarvedSize(h: Heap, it: int, ints: int): int
    requires it in h.tags
  {
    if h.tags[it] - ints >= 4 then ints else h.tags[it]
  }

  lemma CarveTakes(h: Heap, it: int, ints: int)
    requires CanCarve(h, it, ints)
    ensures Live(Carve(h, it, ints), it) && !Live(h, it)
    ensures Taken(Carve(h, it, ints)) == Taken(h)[it := -CarvedSize(h, it, ints)]
    ensures ints <= CarvedSize(h, it, ints) <= ints + 3
  {
    AvailableFacts(h, it);
    if ints < h.tags[it] { CutIsFresh(h, it, ints); }
  }

  lemma ReleaseGives(h: Heap, l: int, idx: int, r: int)
    requires Neighbours(h, l, idx, r)
    ensures Taken(Release(h, l, idx, r)) == Taken(h) - {idx}
  {
    ReleaseSpan(h, l, idx, r);
  }

  /** Freeing the block that malloc has just cut restores every block boundary. */
  lemma FreeUndoesMalloc(h: Heap, it: int, ints: int, l: int, r: int)
    requires CanCarve(h, it, ints)
    requires Neighbours(Carve(h, it, ints), l, it, r)
    ensures Release(Carve(h, it, ints), l, it, r).tags == h.tags
  {
    var h1 := Carve(h, it, ints);
    var h2 := Release(h1, l, it, r);
    CarveTakes(h, it, ints);
    ReleaseKeepsInv(h1, l, it, r);
    ReleaseGives(h1, l, it, r);
    assert Taken(h2) == Taken(h);
    TakenDeterminesBlocks(h, h2);
  }

  /** Two releases give the same blocks in either order. */
  lemma ReleasesCommute(h: Heap, i: int, j: int, a: Heap, ab: Heap, b: Heap, ba: Heap)
    requires Inv(h) && Releases(h, i, a) && Releases(a, j, ab)
    requires Releases(h, j, b) && Releases(b, i, ba)
    ensures ab.tags == ba.tags
  {
    ReleasesTakes(h, i, a);
    ReleasesTakes(a, j, ab);
    ReleasesTakes(h, j, b);
    ReleasesTakes(b, i, ba);
    RemovalsCommute(Taken(h), i, j);
    TakenDeterminesBlocks(ab, ba);
  }

  lemma RemovalsCommute(m: map<int, int>, i: int, j: int)
    ensures m - {i} - {j} == m - {j} - {i}
  {
  }

  ghost predicate Releases(h: Heap, idx: int, h': Heap)
  {
    exists l, r :: Frees(h, l, idx, r, h')
  }

  lemma ReleasesTakes(h: Heap, idx: int, h': Heap)
    requires Releases(h, idx, h')
    ensures Inv(h') && h'.len == h.len && Taken(h') == Taken(h) - {idx}
  {
    var l, r :| Frees(h, l, idx, r, h');
    ReleaseKeepsInv(h, l, idx, r);
    ReleaseGives(h, l, idx, r);
  }

  // ----- requests -----

  /** The block of `RequestInts(bytes)` words has room for `bytes` bytes between its tags
      exactly when adding 3 to the request does not wrap. */
  lemma RequestHoldsBytes(bytes: int)
    requires 0 <= bytes < 0x1_0000_0000
    ensures bytes <= 4 * (RequestInts(bytes) - 2) <==> bytes + 3 < 0x1_0000_0000
  {
  }

  /** No smaller block would do: a request takes the fewest words, four or more, that have
      room for the bytes between the two tags.  When adding 3 wraps it takes four. */
  lemma RequestIsLeast(bytes: int, n: int)
    requires 0 <= bytes < 0x1_0000_0000
    ensures bytes + 3 < 0x1_0000_0000 && 4 <= n && bytes <= 4 * (n - 2) ==> RequestInts(bytes) <= n
    ensures bytes + 3 >= 0x1_0000_0000 ==> RequestInts(bytes) == 4
  {
  }

  /** Block `i` is available and has room for `bytes` bytes between its tags. */
  ghost predicate HasRoom(h: Heap, i: int, bytes: int)
  {
    Available(h, i) && 4 <= h.tags[i] && bytes <= 4 * (h.tags[i] - 2)
  }

  /** Nothing fits exactly when no available block has room for the bytes; a request near
      2 to the 32, which wraps, fits every available block. */
  lemma FitsWhereRoom(h: Heap, bytes: int)
    requires Inv(h) && 0 <= bytes < 0x1_0000_0000
    ensures bytes + 3 < 0x1_0000_0000 ==>
              (Fitting(h, h.free, RequestInts(bytes)) == [] <==> forall i :: !HasRoom(h, i, bytes))
    ensures bytes + 3 >= 0x1_0000_0000 ==>
              (Fitting(h, h.free, RequestInts(bytes)) == [] <==> forall i :: !Available(h, i))
  {
    var ints := RequestInts(bytes);
    var fits := Fitting(h, h.free, ints);
    FittingElements(h, h.free, ints);
    RequestHoldsBytes(bytes);
    forall i | Available(h, i) && (bytes + 3 < 0x1_0000_0000 ==> HasRoom(h, i, bytes)) ensures i in fits {
      AvailableFacts(h, i);
      RequestIsLeast(bytes, h.tags[i]);
      assert OnList(h, i);
    }
    if fits != [] {
      assert fits[0] in fits;
      assert OnList(h, fits[0]) && Available(h, fits[0]);
      assert bytes + 3 < 0x1_0000_0000 ==> HasRoom(h, fits[0], bytes);
    }
  }

  // ----- runs -----

  ghost predicate Allocates(h: Heap, it: int, ints: int, h': Heap)
  {
    CanCarve(h, it, ints) && h' == Carve(h, it, ints)
  }

  ghost predicate Frees(h: Heap, l: int, idx: int, r: int, h': Heap)
  {
    Neighbours(h, l, idx, r) && h' == Release(h, l, idx, r)
  }

  ghost predicate Step(h: Heap, h': Heap)
  {
    || (exists it, ints :: Allocates(h, it, ints, h'))
    || (exists l, idx, r :: Frees(h, l, idx, r, h'))
    || h' == h
  }

  ghost predicate IsRun(run: seq<Heap>, len: int)
  {
    && 8 <= len && |run| > 0 && run[0] == Initial(len)
    && (forall k | 0 < k < |run| :: Step(run[k - 1], run[k]))
  }

  lemma StepKeepsInv(h: Heap, h': Heap)
    requires Inv(h) && Step(h, h')
    ensures Inv(h') && h'.len == h.len
  {
    if it, ints :| Allocates(h, it, ints, h') {
      CarveKeepsInv(h, it, ints);
    } else if l, idx, r :| Frees(h, l, idx, r, h') {
      ReleaseKeepsInv(h, l, idx, r);
    }
  }

  /** Every heap of every run of allocations and releases satisfies the invariant, and two
      moments of one run at which the same blocks are taken have the same blocks. */
  lemma {:induction false} RunKeepsInv(run: seq<Heap>, len: int)
    requires IsRun(run, len)
    ensures forall k | 0 <= k < |run| :: Inv(run[k]) && run[k].len == len
    ensures forall j, k | 0 <= j < |run| && 0 <= k < |run| && Taken(run[j]) == Taken(run[k]) ::
              run[j].tags == run[k].tags
  {
    InitialInv(len);
    var n := 1;
    while n < |run|
      invariant 1 <= n <= |run|
      invariant forall k | 0 <= k < n :: Inv(run[k]) && run[k].len == len
    {
      StepKeepsInv(run[n - 1], run[n]);
      n := n + 1;
    }
    forall j, k | 0 <= j < |run| && 0 <= k < |run| && Taken(run[j]) == Taken(run[k])
      ensures run[j].tags == run[k].tags
    {
      TakenDeterminesBlocks(run[j], run[k]);
    }
  }
}
