/** What every heap operation keeps, and what the shape of a heap says about its blocks. */
module HeapLemmas {
  import opened HeapSpec

  // ----- the free list -----

  lemma {:induction false} WithoutNoRepeats(s: seq<int>, x: int)
    requires NoRepeats(s)
    ensures NoRepeats(Without(s, x))
  {
    if s != [] {
      WithoutNoRepeats(s[1..], x);
      assert s[0] !in s[1..];
    }
  }

  lemma {:induction false} WithoutAt(s: seq<int>, k: nat)
    requires NoRepeats(s) && k < |s|
    ensures Without(s, s[k]) == s[..k] + s[k + 1..]
  {
    if k == 0 {
      assert s[0] !in s[1..];
      WithoutAbsent(s[1..], s[0]);
      assert s[..0] + s[1..] == s[1..];
    } else {
      var t := s[1..];
      assert NoRepeats(t) && t[k - 1] == s[k] && s[0] != s[k];
      WithoutAt(t, k - 1);
      assert s[..k] == [s[0]] + t[..k - 1] && s[k + 1..] == t[k..];
    }
  }

  lemma {:induction false} WithoutAbsent(s: seq<int>, x: int)
    requires x !in s
    ensures Without(s, x) == s
  {
    if s != [] {
      assert s == [s[0]] + s[1..];
      WithoutAbsent(s[1..], x);
    }
  }

  // ----- searching -----

  lemma {:induction false} FittingElements(h: Heap, s: seq<int>, ints: int)
    ensures forall x :: x in Fitting(h, s, ints) <==> x in s && SizeIn(h, x) >= ints
  {
    if s != [] {
      FittingElements(h, s[1..], ints);
    }
  }

  lemma {:induction false} FittingAppend(h: Heap, s: seq<int>, t: seq<int>, ints: int)
    ensures Fitting(h, s + t, ints) == Fitting(h, s, ints) + Fitting(h, t, ints)
  {
    if s == [] {
      assert s + t == t;
    } else {
      assert (s + t)[0] == s[0] && (s + t)[1..] == s[1..] + t;
      FittingAppend(h, s[1..], t, ints);
      assert Fitting(h, s + t, ints)
          == (if SizeIn(h, s[0]) >= ints then [s[0]] else []) + Fitting(h, s[1..] + t, ints);
    }
  }

  lemma FittingNext(h: Heap, s: seq<int>, k: nat, ints: int)
    requires k < |s|
    ensures Fitting(h, s[..k + 1], ints)
         == Fitting(h, s[..k], ints) + (if SizeIn(h, s[k]) >= ints then [s[k]] else [])
  {
    FittingAppend(h, s[..k], [s[k]], ints);
    assert s[..k + 1] == s[..k] + [s[k]];
  }

  /** The blocks found so far come first among all fitting blocks. */
  lemma FittingPrefix(h: Heap, s: seq<int>, k: nat, ints: int)
    requires k <= |s|
    ensures Fitting(h, s[..k], ints) <= Fitting(h, s, ints)
  {
    FittingAppend(h, s[..k], s[k..], ints);
    assert s == s[..k] + s[k..];
  }

  // ----- blocks -----

  lemma BlockFacts(h: Heap, i: int)
    requires Inv(h) && i in h.tags
    ensures 0 <= i && 2 <= Abs(h.tags[i]) && End(h, i) <= h.len
    ensures i != 0 && i != h.len - 2 ==> 4 <= Abs(h.tags[i]) && 2 <= i && End(h, i) <= h.len - 2 && End(h, i) in h.tags
  {
    assert Within(h, i);
    if i != 0 && i != h.len - 2 {
      assert Apart(h, 0, i) && Apart(h, i, h.len - 2) && Roomy(h, i) && Chained(h, i);
    }
  }

  lemma NoBlockBelow(h: Heap, i: int)
    requires Tiled(h) && i < 0
    ensures i !in h.tags
  {
    assert i in h.tags ==> Within(h, i);
  }

  lemma AvailableFacts(h: Heap, i: int)
    requires Inv(h) && (Available(h, i) || OnList(h, i))
    ensures Available(h, i) && OnList(h, i) && 4 <= h.tags[i] && 2 <= i && End(h, i) <= h.len - 2
    ensures RightTaken(h, i)
  {
    assert Available(h, i);
    BlockFacts(h, i);
    assert RightTaken(h, i);
  }

  /** No block starts inside block `i`. */
  lemma NothingInside(h: Heap, i: int, x: int)
    requires Tiled(h) && i in h.tags
    ensures x in h.tags && i < x ==> End(h, i) <= x < h.len
  {
    if x in h.tags && i < x {
      assert Within(h, i) && Within(h, x) && Apart(h, i, x);
    }
  }

  lemma LeftExists(h: Heap, i: int) returns (l: int)
    requires Tiled(h) && i in h.tags && 0 < i
    ensures IsLeft(h, i, l)
  {
    assert Within(h, i);
    l := LeftFrom(h, 0, i);
  }

  lemma {:induction false} LeftFrom(h: Heap, from: int, i: int) returns (l: int)
    requires Tiled(h) && i in h.tags && from in h.tags && from < i
    ensures IsLeft(h, i, l)
    decreases i - from
  {
    assert Apart(h, from, i) && Chained(h, from) && Within(h, i) && Within(h, from);
    if End(h, from) == i {
      l := from;
    } else {
      l := LeftFrom(h, End(h, from), i);
    }
  }

  lemma LeftUnique(h: Heap, i: int, l: int, m: int)
    requires Tiled(h) && IsLeft(h, i, l) && IsLeft(h, i, m)
    ensures l == m
  {
    assert Within(h, l) && Within(h, m);
    assert l != m ==> Apart(h, l, m);
  }

  // ----- allocation -----

  lemma InitialInv(len: int)
    requires 8 <= len
    ensures Inv(Initial(len))
  {
  }

  ghost predicate CanCarve(h: Heap, it: int, ints: int)
  {
    Inv(h) && Available(h, it) && 4 <= ints <= h.tags[it]
  }

  lemma CarveKeepsInv(h: Heap, it: int, ints: int)
    requires CanCarve(h, it, ints)
    ensures Inv(Carve(h, it, ints))
  {
    CarveTiled(h, it, ints);
    CarveCoalesced(h, it, ints);
    CarveListed(h, it, ints);
    CarveFenced(h, it, ints);
  }

  lemma CutIsFresh(h: Heap, it: int, ints: int)
    requires CanCarve(h, it, ints) && ints < h.tags[it]
    ensures it + ints !in h.tags
  {
    NothingInside(h, it, it + ints);
  }

  lemma CarveFenced(h: Heap, it: int, ints: int)
    requires CanCarve(h, it, ints)
    ensures Fenced(Carve(h, it, ints))
  {
    AvailableFacts(h, it);
    var h' := Carve(h, it, ints);
    forall i | i in h'.tags && i != 0 && i != h.len - 2 ensures Roomy(h', i) {
      if i in h.tags { assert Roomy(h, i); }
    }
  }

  lemma CarveListed(h: Heap, it: int, ints: int)
    requires CanCarve(h, it, ints)
    ensures Listed(Carve(h, it, ints))
  {
    var h' := Carve(h, it, ints);
    var rest := Without(h.free, it);
    WithoutNoRepeats(h.free, it);
    if h.tags[it] - ints >= 4 {
      CutIsFresh(h, it, ints);
      assert !Available(h, it + ints);
      assert !OnList(h, it + ints);
      assert h'.free == [it + ints] + rest;
    } else {
      assert h'.free == rest;
    }
    forall i ensures Available(h', i) <==> OnList(h', i) {
      assert Available(h, i) <==> OnList(h, i);
    }
  }

  lemma CarveTiled(h: Heap, it: int, ints: int)
    requires CanCarve(h, it, ints)
    ensures Tiled(Carve(h, it, ints))
  {
    var h' := Carve(h, it, ints);
    AvailableFacts(h, it);
    forall i | i in h'.tags ensures Within(h', i) && Chained(h', i) {
      if i in h.tags { assert Within(h, i) && Chained(h, i); }
    }
    forall i, j | i in h'.tags && j in h'.tags && i != j ensures Apart(h', i, j) {
      CarveApart(h, it, ints, i, j);
    }
  }

  /** Each block after the cut lies inside one block before it. */
  lemma CarveApart(h: Heap, it: int, ints: int, i: int, j: int)
    requires CanCarve(h, it, ints)
    requires i in Carve(h, it, ints).tags && j in Carve(h, it, ints).tags && i != j
    ensures Apart(Carve(h, it, ints), i, j)
  {
    if ints < h.tags[it] { CutIsFresh(h, it, ints); }
    var i0 := if i in h.tags then i else it;
    var j0 := if j in h.tags then j else it;
    assert i0 != j0 ==> Apart(h, i0, j0);
  }

  lemma CarveCoalesced(h: Heap, it: int, ints: int)
    requires CanCarve(h, it, ints)
    ensures Coalesced(Carve(h, it, ints))
  {
    var h' := Carve(h, it, ints);
    AvailableFacts(h, it);
    if ints < h.tags[it] { CutIsFresh(h, it, ints); }
    forall i | Available(h', i) ensures RightTaken(h', i) {
      if i in h.tags && i != it {
        assert Available(h, i) && RightTaken(h, i);
      }
    }
  }

  // ----- release -----

  ghost predicate Neighbours(h: Heap, l: int, idx: int, r: int)
  {
    Inv(h) && Live(h, idx) && IsLeft(h, idx, l) && r == End(h, idx) && r in h.tags
  }

  lemma NeighboursExist(h: Heap, idx: int) returns (l: int, r: int)
    requires Inv(h) && Live(h, idx)
    ensures Neighbours(h, l, idx, r)
    ensures forall l', r' | Neighbours(h, l', idx, r') :: l' == l && r' == r
  {
    BlockFacts(h, idx);
    l := LeftExists(h, idx);
    r := End(h, idx);
    forall l', r' | Neighbours(h, l', idx, r') ensures l' == l && r' == r {
      LeftUnique(h, idx, l', l);
    }
  }

  ghost function Start(h: Heap, l: int, idx: int): int
  {
    if Available(h, l) then l else idx
  }

  lemma ReleaseKeepsInv(h: Heap, l: int, idx: int, r: int)
    requires Neighbours(h, l, idx, r)
    ensures Inv(Release(h, l, idx, r))
  {
    ReleaseTiled(h, l, idx, r);
    ReleaseCoalesced(h, l, idx, r);
    ReleaseListed(h, l, idx, r);
    ReleaseFenced(h, l, idx, r);
  }

  /** Where the joined block starts and ends. */
  lemma ReleaseSpan(h: Heap, l: int, idx: int, r: int)
    requires Neighbours(h, l, idx, r)
    ensures l < idx < r
    ensures var h' := Release(h, l, idx, r); var start := Start(h, l, idx);
      && start in h'.tags && h'.tags[start] >= 4
      && End(h', start) == (if h.tags[r] > 0 then End(h, r) else r)
      && End(h', start) in h'.tags && h'.tags[End(h', start)] < 0 && h'.tags[End(h', start)] == h.tags[End(h', start)]
  {
    BlockFacts(h, l);
    BlockFacts(h, idx);
    BlockFacts(h, r);
    assert Available(h, r) ==> RightTaken(h, r);
  }

  lemma ReleaseFenced(h: Heap, l: int, idx: int, r: int)
    requires Neighbours(h, l, idx, r)
    ensures Fenced(Release(h, l, idx, r))
  {
    var h' := Release(h, l, idx, r);
    ReleaseSpan(h, l, idx, r);
    BlockFacts(h, idx);
    forall i | i in h'.tags && i != 0 && i != h.len - 2 ensures Roomy(h', i) {
      if i != Start(h, l, idx) { assert Roomy(h, i); }
    }
  }

  lemma ReleaseListed(h: Heap, l: int, idx: int, r: int)
    requires Neighbours(h, l, idx, r)
    ensures Listed(Release(h, l, idx, r))
  {
    var h' := Release(h, l, idx, r);
    ReleaseSpan(h, l, idx, r);
    ReleasedList(h, l, idx, r);
    forall i ensures Available(h', i) <==> OnList(h', i) {
      ReleasedTag(h, l, idx, r, i);
      assert Available(h, i) <==> OnList(h, i);
    }
  }

  /** The list after a release: the joined block, then what was there without its parts. */
  lemma ReleasedList(h: Heap, l: int, idx: int, r: int)
    requires Neighbours(h, l, idx, r)
    ensures var h' := Release(h, l, idx, r);
      && NoRepeats(h'.free)
      && forall i :: OnList(h', i) <==> i == Start(h, l, idx) || (OnList(h, i) && i != l && i != r)
  {
    var free1 := if h.tags[l] > 0 then Without(h.free, l) else h.free;
    var free2 := if h.tags[r] > 0 then Without(free1, r) else free1;
    WithoutNoRepeats(h.free, l);
    WithoutNoRepeats(free1, r);
    assert Available(h, l) <==> OnList(h, l);
    assert Available(h, r) <==> OnList(h, r);
    assert Available(h, idx) <==> OnList(h, idx);
    assert Release(h, l, idx, r).free == [Start(h, l, idx)] + free2;
  }

  /** The available blocks after a release, one by one. */
  lemma ReleasedTag(h: Heap, l: int, idx: int, r: int, i: int)
    requires Neighbours(h, l, idx, r)
    ensures Available(Release(h, l, idx, r), i) <==> i == Start(h, l, idx) || (Available(h, i) && i != l && i != r)
  {
    ReleaseSpan(h, l, idx, r);
  }

  lemma ReleaseTiled(h: Heap, l: int, idx: int, r: int)
    requires Neighbours(h, l, idx, r)
    ensures Tiled(Release(h, l, idx, r))
  {
    var h' := Release(h, l, idx, r);
    ReleaseSpan(h, l, idx, r);
    BlockFacts(h, l);
    forall i | i in h'.tags ensures Within(h', i) && Chained(h', i) {
      ReleaseChained(h, l, idx, r, i);
    }
    forall i, j | i in h'.tags && j in h'.tags && i != j ensures Apart(h', i, j) {
      ReleaseApart(h, l, idx, r, i, j);
    }
  }

  /** Nothing but the left neighbour ends at `idx`, and nothing but `idx` ends at `r`. */
  lemma EndsElsewhere(h: Heap, l: int, idx: int, r: int, i: int)
    requires Neighbours(h, l, idx, r) && i in h.tags && i != l && i != idx
    ensures End(h, i) != idx && End(h, i) != r
  {
    assert Apart(h, i, l) && Apart(h, i, idx) && Within(h, i) && Within(h, l) && Within(h, idx);
  }

  lemma ReleaseChained(h: Heap, l: int, idx: int, r: int, i: int)
    requires Neighbours(h, l, idx, r) && i in Release(h, l, idx, r).tags
    ensures Within(Release(h, l, idx, r), i) && Chained(Release(h, l, idx, r), i)
  {
    ReleaseSpan(h, l, idx, r);
    BlockFacts(h, End(Release(h, l, idx, r), Start(h, l, idx)));
    BlockFacts(h, l);
    if i != Start(h, l, idx) {
      assert Within(h, i) && Chained(h, i);
      if i != l { EndsElsewhere(h, l, idx, r, i); }
    }
  }

  lemma ReleaseApart(h: Heap, l: int, idx: int, r: int, i: int, j: int)
    requires Neighbours(h, l, idx, r)
    requires i in Release(h, l, idx, r).tags && j in Release(h, l, idx, r).tags && i != j
    ensures Apart(Release(h, l, idx, r), i, j)
  {
    ReleaseSpan(h, l, idx, r);
    var start := Start(h, l, idx);
    if i != start && j != start {
      assert Apart(h, i, j);
    } else {
      var other := if i == start then j else i;
      assert Within(h, other) && Within(h, l) && Within(h, idx) && Within(h, r);
      assert other != l ==> Apart(h, other, l);
      assert Apart(h, other, idx);
      assert other != r ==> Apart(h, other, r);
    }
  }

  lemma ReleaseCoalesced(h: Heap, l: int, idx: int, r: int)
    requires Neighbours(h, l, idx, r)
    ensures Coalesced(Release(h, l, idx, r))
  {
    var h' := Release(h, l, idx, r);
    ReleaseSpan(h, l, idx, r);
    forall i | Available(h', i) ensures RightTaken(h', i) {
      if i != Start(h, l, idx) {
        assert Available(h, i) && RightTaken(h, i);
        EndsElsewhere(h, l, idx, r, i);
      }
    }
  }
}
