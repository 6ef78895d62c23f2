/** The copy of an address space made by fork, page by page. */
module ForkSteps {
  import opened Common
  import opened PhysMem
  import opened PageTables
  import opened PageSteps

  /** The first directory entry that fork looks at. */
  function TreeStart(cfg: Config): nat
  {
    cfg.memSize / FRAME_SIZE / ENTRIES + 1
  }

  /** Fork skips no page of the upper half, unless memory is exactly 2 GB: then it skips the
      4 MB that start at 0x80000000. */
  lemma ForkStartsBelowPrivatePages(cfg: Config)
    requires ConfigOk(cfg)
    ensures SharedEntries(cfg) <= TreeStart(cfg)
    ensures TreeStart(cfg) <= FIRST_PRIVATE <==> cfg.memSize < 0x8000_0000
    ensures cfg.memSize == 0x8000_0000 ==> TreeStart(cfg) == FIRST_PRIVATE + 1
  {
  }

  /** Page `u` of the child: an APIC page is shared, a page of the parent has a copy in a frame
      that was not in use before, and any other page is absent. */
  ghost predicate ForkedPage(w0: View, w: View, p: nat, c: nat, u: nat)
    requires p < |w0.mem| && c < |w.mem| && u < ENTRIES * ENTRIES
  {
    var parent, child := Translate(w0.mem, p, u), Translate(w.mem, c, u);
    if IsApic(w0.cfg, u) then child == Some(u)
    else if parent.None? then child == None
    else
      && child.Some? && child.value !in w0.role && child.value < |w.mem| && parent.value < |w0.mem|
      && w.mem[child.value] == w0.mem[parent.value]
  }

  /** Nothing but the address space `c` and frames not in use before have changed. */
  ghost predicate OnlySpace(w0: View, w: View, c: nat)
  {
    && PagesKept(w0, w)
    && forall d {:trigger SpaceKept(w0, w, d)} | HasRole(w0, d, Dir) && d != c :: SpaceKept(w0, w, d)
  }

  /** The pages lo..v have been copied from `p` to `c`. */
  ghost predicate Forking(w0: View, w: View, p: nat, c: nat, lo: nat, v: nat)
  {
    && Inv(w0) && Inv(w) && OnlySpace(w0, w, c) && p != c
    && HasRole(w0, p, Dir) && HasRole(w0, c, Dir) && p < |w0.mem| && c < |w0.mem| && lo <= v <= ENTRIES * ENTRIES
    && w0.cfg.memSize <= lo * FRAME_SIZE
    && (forall u: nat {:trigger ForkedPage(w0, w, p, c, u)} | lo <= u < v :: ForkedPage(w0, w, p, c, u))
    && (forall u: nat {:trigger SameAt(w0, w, c, u)} | u < ENTRIES * ENTRIES && !(lo <= u < v) :: SameAt(w0, w, c, u))
  }

  lemma OnlySpaceThen(w0: View, w: View, w': View, c: nat)
    requires OnlySpace(w0, w, c) && OnlySpace(w, w', c)
    ensures OnlySpace(w0, w', c)
  {
    PagesKeptThen(w0, w, w');
    forall d | HasRole(w0, d, Dir) && d != c ensures SpaceKept(w0, w', d) {
      assert HasRole(w, d, Dir);
      assert SpaceKept(w0, w, d) && SpaceKept(w, w', d);
      SpaceKeptThen(w0, w, w', d);
    }
  }

  /** What the directory and tables of `p` say does not change while they are kept. */
  lemma KeptTranslation(w0: View, w: View, p: nat, u: nat)
    requires Inv(w0) && Inv(w) && HasRole(w0, p, Dir) && p < |w0.mem| && u < ENTRIES * ENTRIES
    requires FIRST_PRIVATE * ENTRIES <= u && SpaceKept(w0, w, p)
    ensures Translate(w.mem, p, u) == Translate(w0.mem, p, u)
  {
    TableOf(w0, p, u);
    SharedBound(w0.cfg);
    var t := FrameOf(w0.mem[p][u / ENTRIES]);
    if Present(w0.mem[p][u / ENTRIES]) {
      assert w.mem[t] == w0.mem[t];
    }
  }

  /** When fork is done: the parent's pages are where they were; the child has a page exactly
      where the parent has one, with the same contents, in a frame that was free before; and no
      two of those frames are the same. */
  lemma ForkedSpace(w0: View, w: View, p: nat, c: nat, lo: nat, u: nat, u': nat)
    requires Forking(w0, w, p, c, lo, ENTRIES * ENTRIES) && FIRST_PRIVATE * ENTRIES <= u < ENTRIES * ENTRIES && lo <= u
    requires !IsApic(w0.cfg, u) && FIRST_PRIVATE * ENTRIES <= u' < ENTRIES * ENTRIES && u' != u
    ensures Translate(w.mem, p, u) == Translate(w0.mem, p, u)
    ensures Translate(w.mem, c, u).Some? <==> Translate(w0.mem, p, u).Some?
    ensures Translate(w.mem, c, u).Some? ==>
              var f, g := Translate(w.mem, c, u).value, Translate(w0.mem, p, u).value;
              f !in w0.role && f < |w.mem| && g < |w0.mem| && w.mem[f] == w0.mem[g]
    ensures Translate(w.mem, c, u).Some? ==> Translate(w.mem, c, u') != Translate(w.mem, c, u)
  {
    assert SpaceKept(w0, w, p);
    KeptTranslation(w0, w, p, u);
    assert ForkedPage(w0, w, p, c, u);
    if Translate(w.mem, c, u).Some? && Translate(w.mem, c, u').Some? {
      LeavesDisjoint(w, c, u, c, u');
    }
  }

  /** The private pages of `d` are the two APIC pages, as make_pd leaves it. */
  ghost predicate OnlyApics(w: View, d: nat)
  {
    forall v: nat {:trigger Translate(w.mem, d, v)} | IsPage(w, d, v) && FIRST_PRIVATE * ENTRIES <= v ::
      Translate(w.mem, d, v) == if IsApic(w.cfg, v) then Some(v) else None
  }

  /** Every private page of the child is as fork should make it. */
  ghost predicate ForkedAll(w0: View, w: View, p: nat, c: nat)
    requires p < |w0.mem| && c < |w.mem|
  {
    forall u: nat {:trigger ForkedPage(w0, w, p, c, u)} | FIRST_PRIVATE * ENTRIES <= u < ENTRIES * ENTRIES ::
      ForkedPage(w0, w, p, c, u)
  }

  /** A page of the first 4 MB from 0x80000000 on that is mapped, APIC pages aside. */
  ghost predicate MapsAt(w: View, p: nat, u: nat)
    requires p < |w.mem|
  {
    FIRST_PRIVATE * ENTRIES <= u < (FIRST_PRIVATE + 1) * ENTRIES && !IsApic(w.cfg, u) && Translate(w.mem, p, u).Some?
  }

  ghost predicate MapsFirstEntry(w: View, p: nat)
    requires p < |w.mem|
  {
    exists u: nat {:trigger MapsAt(w, p, u)} :: MapsAt(w, p, u)
  }

  /** The input on which fork fails: with exactly 2 GB of memory, a page of the parent in the
      first 4 MB from 0x80000000 on is absent in the child. */
  lemma SkippedPageIsAbsent(w0: View, w: View, p: nat, c: nat, u: nat)
    requires Forking(w0, w, p, c, TreeStart(w0.cfg) * ENTRIES, ENTRIES * ENTRIES) && OnlyApics(w0, c)
    requires w0.cfg.memSize == 0x8000_0000 && MapsAt(w0, p, u)
    ensures Translate(w.mem, c, u) == None && !ForkedPage(w0, w, p, c, u)
  {
    ForkStartsBelowPrivatePages(w0.cfg);
    assert SameAt(w0, w, c, u);
    assert IsPage(w0, c, u);
  }

  /** fork copies every private page if and only if memory is less than 2 GB or the parent has
      nothing mapped in the first 4 MB of them. */
  lemma ForkIsExact(w0: View, w: View, p: nat, c: nat)
    requires Forking(w0, w, p, c, TreeStart(w0.cfg) * ENTRIES, ENTRIES * ENTRIES) && OnlyApics(w0, c)
    ensures ForkedAll(w0, w, p, c) <==> w0.cfg.memSize < 0x8000_0000 || !MapsFirstEntry(w0, p)
  {
    ForkStartsBelowPrivatePages(w0.cfg);
    if w0.cfg.memSize < 0x8000_0000 || !MapsFirstEntry(w0, p) {
      forall u: nat | FIRST_PRIVATE * ENTRIES <= u < ENTRIES * ENTRIES ensures ForkedPage(w0, w, p, c, u) {
        if u < TreeStart(w0.cfg) * ENTRIES {
          assert SameAt(w0, w, c, u) && IsPage(w0, c, u) && !MapsAt(w0, p, u);
        }
      }
    } else {
      var u: nat :| MapsAt(w0, p, u);
      SkippedPageIsAbsent(w0, w, p, c, u);
    }
  }

  lemma ForkStart(w: View, p: nat, c: nat, lo: nat)
    requires Inv(w) && HasRole(w, p, Dir) && HasRole(w, c, Dir) && p != c && lo <= ENTRIES * ENTRIES
    requires w.cfg.memSize <= lo * FRAME_SIZE
    ensures Forking(w, w, p, c, lo, lo)
  {
    assert FrameOk(w, p) && FrameOk(w, c);
    forall d | HasRole(w, d, Dir) && d != c ensures SpaceKept(w, w, d) {
      assert FrameOk(w, d);
    }
  }

  /** One page further: only page `v` of the child has changed, and to what it should be. */
  lemma ForkOnePage(w0: View, w: View, w': View, p: nat, c: nat, lo: nat, v: nat)
    requires Forking(w0, w, p, c, lo, v) && v < ENTRIES * ENTRIES
    requires Inv(w') && OnlySpace(w, w', c) && OnlyPage(w, w', c, v, Translate(w'.mem, c, v))
    requires ForkedPage(w0, w', p, c, v)
    ensures Forking(w0, w', p, c, lo, v + 1)
  {
    OnlySpaceThen(w0, w, w', c);
    forall u: nat | lo <= u < v + 1 ensures ForkedPage(w0, w', p, c, u) {
      if u < v {
        assert ForkedPage(w0, w, p, c, u);
        assert SameAt(w, w', c, u);
        CopyStays(w0, w, w', p, c, u);
      }
    }
    forall u: nat | u < ENTRIES * ENTRIES && !(lo <= u < v + 1) ensures SameAt(w0, w', c, u) {
      assert SameAt(w0, w, c, u) && SameAt(w, w', c, u);
    }
  }

  lemma CopyStays(w0: View, w: View, w': View, p: nat, c: nat, u: nat)
    requires Inv(w0) && Inv(w) && HasRole(w, c, Dir) && c < |w.mem| == |w'.mem| && p < |w0.mem| && u < ENTRIES * ENTRIES
    requires HasRole(w0, p, Dir) && w0.cfg.memSize <= u * FRAME_SIZE
    requires w0.cfg == w.cfg && PagesKept(w, w') && Translate(w'.mem, c, u) == Translate(w.mem, c, u)
    requires ForkedPage(w0, w, p, c, u)
    ensures ForkedPage(w0, w', p, c, u)
  {
    NoLowPages(w0, p, u);
    if Translate(w0.mem, p, u).Some? && !IsApic(w0.cfg, u) {
      PageOwnsFrame(w, c, u);
      assert w'.mem[Translate(w.mem, c, u).value] == w.mem[Translate(w.mem, c, u).value];
    }
  }

  lemma NoLowPages(w: View, p: nat, u: nat)
    requires Inv(w) && HasRole(w, p, Dir) && p < |w.mem| && u < ENTRIES * ENTRIES && w.cfg.memSize <= u * FRAME_SIZE
    ensures Translate(w.mem, p, u).Some? ==> FIRST_PRIVATE * ENTRIES <= u
    ensures IsApic(w.cfg, u) ==> FIRST_PRIVATE * ENTRIES <= u
  {
    if u < FIRST_PRIVATE * ENTRIES { LowMemoryShared(w, p, u); }
  }

  // ----- one page -----

  /** A frame newly in use with the given contents. */
  function Loaded(w: View, f: nat, contents: Frame): View
    requires f < |w.mem|
  {
    w.(mem := w.mem[f := contents], role := w.role[f := Orphan])
  }

  lemma LoadedKeeps(w: View, f: nat, contents: Frame, c: nat)
    requires Inv(w) && f < |w.mem| && f !in w.role
    ensures Inv(Loaded(w, f, contents)) && SameMaps(w, Loaded(w, f, contents)) && OnlySpace(w, Loaded(w, f, contents), c)
  {
    var w' := Loaded(w, f, contents);
    LooseStep(w, w', f);
    forall d | HasRole(w, d, Dir) && d != c ensures SpaceKept(w, w', d) {
      assert FrameOk(w, d);
    }
  }

  /** An APIC page of the child stays what it is. */
  lemma ForkApic(w0: View, w: View, w': View, p: nat, c: nat, lo: nat, v: nat)
    requires Forking(w0, w, p, c, lo, v) && v < ENTRIES * ENTRIES && IsApic(w0.cfg, v)
    requires Inv(w') && OnlySpace(w, w', c) && OnlyPage(w, w', c, v, Some(v))
    ensures Forking(w0, w', p, c, lo, v + 1)
  {
    ForkOnePage(w0, w, w', p, c, lo, v);
  }

  /** A page of the parent is copied to the fresh frame `f`. */
  lemma ForkCopy(w0: View, w: View, w1: View, w': View, p: nat, c: nat, lo: nat, v: nat, f: nat)
    requires Forking(w0, w, p, c, lo, v) && FIRST_PRIVATE * ENTRIES <= v < ENTRIES * ENTRIES && !IsApic(w0.cfg, v)
    requires Translate(w.mem, p, v).Some? && Translate(w.mem, p, v).value < |w.mem|
    requires f < |w.mem| && f !in w.role && w1 == Loaded(w, f, w.mem[Translate(w.mem, p, v).value])
    requires Inv(w') && OnlySpace(w1, w', c) && OnlyPage(w1, w', c, v, Some(f))
    ensures Forking(w0, w', p, c, lo, v + 1)
  {
    LoadedKeeps(w, f, w.mem[Translate(w.mem, p, v).value], c);
    OnlySpaceThen(w, w1, w', c);
    OnlyPageThen(w, w1, w', c, v, Some(f));
    assert SpaceKept(w0, w, p);
    KeptTranslation(w0, w, p, v);
    PageOwnsFrame(w0, p, v);
    var g := Translate(w0.mem, p, v).value;
    assert FrameOk(w0, g);
    assert w.mem[g] == w0.mem[g];
    assert w'.mem[f] == w1.mem[f];
    ForkOnePage(w0, w, w', p, c, lo, v);
  }

  /** An absent page, or one whose table is absent, is skipped. */
  lemma ForkSkip(w0: View, w: View, p: nat, c: nat, lo: nat, v: nat)
    requires Forking(w0, w, p, c, lo, v) && v < ENTRIES * ENTRIES && OnlyApicsFrom(w0, c, lo)
    requires Translate(w.mem, p, v) == None || IsApic(w0.cfg, v)
    ensures Forking(w0, w, p, c, lo, v + 1)
  {
    assert SameAt(w0, w, c, v);
    assert ApicOnly(w0, c, v);
    NoLowPages(w0, p, v);
    assert SpaceKept(w0, w, p);
    if FIRST_PRIVATE * ENTRIES <= v { KeptTranslation(w0, w, p, v); }
    assert ForkedPage(w0, w, p, c, v);
  }

  ghost predicate ApicOnly(w: View, c: nat, v: nat)
    requires c < |w.mem| && v < ENTRIES * ENTRIES
  {
    Translate(w.mem, c, v) == if IsApic(w.cfg, v) then Some(v) else None
  }

  ghost predicate OnlyApicsFrom(w: View, c: nat, lo: nat)
  {
    c < |w.mem| && forall v: nat {:trigger ApicOnly(w, c, v)} | lo <= v < ENTRIES * ENTRIES :: ApicOnly(w, c, v)
  }

  lemma ForkSkipTable(w0: View, w: View, p: nat, c: nat, lo: nat, i: nat, j: nat)
    requires i < ENTRIES && j <= ENTRIES && lo <= i * ENTRIES && Forking(w0, w, p, c, lo, i * ENTRIES + j)
    requires OnlyApicsFrom(w0, c, lo) && p < |w.mem| && !Present(w.mem[p][i])
    ensures Forking(w0, w, p, c, lo, i * ENTRIES + ENTRIES)
    decreases ENTRIES - j
  {
    if j < ENTRIES {
      assert (i * ENTRIES + j) / ENTRIES == i;
      ForkSkip(w0, w, p, c, lo, i * ENTRIES + j);
      ForkSkipTable(w0, w, p, c, lo, i, j + 1);
    }
  }
}
