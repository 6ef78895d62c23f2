/** The elementary changes to page tables: each keeps the ownership invariant, and each says
    which translations it changes. */
module PageSteps {
  import opened Common
  import opened PhysMem
  import opened PageTables

  ghost predicate IsPage(w: View, d: nat, v: nat)
  {
    HasRole(w, d, Dir) && d < |w.mem| && v < ENTRIES * ENTRIES
  }

  /** Entry `i` of the directory has a table. */
  ghost predicate TableThere(w: View, d: nat, i: nat)
  {
    d < |w.mem| && i < ENTRIES && Present(w.mem[d][i])
  }

  /** The frames that mapping page `v` takes: one, if it needs a table. */
  ghost function TableCost(w: View, d: nat, v: nat): nat
  {
    if TableThere(w, d, v / ENTRIES) then 0 else 1
  }

  /** Entry `k` has got a table, and the other entries of the directory are as they were. */
  ghost predicate OneTableMore(w: View, w': View, d: nat, k: nat)
  {
    forall i: nat {:trigger TableThere(w', d, i)} | i < ENTRIES :: TableThere(w', d, i) <==> TableThere(w, d, i) || i == k
  }

  ghost predicate SameAt(w: View, w': View, d: nat, v: nat)
    requires IsPage(w, d, v) && |w'.mem| == |w.mem|
  {
    Translate(w'.mem, d, v) == Translate(w.mem, d, v)
  }

  /** No address space of `w` sees a difference. */
  ghost predicate SameMaps(w: View, w': View)
  {
    |w'.mem| == |w.mem| && forall d: nat, v: nat {:trigger SameAt(w, w', d, v)} | IsPage(w, d, v) :: SameAt(w, w', d, v)
  }

  /** Only page `v` of directory `d` sees a difference: it is now `r`. */
  ghost predicate OnlyPage(w: View, w': View, d: nat, v: nat, r: Option<nat>)
  {
    && |w'.mem| == |w.mem| && IsPage(w, d, v) && Translate(w'.mem, d, v) == r
    && forall d': nat, v': nat {:trigger SameAt(w, w', d', v')} | IsPage(w, d', v') && (d', v') != (d, v) :: SameAt(w, w', d', v')
  }

  ghost predicate SameElsewhere(w: View, w': View, f: nat)
  {
    && w'.root == w.root && w'.cfg == w.cfg && |w'.mem| == |w.mem| && f < |w.mem|
    && (forall g: nat | g < |w.mem| && g != f :: w'.mem[g] == w.mem[g])
    && (forall g {:trigger g in w'.role} {:trigger g in w.role} | g != f :: g in w'.role <==> g in w.role)
    && (forall g {:trigger w'.role[g]} | g != f && g in w.role && g in w'.role :: w'.role[g] == w.role[g])
  }

  /** A frame that no table mentions: not in use, or in use and not mapped. */
  ghost predicate Loose(w: View, f: nat)
  {
    f in w.role ==> w.role[f] == Orphan
  }

  // ----- frames entering, leaving and being written -----

  /** Taking a frame into use, giving up an unmapped one, or writing to one. */
  lemma LooseStep(w: View, w': View, f: nat)
    requires Inv(w) && SameElsewhere(w, w', f) && Loose(w, f) && Loose(w', f)
    ensures Inv(w') && SameMaps(w, w')
  {
    forall d, v | IsPage(w, d, v) ensures SameAt(w, w', d, v) {
      LooseTranslate(w, w', f, d, v);
    }
    forall g | g in w'.role ensures FrameOk(w', g) {
      if g != f { LooseFrame(w, w', f, g); }
    }
  }

  lemma TableOf(w: View, d: nat, v: nat)
    requires Inv(w) && IsPage(w, d, v)
    ensures Present(w.mem[d][v / ENTRIES]) ==>
              var t, i := FrameOf(w.mem[d][v / ENTRIES]), v / ENTRIES;
              t < |w.mem| && HasRole(w, t, if i < SharedEntries(w.cfg) then SharedTable(i) else Table(d, i))
  {
    var i := v / ENTRIES;
    assert FrameOk(w, d) && DirEntryOk(w, d, i) && FrameOk(w, w.root) && RootEntryOk(w, i);
    var e := w.mem[d][i];
    if Present(e) { assert FrameOk(w, FrameOf(e)); }
  }

  lemma LooseTranslate(w: View, w': View, f: nat, d: nat, v: nat)
    requires Inv(w) && SameElsewhere(w, w', f) && Loose(w, f) && IsPage(w, d, v)
    ensures SameAt(w, w', d, v)
  {
    TableOf(w, d, v);
  }

  lemma LooseFrame(w: View, w': View, f: nat, g: nat)
    requires Inv(w) && SameElsewhere(w, w', f) && Loose(w, f) && Loose(w', f) && g in w.role && g != f
    ensures g in w'.role && FrameOk(w', g)
  {
    assert FrameOk(w, g) && w'.role[g] == w.role[g];
    match w.role[g]
    case Root =>
      forall i: nat | i < ENTRIES ensures RootEntryOk(w', i) { assert RootEntryOk(w, i); }
    case SharedTable(i) =>
    case Dir =>
      forall i: nat | i < ENTRIES ensures DirEntryOk(w', g, i) { assert DirEntryOk(w, g, i); }
    case Table(d, i) =>
      forall j: nat | j < ENTRIES ensures TableEntryOk(w', g, d, i, j) { assert TableEntryOk(w, g, d, i, j); }
    case Leaf(d, v) =>
      LooseTranslate(w, w', f, d, v);
    case Orphan =>
  }

  /** Writing the contents of a mapped page changes no translation. */
  lemma LeafWritten(w: View, w': View, f: nat, d: nat, v: nat)
    requires Inv(w) && SameElsewhere(w, w', f) && HasRole(w, f, Leaf(d, v)) && HasRole(w', f, Leaf(d, v))
    ensures Inv(w') && SameMaps(w, w')
  {
    forall d, v | IsPage(w, d, v) ensures SameAt(w, w', d, v) {
      TableOf(w, d, v);
    }
    forall g | g in w'.role ensures FrameOk(w', g) {
      assert FrameOk(w, g) && w'.role[g] == w.role[g];
      LeafWrittenFrame(w, w', f, g);
    }
  }

  lemma LeafWrittenFrame(w: View, w': View, f: nat, g: nat)
    requires Inv(w) && SameElsewhere(w, w', f) && f in w.role && w.role[f].Leaf? && w'.role == w.role
    requires g in w.role
    ensures FrameOk(w', g)
  {
    assert FrameOk(w, g);
    match w.role[g]
    case Root =>
      forall i: nat | i < ENTRIES ensures RootEntryOk(w', i) { assert RootEntryOk(w, i); }
    case SharedTable(i) =>
    case Dir =>
      forall i: nat | i < ENTRIES ensures DirEntryOk(w', g, i) { assert DirEntryOk(w, g, i); }
    case Table(d, i) =>
      forall j: nat | j < ENTRIES ensures TableEntryOk(w', g, d, i, j) { assert TableEntryOk(w, g, d, i, j); }
    case Leaf(d, v) =>
      TableOf(w, d, v);
    case Orphan =>
  }

  // ----- adding a table -----

  /** Hanging a zeroed frame into an empty private entry as a table. */
  function AddTable(w: View, d: nat, i: nat, t: nat): View
    requires d < |w.mem| && i < ENTRIES
  {
    w.(mem := w.mem[d := w.mem[d][i := Entry(t)]], role := w.role[t := Table(d, i)])
  }

  ghost predicate CanAddTable(w: View, d: nat, i: nat, t: nat)
  {
    && Inv(w) && HasRole(w, d, Dir) && d < |w.mem| && FIRST_PRIVATE <= i < ENTRIES && w.mem[d][i] == 0
    && HasRole(w, t, Orphan) && t < |w.mem| && w.mem[t] == ZeroFrame()
  }

  lemma AddTableKeeps(w: View, d: nat, i: nat, t: nat)
    requires CanAddTable(w, d, i, t)
    ensures Inv(AddTable(w, d, i, t)) && SameMaps(w, AddTable(w, d, i, t))
  {
    var w' := AddTable(w, d, i, t);
    SharedBound(w.cfg);
    forall d', v | IsPage(w, d', v) ensures SameAt(w, w', d', v) {
      AddTableTranslate(w, d, i, t, d', v);
    }
    forall g | g in w'.role ensures FrameOk(w', g) {
      AddTableFrame(w, d, i, t, g);
    }
  }

  lemma AddTableTranslate(w: View, d: nat, i: nat, t: nat, d': nat, v: nat)
    requires CanAddTable(w, d, i, t) && IsPage(w, d', v)
    ensures SameAt(w, AddTable(w, d, i, t), d', v)
  {
    SharedBound(w.cfg);
    TableOf(w, d', v);
    assert v % ENTRIES < ENTRIES && w.mem[t][v % ENTRIES] == 0;
  }

  lemma AddTableFrame(w: View, d: nat, i: nat, t: nat, g: nat)
    requires CanAddTable(w, d, i, t) && g in AddTable(w, d, i, t).role
    ensures FrameOk(AddTable(w, d, i, t), g)
  {
    var w' := AddTable(w, d, i, t);
    SharedBound(w.cfg);
    assert FrameOk(w, g);
    if g == t {
      forall j: nat | j < ENTRIES ensures TableEntryOk(w', t, d, i, j) {
        assert w'.mem[t][j] == 0;
      }
    } else {
      match w.role[g]
      case Root =>
        forall k: nat | k < ENTRIES ensures RootEntryOk(w', k) { assert RootEntryOk(w, k); }
      case SharedTable(k) =>
      case Dir =>
        forall k: nat | k < ENTRIES ensures DirEntryOk(w', g, k) { assert DirEntryOk(w, g, k); }
      case Table(d', k) =>
        forall j: nat | j < ENTRIES ensures TableEntryOk(w', g, d', k, j) { assert TableEntryOk(w, g, d', k, j); }
      case Leaf(d', v) =>
        AddTableTranslate(w, d, i, t, d', v);
      case Orphan =>
    }
  }

  // ----- writing an entry of a table -----

  /** What an entry of page `v` may become: empty, the page itself for an APIC page, or an
      unmapped frame. */
  ghost predicate CanSet(w: View, d: nat, v: nat, e: nat)
  {
    && Inv(w) && IsPage(w, d, v) && FIRST_PRIVATE * ENTRIES <= v && Present(w.mem[d][v / ENTRIES])
    && (e == 0 || (IsApic(w.cfg, v) && e == Entry(v))
        || (!IsApic(w.cfg, v) && e == Entry(FrameOf(e)) && HasRole(w, FrameOf(e), Orphan)))
  }

  /** The frame mapped at page `v` becomes unmapped, the frame in `e` is now mapped there. */
  function Reassign(w: View, d: nat, v: nat, e: nat): map<nat, Role>
    requires d < |w.mem| && v < ENTRIES * ENTRIES
  {
    if IsApic(w.cfg, v) then w.role
    else
      var was := Translate(w.mem, d, v);
      var role := if was.Some? then w.role[was.value := Orphan] else w.role;
      if e == 0 then role else role[FrameOf(e) := Leaf(d, v)]
  }

  function SetPage(w: View, d: nat, v: nat, e: nat): View
    requires d < |w.mem| && v < ENTRIES * ENTRIES && FrameOf(w.mem[d][v / ENTRIES]) < |w.mem|
  {
    var t := FrameOf(w.mem[d][v / ENTRIES]);
    w.(mem := w.mem[t := w.mem[t][v % ENTRIES := e]], role := Reassign(w, d, v, e))
  }

  lemma SetPageTable(w: View, d: nat, v: nat, e: nat)
    requires CanSet(w, d, v, e)
    ensures var t := FrameOf(w.mem[d][v / ENTRIES]); t < |w.mem| && HasRole(w, t, Table(d, v / ENTRIES))
    ensures Translate(w.mem, d, v).Some? ==>
              var f := Translate(w.mem, d, v).value;
              if IsApic(w.cfg, v) then f == v else HasRole(w, f, Leaf(d, v))
    ensures e != 0 && !IsApic(w.cfg, v) ==> FrameOf(e) < |w.mem|
  {
    SharedBound(w.cfg);
    TableOf(w, d, v);
    PageOwnsFrame(w, d, v);
    assert e != 0 && !IsApic(w.cfg, v) ==> FrameOk(w, FrameOf(e));
  }

  lemma SetPageKeeps(w: View, d: nat, v: nat, e: nat)
    requires CanSet(w, d, v, e)
    ensures FrameOf(w.mem[d][v / ENTRIES]) < |w.mem|
    ensures Inv(SetPage(w, d, v, e)) && SetPage(w, d, v, e).role.Keys == w.role.Keys
    ensures OnlyPage(w, SetPage(w, d, v, e), d, v, if e == 0 then None else Some(FrameOf(e)))
  {
    SetPageTable(w, d, v, e);
    var w' := SetPage(w, d, v, e);
    SetPageHere(w, d, v, e);
    forall d': nat, v': nat | IsPage(w, d', v') && (d', v') != (d, v) ensures SameAt(w, w', d', v') {
      SetPageElsewhere(w, d, v, e, d', v');
    }
    assert FrameOk(w, w.root);
    forall g | g in w'.role ensures FrameOk(w', g) {
      SetPageFrame(w, d, v, e, g);
    }
  }

  lemma SetPageHere(w: View, d: nat, v: nat, e: nat)
    requires CanSet(w, d, v, e)
    ensures FrameOf(w.mem[d][v / ENTRIES]) < |w.mem|
    ensures Translate(SetPage(w, d, v, e).mem, d, v) == if e == 0 then None else Some(FrameOf(e))
  {
    SetPageTable(w, d, v, e);
    var t := FrameOf(w.mem[d][v / ENTRIES]);
    assert t != d;
    var m := SetPage(w, d, v, e).mem;
    assert m[d] == w.mem[d] && m[t][v % ENTRIES] == e;
    EntryFacts(FrameOf(e));
    assert e != 0 ==> Present(e);
    LookedUp(m, d, v, t);
  }

  lemma SetPageElsewhere(w: View, d: nat, v: nat, e: nat, d': nat, v': nat)
    requires CanSet(w, d, v, e) && IsPage(w, d', v') && (d', v') != (d, v)
    ensures FrameOf(w.mem[d][v / ENTRIES]) < |w.mem|
    ensures SameAt(w, SetPage(w, d, v, e), d', v')
  {
    SetPageTable(w, d, v, e);
    TableOf(w, d', v');
    if d' == d && v' / ENTRIES == v / ENTRIES {
      assert v' % ENTRIES != v % ENTRIES;
    }
  }

  lemma SetPageFrame(w: View, d: nat, v: nat, e: nat, g: nat)
    requires CanSet(w, d, v, e) && FrameOf(w.mem[d][v / ENTRIES]) < |w.mem|
    requires g in SetPage(w, d, v, e).role
    ensures FrameOk(SetPage(w, d, v, e), g)
  {
    SetPageTable(w, d, v, e);
    assert FrameOk(w, g);
    match w.role[g]
    case Root => SetPageDirs(w, d, v, e, g);
    case SharedTable(k) =>
    case Dir => SetPageDirs(w, d, v, e, g);
    case Table(d', k) =>
      forall j: nat | j < ENTRIES ensures TableEntryOk(SetPage(w, d, v, e), g, d', k, j) {
        SetPageEntry(w, d, v, e, g, d', k, j);
      }
    case Leaf(d', v') => SetPageLeaf(w, d, v, e, g);
    case Orphan => SetPageLeaf(w, d, v, e, g);
  }

  lemma SetPageDirs(w: View, d: nat, v: nat, e: nat, g: nat)
    requires CanSet(w, d, v, e) && FrameOf(w.mem[d][v / ENTRIES]) < |w.mem|
    requires HasRole(w, g, Root) || HasRole(w, g, Dir)
    ensures g in SetPage(w, d, v, e).role && FrameOk(SetPage(w, d, v, e), g)
  {
    var w' := SetPage(w, d, v, e);
    SetPageTable(w, d, v, e);
    SharedBound(w.cfg);
    assert FrameOk(w, g) && FrameOk(w, w.root);
    if HasRole(w, g, Root) {
      forall k: nat | k < ENTRIES ensures RootEntryOk(w', k) { assert RootEntryOk(w, k); }
    } else {
      forall k: nat | k < ENTRIES ensures DirEntryOk(w', g, k) { assert DirEntryOk(w, g, k); }
    }
  }

  lemma SetPageLeaf(w: View, d: nat, v: nat, e: nat, g: nat)
    requires CanSet(w, d, v, e) && FrameOf(w.mem[d][v / ENTRIES]) < |w.mem|
    requires g in w.role && (w.role[g].Leaf? || w.role[g].Orphan?)
    ensures g in SetPage(w, d, v, e).role && FrameOk(SetPage(w, d, v, e), g)
  {
    SetPageTable(w, d, v, e);
    SetPageHere(w, d, v, e);
    assert FrameOk(w, g) && FrameOk(w, d);
    if w.role[g].Leaf? {
      var d', v' := w.role[g].dir, w.role[g].page;
      if (d', v') != (d, v) {
        SetPageElsewhere(w, d, v, e, d', v');
      }
    }
  }

  lemma SetPageEntry(w: View, d: nat, v: nat, e: nat, g: nat, d': nat, k: nat, j: nat)
    requires CanSet(w, d, v, e) && FrameOf(w.mem[d][v / ENTRIES]) < |w.mem|
    requires HasRole(w, g, Table(d', k)) && j < ENTRIES && g < |w.mem|
    ensures TableEntryOk(SetPage(w, d, v, e), g, d', k, j)
  {
    SetPageTable(w, d, v, e);
    assert FrameOk(w, g) && TableEntryOk(w, g, d', k, j);
    assert v / ENTRIES * ENTRIES + v % ENTRIES == v;
  }

  // ----- mapping a page -----

  /** What `e` may be when page `v` is mapped, whether or not there is a table for it yet. */
  ghost predicate CanMap(w: View, d: nat, v: nat, e: nat)
  {
    && Inv(w) && IsPage(w, d, v) && FIRST_PRIVATE * ENTRIES <= v
    && e == Entry(FrameOf(e))
    && (if IsApic(w.cfg, v) then FrameOf(e) == v else HasRole(w, FrameOf(e), Orphan))
  }

  /** Taking the zeroed frame `t` into use. */
  function Fresh(w: View, t: nat): View
    requires t < |w.mem|
  {
    w.(mem := w.mem[t := ZeroFrame()], role := w.role[t := Orphan])
  }

  lemma FreshKeeps(w: View, t: nat)
    requires Inv(w) && t < |w.mem| && t !in w.role
    ensures Inv(Fresh(w, t)) && SameMaps(w, Fresh(w, t))
  {
    LooseStep(w, Fresh(w, t), t);
  }

  /** Map without and with a new table. */
  ghost function Mapped(w: View, d: nat, v: nat, e: nat, t: nat): View
    requires CanMap(w, d, v, e)
    requires !Present(w.mem[d][v / ENTRIES]) ==> t < |w.mem| && t !in w.role
  {
    TableOf(w, d, v);
    if Present(w.mem[d][v / ENTRIES]) then SetPage(w, d, v, e)
    else SetPage(AddTable(Fresh(w, t), d, v / ENTRIES, t), d, v, e)
  }

  lemma NewTableKeeps(w: View, d: nat, i: nat, t: nat)
    requires Inv(w) && HasRole(w, d, Dir) && d < |w.mem| && FIRST_PRIVATE <= i < ENTRIES && !Present(w.mem[d][i])
    requires t < |w.mem| && t !in w.role
    ensures Inv(AddTable(Fresh(w, t), d, i, t)) && SameMaps(w, AddTable(Fresh(w, t), d, i, t))
  {
    var w1 := Fresh(w, t);
    FreshKeeps(w, t);
    SharedBound(w.cfg);
    assert FrameOk(w, d) && DirEntryOk(w, d, i);
    AddTableKeeps(w1, d, i, t);
    SameMapsThen(w, w1, AddTable(w1, d, i, t));
  }

  ghost predicate DirsKept(w: View, w': View)
  {
    forall d {:trigger HasRole(w', d, Dir)} | HasRole(w, d, Dir) :: HasRole(w', d, Dir)
  }

  lemma SameMapsThen(w: View, w1: View, w2: View)
    requires SameMaps(w, w1) && SameMaps(w1, w2) && DirsKept(w, w1)
    ensures SameMaps(w, w2)
  {
    forall d: nat, v: nat | IsPage(w, d, v) ensures SameAt(w, w2, d, v) {
      assert HasRole(w1, d, Dir);
      assert SameAt(w, w1, d, v) && SameAt(w1, w2, d, v);
    }
  }

  lemma OnlyPageThen(w: View, w1: View, w2: View, d: nat, v: nat, r: Option<nat>)
    requires SameMaps(w, w1) && OnlyPage(w1, w2, d, v, r) && DirsKept(w, w1) && IsPage(w, d, v)
    ensures OnlyPage(w, w2, d, v, r)
  {
    forall d': nat, v': nat | IsPage(w, d', v') && (d', v') != (d, v) ensures SameAt(w, w2, d', v') {
      assert HasRole(w1, d', Dir);
      assert SameAt(w, w1, d', v') && SameAt(w1, w2, d', v');
    }
  }

  lemma NewTableReady(w: View, d: nat, v: nat, e: nat, t: nat)
    requires CanMap(w, d, v, e) && !Present(w.mem[d][v / ENTRIES]) && t < |w.mem| && t !in w.role
    requires Inv(AddTable(Fresh(w, t), d, v / ENTRIES, t))
    ensures CanSet(AddTable(Fresh(w, t), d, v / ENTRIES, t), d, v, e)
  {
    var i := v / ENTRIES;
    var w' := AddTable(Fresh(w, t), d, i, t);
    EntryFacts(t);
    assert w'.mem[d][i] == Entry(t);
    assert d != t && HasRole(w', d, Dir);
    assert HasRole(w, FrameOf(e), Orphan) ==> HasRole(w', FrameOf(e), Orphan);
  }

  lemma MappedKeeps(w: View, d: nat, v: nat, e: nat, t: nat)
    requires CanMap(w, d, v, e)
    requires !Present(w.mem[d][v / ENTRIES]) ==> t < |w.mem| && t !in w.role
    ensures Inv(Mapped(w, d, v, e, t)) && OnlyPage(w, Mapped(w, d, v, e, t), d, v, Some(FrameOf(e)))
    ensures Mapped(w, d, v, e, t).role.Keys
         == w.role.Keys + (if Present(w.mem[d][v / ENTRIES]) then {} else {t})
  {
    if Present(w.mem[d][v / ENTRIES]) {
      SetPageKeeps(w, d, v, e);
    } else {
      NewTableKeeps(w, d, v / ENTRIES, t);
      var w2 := AddTable(Fresh(w, t), d, v / ENTRIES, t);
      assert CanSet(w2, d, v, e) by {
        NewTableReady(w, d, v, e, t);
      }
      SetPageKeeps(w2, d, v, e);
      OnlyPageThen(w, w2, SetPage(w2, d, v, e), d, v, Some(FrameOf(e)));
    }
  }

  lemma MappedTables(w: View, d: nat, v: nat, e: nat, t: nat)
    requires CanMap(w, d, v, e)
    requires !Present(w.mem[d][v / ENTRIES]) ==> t < |w.mem| && t !in w.role
    ensures OneTableMore(w, Mapped(w, d, v, e, t), d, v / ENTRIES)
  {
    TableOf(w, d, v);
    EntryFacts(t);
    var i := v / ENTRIES;
    var w' := Mapped(w, d, v, e, t);
    assert w'.mem[d] == if Present(w.mem[d][i]) then w.mem[d] else w.mem[d][i := Entry(t)];
  }

  /** Pages and unmapped frames keep their contents, and the directories stay the same. */
  ghost predicate PagesKept(w: View, w': View)
  {
    && |w'.mem| == |w.mem| && w'.root == w.root && w'.cfg == w.cfg && w.role.Keys <= w'.role.Keys
    && (forall f {:trigger HasRole(w', f, Dir)} :: HasRole(w', f, Dir) <==> HasRole(w, f, Dir))
    && (forall f {:trigger w'.mem[f]} | f in w.role && f < |w.mem| && (w.role[f].Leaf? || w.role[f].Orphan?) ::
          w'.mem[f] == w.mem[f])
    && (forall f {:trigger w'.role[f]} | f in w.role && (w.role[f].Leaf? || w.role[f].Orphan?) ::
          w'.role[f].Leaf? || w'.role[f].Orphan?)
  }

  lemma PagesKeptThen(w: View, w1: View, w2: View)
    requires PagesKept(w, w1) && PagesKept(w1, w2)
    ensures PagesKept(w, w2)
  {
    forall f ensures HasRole(w2, f, Dir) <==> HasRole(w, f, Dir) {
      assert HasRole(w1, f, Dir) <==> HasRole(w, f, Dir);
    }
    forall f | f in w.role && (w.role[f].Leaf? || w.role[f].Orphan?)
      ensures w2.role[f].Leaf? || w2.role[f].Orphan?
      ensures f < |w.mem| ==> w2.mem[f] == w.mem[f]
    {
      assert w1.role[f].Leaf? || w1.role[f].Orphan?;
      assert f < |w.mem| ==> w1.mem[f] == w.mem[f];
    }
  }

  lemma MappedKeepsPages(w: View, d: nat, v: nat, e: nat, t: nat)
    requires CanMap(w, d, v, e)
    requires !Present(w.mem[d][v / ENTRIES]) ==> t < |w.mem| && t !in w.role
    ensures PagesKept(w, Mapped(w, d, v, e, t))
  {
    TableOf(w, d, v);
    SharedBound(w.cfg);
    MappedKeeps(w, d, v, e, t);
    PageOwnsFrame(w, d, v);
  }

  /** The directory `p` and its private tables hold what they held. */
  ghost predicate SpaceKept(w: View, w': View, p: nat)
  {
    && p < |w.mem| == |w'.mem| && w'.mem[p] == w.mem[p]
    && (forall f {:trigger w'.mem[f]} {:trigger w'.role[f]} |
          f in w.role && f < |w.mem| && w.role[f].Table? && w.role[f].dir == p ::
          f in w'.role && w'.role[f] == w.role[f] && w'.mem[f] == w.mem[f])
  }

  lemma MappedKeepsSpace(w: View, d: nat, v: nat, e: nat, t: nat, p: nat)
    requires CanMap(w, d, v, e) && HasRole(w, p, Dir) && p != d
    requires !Present(w.mem[d][v / ENTRIES]) ==> t < |w.mem| && t !in w.role
    ensures SpaceKept(w, Mapped(w, d, v, e, t), p)
  {
    TableOf(w, d, v);
    SharedBound(w.cfg);
    assert FrameOk(w, p);
    PageOwnsFrame(w, d, v);
    MappedKeeps(w, d, v, e, t);
  }

  lemma SpaceKeptThen(w: View, w1: View, w2: View, p: nat)
    requires SpaceKept(w, w1, p) && SpaceKept(w1, w2, p)
    ensures SpaceKept(w, w2, p)
  {
    forall f | f in w.role && f < |w.mem| && w.role[f].Table? && w.role[f].dir == p
      ensures f in w2.role && w2.role[f] == w.role[f] && w2.mem[f] == w.mem[f]
    {
      assert w1.mem[f] == w.mem[f];
      assert f in w1.role && w1.role[f] == w.role[f];
      assert w2.mem[f] == w1.mem[f];
    }
  }

  // ----- making and deleting a directory -----

  /** An unmapped frame with the shared entries of the root and nothing else is a directory. */
  lemma MakeDirKeeps(w: View, w': View, f: nat)
    requires Inv(w) && HasRole(w, f, Orphan) && SameElsewhere(w, w', f) && HasRole(w', f, Dir)
    requires forall i: nat | i < ENTRIES ::
               w'.mem[f][i] == if i < SharedEntries(w.cfg) then w.mem[w.root][i] else 0
    ensures Inv(w') && SameMaps(w, w')
    ensures forall v: nat {:trigger Translate(w'.mem, f, v)} | FIRST_PRIVATE * ENTRIES <= v < ENTRIES * ENTRIES ::
              Translate(w'.mem, f, v) == None
  {
    SharedBound(w.cfg);
    assert FrameOk(w, f);
    forall d: nat, v: nat | IsPage(w, d, v) ensures SameAt(w, w', d, v) {
      LooseTranslate(w, w', f, d, v);
    }
    forall g | g in w'.role ensures FrameOk(w', g) {
      if g == f {
        forall i: nat | i < ENTRIES ensures DirEntryOk(w', f, i) {
          assert w'.mem[f][i] == if i < SharedEntries(w.cfg) then w.mem[w.root][i] else 0;
        }
      } else {
        MakeDirFrame(w, w', f, g);
      }
    }
  }

  lemma MakeDirFrame(w: View, w': View, f: nat, g: nat)
    requires Inv(w) && HasRole(w, f, Orphan) && SameElsewhere(w, w', f) && HasRole(w', f, Dir)
    requires g in w.role && g != f
    ensures g in w'.role && FrameOk(w', g)
  {
    assert FrameOk(w, g) && w'.role[g] == w.role[g];
    match w.role[g]
    case Root =>
      forall i: nat | i < ENTRIES ensures RootEntryOk(w', i) { assert RootEntryOk(w, i); }
    case SharedTable(i) =>
    case Dir =>
      forall i: nat | i < ENTRIES ensures DirEntryOk(w', g, i) { assert DirEntryOk(w, g, i); }
    case Table(d, i) =>
      forall j: nat | j < ENTRIES ensures TableEntryOk(w', g, d, i, j) { assert TableEntryOk(w, g, d, i, j); }
    case Leaf(d, v) =>
      LooseTranslate(w, w', f, d, v);
    case Orphan =>
  }

  /** The directory and its tables go; its pages stay in use, mapped nowhere. */
  function DropDir(role: map<nat, Role>, d: nat): map<nat, Role>
  {
    map f | f in role && f != d && !(role[f].Table? && role[f].dir == d) ::
      if role[f].Leaf? && role[f].dir == d then Orphan else role[f]
  }

  lemma DropDirKeeps(w: View, w': View, d: nat)
    requires Inv(w) && HasRole(w, d, Dir)
    requires w'.root == w.root && w'.cfg == w.cfg && |w'.mem| == |w.mem| && w'.role == DropDir(w.role, d)
    requires forall f: nat | f < |w.mem| && f in w'.role :: w'.mem[f] == w.mem[f]
    ensures Inv(w')
    ensures forall d', v {:trigger SameAt(w, w', d', v)} | IsPage(w, d', v) && d' != d :: SameAt(w, w', d', v)
  {
    forall d': nat, v: nat | IsPage(w, d', v) && d' != d ensures SameAt(w, w', d', v) {
      TableOf(w, d', v);
    }
    assert FrameOk(w, w.root);
    forall g | g in w'.role ensures FrameOk(w', g) {
      DropDirFrame(w, w', d, g);
    }
  }

  lemma DropDirFrame(w: View, w': View, d: nat, g: nat)
    requires Inv(w) && HasRole(w, d, Dir)
    requires w'.root == w.root && w'.cfg == w.cfg && |w'.mem| == |w.mem| && w'.role == DropDir(w.role, d)
    requires forall f: nat | f < |w.mem| && f in w'.role :: w'.mem[f] == w.mem[f]
    requires g in w'.role
    ensures FrameOk(w', g)
  {
    assert FrameOk(w, g) && FrameOk(w, w.root);
    match w.role[g]
    case Root =>
      forall i: nat | i < ENTRIES ensures RootEntryOk(w', i) { assert RootEntryOk(w, i); }
    case SharedTable(i) =>
    case Dir =>
      forall i: nat | i < ENTRIES ensures DirEntryOk(w', g, i) { assert DirEntryOk(w, g, i); }
    case Table(d', i) =>
      forall j: nat | j < ENTRIES ensures TableEntryOk(w', g, d', i, j) { assert TableEntryOk(w, g, d', i, j); }
    case Leaf(d', v) =>
      if d' != d { assert FrameOk(w, d'); TableOf(w, d', v); }
    case Orphan =>
  }
}
