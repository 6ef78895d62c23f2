/** How many frames fork takes: one for every page it copies, and one for every table the
    child lacks for them. */
module ForkCosts {
  import opened Common
  import opened PhysMem
  import opened PageTables
  import opened PageSteps
  import opened ForkSteps

  /** Page `u` of the parent has a frame of its own to copy. */
  ghost predicate Copied(w: View, p: nat, u: nat)
  {
    p < |w.mem| && u < ENTRIES * ENTRIES && !IsApic(w.cfg, u) && Translate(w.mem, p, u).Some?
  }

  ghost function Copies(w: View, p: nat, lo: nat, v: nat): set<nat>
  {
    set u: nat | lo <= u < v && Copied(w, p, u)
  }

  /** The entries without a table in the child in which pages are copied. */
  ghost function NewTables(w: View, p: nat, c: nat, lo: nat, v: nat): set<nat>
  {
    set u: nat | lo <= u < v && Copied(w, p, u) && !TableThere(w, c, u / ENTRIES) :: u / ENTRIES
  }

  ghost function ForkCost(w: View, p: nat, c: nat, lo: nat, v: nat): nat
  {
    |Copies(w, p, lo, v)| + |NewTables(w, p, c, lo, v)|
  }

  /** The frames for the pages lo..v have been taken, and the child has got just those tables. */
  ghost predicate ForkPaid(w0: View, w: View, p: nat, c: nat, lo: nat, v: nat, start: int, left: int)
  {
    && 0 <= left == start - ForkCost(w0, p, c, lo, v)
    && forall i: nat {:trigger TableThere(w, c, i)} | i < ENTRIES ::
         TableThere(w, c, i) <==> TableThere(w0, c, i) || i in NewTables(w0, p, c, lo, v)
  }

  /** The pages lo..v have been settled: copied where fork copies, and paid for. */
  ghost predicate Settled(w0: View, w: View, p: nat, c: nat, lo: nat, v: nat, start: int, left: int)
  {
    Forking(w0, w, p, c, lo, v) && OnlyApicsFrom(w0, c, lo) && ForkPaid(w0, w, p, c, lo, v, start, left)
  }

  lemma PaidAtStart(w: View, p: nat, c: nat, lo: nat, start: int)
    requires 0 <= start
    ensures ForkPaid(w, w, p, c, lo, lo, start, start)
  {
    assert Copies(w, p, lo, lo) == {} && NewTables(w, p, c, lo, lo) == {};
  }

  /** Pages that are not copied cost nothing. */
  lemma NoneCopied(w0: View, w: View, p: nat, c: nat, lo: nat, v: nat, v': nat, start: int, left: int)
    requires ForkPaid(w0, w, p, c, lo, v, start, left) && lo <= v <= v'
    requires forall u: nat {:trigger Copied(w0, p, u)} | v <= u < v' :: !Copied(w0, p, u)
    ensures ForkPaid(w0, w, p, c, lo, v', start, left)
  {
    assert Copies(w0, p, lo, v') == Copies(w0, p, lo, v);
    assert NewTables(w0, p, c, lo, v') == NewTables(w0, p, c, lo, v);
  }

  lemma NewTablesStep(w: View, p: nat, c: nat, lo: nat, v: nat)
    requires Copied(w, p, v) && lo <= v
    ensures NewTables(w, p, c, lo, v + 1)
         == NewTables(w, p, c, lo, v) + if TableThere(w, c, v / ENTRIES) then {} else {v / ENTRIES}
  {
    var more := if TableThere(w, c, v / ENTRIES) then {} else {v / ENTRIES};
    forall i ensures i in NewTables(w, p, c, lo, v + 1) <==> i in NewTables(w, p, c, lo, v) + more {
      if i in more { assert Copied(w, p, v); }
    }
  }

  lemma OneMore(s: set<nat>, x: nat)
    ensures |s + {x}| == |s| + if x in s then 0 else 1
  {
    if x in s { assert s + {x} == s; }
  }

  lemma CopiesStep(w: View, p: nat, lo: nat, v: nat)
    requires Copied(w, p, v) && lo <= v
    ensures |Copies(w, p, lo, v + 1)| == |Copies(w, p, lo, v)| + 1
  {
    assert Copies(w, p, lo, v + 1) == Copies(w, p, lo, v) + {v};
    OneMore(Copies(w, p, lo, v), v);
  }

  lemma TablesStep(w0: View, w: View, p: nat, c: nat, lo: nat, v: nat)
    requires Copied(w0, p, v) && lo <= v && v / ENTRIES < ENTRIES
    requires TableThere(w, c, v / ENTRIES) <==> TableThere(w0, c, v / ENTRIES) || v / ENTRIES in NewTables(w0, p, c, lo, v)
    ensures |NewTables(w0, p, c, lo, v + 1)| == |NewTables(w0, p, c, lo, v)| + TableCost(w, c, v)
  {
    var i, tables := v / ENTRIES, NewTables(w0, p, c, lo, v);
    NewTablesStep(w0, p, c, lo, v);
    assert tables + {} == tables;
    OneMore(tables, i);
    assert i in tables ==> !TableThere(w0, c, i);
  }

  /** A page that is copied costs a frame, and one more if its table is not there yet. */
  lemma OneCopied(w0: View, w: View, p: nat, c: nat, lo: nat, v: nat, start: int, left: int)
    requires ForkPaid(w0, w, p, c, lo, v, start, left) && lo <= v && Copied(w0, p, v)
    ensures ForkCost(w0, p, c, lo, v + 1) == ForkCost(w0, p, c, lo, v) + 1 + TableCost(w, c, v)
  {
    CopiesStep(w0, p, lo, v);
    EntryInRange(v);
    TablesStep(w0, w, p, c, lo, v);
  }

  lemma EntryInRange(v: nat)
    requires v < ENTRIES * ENTRIES
    ensures v / ENTRIES < ENTRIES
  {
  }

  lemma OneCopiedThen(w0: View, w: View, w': View, p: nat, c: nat, lo: nat, v: nat, start: int, left: int)
    requires ForkPaid(w0, w, p, c, lo, v, start, left) && lo <= v && Copied(w0, p, v)
    requires OneTableMore(w, w', c, v / ENTRIES) && 1 + TableCost(w, c, v) <= left
    ensures ForkPaid(w0, w', p, c, lo, v + 1, start, left - 1 - TableCost(w, c, v))
  {
    OneCopied(w0, w, p, c, lo, v, start, left);
    NewTablesStep(w0, p, c, lo, v);
  }

  /** An APIC page has its table in the child already. */
  lemma ApicHasTable(w0: View, w: View, p: nat, c: nat, lo: nat, v: nat, start: int, left: int)
    requires ForkPaid(w0, w, p, c, lo, v, start, left) && OnlyApicsFrom(w0, c, lo)
    requires lo <= v < ENTRIES * ENTRIES && IsApic(w0.cfg, v)
    ensures TableCost(w, c, v) == 0
  {
    assert ApicOnly(w0, c, v);
    assert TableThere(w0, c, v / ENTRIES);
  }

  lemma ApicPaid(w0: View, w: View, w': View, p: nat, c: nat, lo: nat, v: nat, start: int, left: int)
    requires ForkPaid(w0, w, p, c, lo, v, start, left) && lo <= v && IsApic(w0.cfg, v)
    requires OneTableMore(w, w', c, v / ENTRIES) && TableCost(w, c, v) == 0
    ensures ForkPaid(w0, w', p, c, lo, v + 1, start, left)
  {
    NoneCopied(w0, w, p, c, lo, v, v + 1, start, left);
  }

  lemma NoneInEntry(w0: View, w: View, p: nat, c: nat, lo: nat, i: nat, start: int, left: int)
    requires ForkPaid(w0, w, p, c, lo, i * ENTRIES, start, left) && lo <= i * ENTRIES
    requires p < |w0.mem| && i < ENTRIES && !Present(w0.mem[p][i])
    ensures ForkPaid(w0, w, p, c, lo, i * ENTRIES + ENTRIES, start, left)
  {
    forall u: nat | i * ENTRIES <= u < i * ENTRIES + ENTRIES ensures !Copied(w0, p, u) {
      assert u / ENTRIES == i;
    }
    NoneCopied(w0, w, p, c, lo, i * ENTRIES, i * ENTRIES + ENTRIES, start, left);
  }

  /** The frames that a whole fork takes. */
  ghost function WholeCost(w: View, p: nat, c: nat): nat
  {
    ForkCost(w, p, c, TreeStart(w.cfg) * ENTRIES, ENTRIES * ENTRIES)
  }

  /** fork has gone through all pages from the first entry it looks at. */
  ghost predicate Forked(w0: View, w: View, p: nat, c: nat)
  {
    Forking(w0, w, p, c, TreeStart(w0.cfg) * ENTRIES, ENTRIES * ENTRIES)
  }

  lemma ForkEnds(w0: View, w: View, p: nat, c: nat, lo: nat, start: int, left: int)
    requires Settled(w0, w, p, c, lo, ENTRIES * ENTRIES, start, left) && lo == TreeStart(w0.cfg) * ENTRIES
    requires OnlyApics(w0, c)
    ensures Forked(w0, w, p, c) && 0 <= left == start - WholeCost(w0, p, c)
    ensures ForkedAll(w0, w, p, c) <==> w0.cfg.memSize < 0x8000_0000 || !MapsFirstEntry(w0, p)
  {
    ForkIsExact(w0, w, p, c);
  }

  lemma CostGrows(w: View, p: nat, c: nat, lo: nat, v: nat, v': nat)
    requires v <= v'
    ensures ForkCost(w, p, c, lo, v) <= ForkCost(w, p, c, lo, v')
  {
    FewerElements(Copies(w, p, lo, v), Copies(w, p, lo, v'));
    FewerElements(NewTables(w, p, c, lo, v), NewTables(w, p, c, lo, v'));
  }
}
