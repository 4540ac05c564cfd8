/** The page tables that an address space needs, and so how many pages the calls of vm.c take
    just before they fail. */
module TableNeed {
  import opened Options
  import opened Frames
  import opened Paging
  import opened CowSteps
  import opened AddressSpace
  import Sets

  /** The directory slots for the pages from a up to b. */
  ghost function Span(a: nat, b: nat): set<nat> {
    set v: nat | a <= v < b :: v / NPT
  }

  lemma SpanNext(a: nat, b: nat, next: nat)
    requires a <= b && next == b + 1
    ensures Span(a, next) == Span(a, b) + {b / NPT} && Span(a, a) == {}
  {
  }

  lemma SpanJoin(a: nat, b: nat, c: nat)
    requires a <= b <= c
    ensures Span(a, c) == Span(a, b) + Span(b, c)
  {
  }

  lemma SpanIs(a: nat, b: nat)
    requires a < b
    ensures Span(a, b) == Sets.Between(a / NPT, (b - 1) / NPT + 1) && |Span(a, b)| == (b - 1) / NPT + 1 - a / NPT
  {
    forall x | x in Sets.Between(a / NPT, (b - 1) / NPT + 1) ensures x in Span(a, b) {
      var v := if x == a / NPT then a else x * NPT;
      assert v / NPT == x && a <= v < b;
    }
    Sets.BetweenSize(a / NPT, (b - 1) / NPT + 1);
  }

  /** The number of tables for the first n pages. */
  function Tabs(n: nat): nat {
    (n + NPT - 1) / NPT
  }

  lemma TabsAre(n: nat)
    ensures |Span(0, n)| == Tabs(n)
  {
    if n == 0 { assert Span(0, 0) == {}; } else { SpanIs(0, n); }
  }

  ghost function Slots(d: Dir): set<nat> {
    set x | x in d.tabs
  }

  lemma SlotsSize(d: Dir)
    ensures |Slots(d)| == |d.tabs|
  {
    assert Slots(d) == d.tabs.Keys;
  }

  /** From w to w' the pages taken were for tables of id, which now has those in slots xs. */
  ghost predicate Took(w: World, w': World, id: nat, xs: set<nat>) {
    Spent(w, w', id) && Slots(w'.dirs[id]) == Slots(w.dirs[id]) + xs
  }

  /** No page was left for one of the tables in slots xs. */
  ghost predicate Lacked(w: World, w': World, id: nat, xs: set<nat>) {
    Spent(w, w', id) && w'.mem.free == [] && Slots(w'.dirs[id]) < Slots(w.dirs[id]) + xs
  }

  lemma TookTrans(w: World, w1: World, w2: World, id: nat, xs: set<nat>, ys: set<nat>, all: set<nat>)
    requires Took(w, w1, id, xs) && Took(w1, w2, id, ys) && all == xs + ys
    ensures Took(w, w2, id, all)
  {
  }

  lemma LackedTrans(w: World, w1: World, w2: World, id: nat, xs: set<nat>, ys: set<nat>, all: set<nat>)
    requires Took(w, w1, id, xs) && Lacked(w1, w2, id, ys) && xs + ys <= all
    ensures Lacked(w, w2, id, all)
  {
  }

  lemma TookNone(w: World, id: nat)
    requires id in w.dirs
    ensures Took(w, w, id, {}) && forall x :: x in w.dirs[id].tabs ==> Took(w, w, id, {x})
  {
    forall x | x in w.dirs[id].tabs ensures Took(w, w, id, {x}) { assert x in Slots(w.dirs[id]); }
  }

  lemma NewTabTook(w: World, id: nat, x: Slot)
    requires w.mem.free != [] && w.mem.free[0] < |w.mem.refs| && id in w.dirs && x !in w.dirs[id].tabs
    ensures Took(w, NewTab(w, id, x), id, {x})
  {
    var d, d' := w.dirs[id], NewTab(w, id, x).dirs[id];
    SlotsSize(d);
    SlotsSize(d');
    assert Slots(d') == Slots(d) + {x};
  }

  /** What a new table comes to. */
  ghost predicate Walked(w: World, w': World, held: set<Ref>, id: nat, x: nat) {
    && Sound(w', held) && Padded(w, w', id) && Took(w, w', id, {x}) && w'.mem.pages == w.mem.pages
    && x in w'.dirs[id].tabs && forall r :: r in w.R ==> r in w'.R && w'.R[r] == w.R[r]
  }

  lemma WalkStep(w: World, held: set<Ref>, id: nat, x: Slot)
    requires Sound(w, held) && w.mem.free != [] && id in w.dirs && x !in w.dirs[id].tabs && Table(id, x) !in held
    ensures w.mem.free[0] < |w.mem.refs| && Walked(w, NewTab(w, id, x), held, id, x)
  {
    NewTabSound(w, held, id, x);
    NewTabTook(w, id, x);
    assert Right(w.R, w.dirs, w.stacks, held, Table(id, x));
  }

  lemma WalkNone(w: World, held: set<Ref>, id: nat, x: nat)
    requires Sound(w, held) && id in w.dirs && x in w.dirs[id].tabs
    ensures Walked(w, w, held, id, x)
  {
    TookNone(w, id);
  }

  /** Entries do not matter. */
  lemma TookSame(w: World, w1: World, w2: World, id: nat, xs: set<nat>)
    requires Took(w, w1, id, xs) && id in w2.dirs && w2.mem.free == w1.mem.free && w2.dirs[id].tabs.Keys == w1.dirs[id].tabs.Keys
    ensures Took(w, w2, id, xs)
  {
    SlotsSize(w1.dirs[id]);
    SlotsSize(w2.dirs[id]);
    assert Slots(w2.dirs[id]) == Slots(w1.dirs[id]);
  }

  /** mappages of a page of p into c, whose table is there, and incrementReferenceCount. */
  lemma ShareStep(w: World, p: nat, c: nat, v: nat)
    requires Sound(w, {}) && p in w.dirs && c in w.dirs && p != c && v < USER_PAGES && v / NPT in w.dirs[c].tabs
    requires Lookup(w.dirs[p], v).Some? && !Lookup(w.dirs[p], v).value.w && See(w, c, v) == None
    ensures User(p, v) in w.R && w.R[User(p, v)] < |w.mem.refs| && Managed(w.mem, w.R[User(p, v)]) && w.R[User(p, v)] !in w.mem.free
    ensures w.R[User(p, v)] == Lookup(w.dirs[p], v).value.frame
    ensures var w' := Share(w, p, c, v);
            Sound(w', {}) && Copied(w, w', p, c, v) && OnlySpace(w, w', c) && Took(w, w', c, {})
  {
    SeenIsMapped(w, {}, c, v);
    MappedIsHeld(w, {}, p, v);
    ShareSound(w, {}, p, c, v);
    TookNone(w, c);
    TookSame(w, w, Share(w, p, c, v), c, {});
  }

  /** The tables in slots xs that id does not have. */
  ghost function Missing(w: World, id: nat, xs: set<nat>): nat
    requires id in w.dirs
  {
    |xs - Slots(w.dirs[id])|
  }

  lemma TookCount(w: World, w': World, id: nat, xs: set<nat>)
    requires Took(w, w', id, xs)
    ensures |w'.mem.free| + Missing(w, id, xs) == |w.mem.free|
  {
    SlotsSize(w.dirs[id]);
    SlotsSize(w'.dirs[id]);
    assert Slots(w'.dirs[id]) == Slots(w.dirs[id]) + (xs - Slots(w.dirs[id]));
  }

  lemma LackedCount(w: World, w': World, id: nat, xs: set<nat>)
    requires Lacked(w, w', id, xs)
    ensures |w.mem.free| < Missing(w, id, xs)
  {
    var all := Slots(w.dirs[id]) + xs;
    SlotsSize(w.dirs[id]);
    SlotsSize(w'.dirs[id]);
    assert all == Slots(w.dirs[id]) + (xs - Slots(w.dirs[id]));
    var x :| x in all && x !in Slots(w'.dirs[id]);
    Sets.SubsetSize(Slots(w'.dirs[id]), all - {x});
  }

  // ------------------------------------------------------ kernel mappings

  datatype MapResult = Mapped | NoTable | Remap

  /** What mappages takes. */
  ghost predicate MapCost(w: World, w': World, id: nat, first: nat, end: nat, r: MapResult) {
    match r
    case Mapped => Took(w, w', id, Span(first, end))
    case NoTable => Lacked(w, w', id, Span(first, end))
    case Remap => true
  }

  lemma MapCostNext(w: World, w1: World, w2: World, id: nat, first: nat, a: nat, next: nat, end: nat, r: MapResult)
    requires Took(w, w1, id, Span(first, a)) && first <= a < end && next == a + 1 && id in w2.dirs
    requires if r == NoTable then w2 == w1 && w2.mem.free == [] && a / NPT !in w2.dirs[id].tabs else Took(w1, w2, id, {a / NPT})
    ensures if r == NoTable then MapCost(w, w2, id, first, end, r) else Took(w, w2, id, Span(first, next))
  {
    SpanNext(first, a, next);
    SpanJoin(first, next, end);
    if r == NoTable {
      assert a / NPT in Span(first, end) && a / NPT !in Slots(w2.dirs[id]);
    } else {
      TookTrans(w, w1, w2, id, Span(first, a), {a / NPT}, Span(first, next));
    }
  }

  /** The tables for the pages that the rows of kmap before row j map. */
  ghost function RowTabs(data: nat, j: nat): set<nat> {
    if j <= 3 then Span(KERN_PAGE, RowBound(data, j)) else Span(KERN_PAGE, TOP_PAGE) + Span(DEV_PAGE, ALL_PAGES)
  }

  lemma RowTabsNext(data: nat, j: nat, next: nat, first: nat)
    requires LINK_PAGE < data < TOP_PAGE && j < 4 && next == j + 1 && first == if j == 3 then DEV_PAGE else RowBound(data, j)
    ensures RowTabs(data, next) == RowTabs(data, j) + Span(first, RowBound(data, next))
  {
    if j < 3 { SpanJoin(KERN_PAGE, first, RowBound(data, next)); }
  }

  /** The kernel's tables, and their number. */
  ghost function KernTabs(): set<nat> {
    RowTabs(0, 4)
  }

  const KERN_TABS: nat := 64

  lemma Apart(a: set<nat>, b: set<nat>, x: nat)
    requires (forall i :: i in a ==> i < x) && forall i :: i in b ==> i >= x
    ensures |a + b| == |a| + |b|
  {
    assert a !! b;
  }

  lemma KernTabsAre()
    ensures |KernTabs()| == KERN_TABS && forall x :: x in KernTabs() ==> x >= KERN_PAGE / NPT
  {
    var a, b := Span(KERN_PAGE, TOP_PAGE), Span(DEV_PAGE, ALL_PAGES);
    assert |a| == 56 by { SpanIs(KERN_PAGE, TOP_PAGE); }
    assert |b| == 8 by { SpanIs(DEV_PAGE, ALL_PAGES); }
    Apart(a, b, 1000);
  }

  /** The tables for row j. */
  ghost function OneRow(data: nat, j: nat): set<nat> {
    Span(if j == 3 then DEV_PAGE else RowBound(data, j), RowBound(data, j + 1))
  }

  lemma RowCost(w: World, w1: World, w2: World, id: nat, data: nat, j: nat, next: nat, ok: bool)
    requires LINK_PAGE < data < TOP_PAGE && j < 4 && next == j + 1 && Took(w, w1, id, RowTabs(data, j))
    requires if ok then Took(w1, w2, id, OneRow(data, j)) else Lacked(w1, w2, id, OneRow(data, j))
    ensures if ok then Took(w, w2, id, RowTabs(data, next)) else Lacked(w, w2, id, KernTabs())
  {
    RowTabsNext(data, j, next, if j == 3 then DEV_PAGE else RowBound(data, j));
    if ok {
      TookTrans(w, w1, w2, id, RowTabs(data, j), OneRow(data, j), RowTabs(data, next));
    } else {
      RowTabsIn(data, next);
      LackedTrans(w, w1, w2, id, RowTabs(data, j), OneRow(data, j), KernTabs());
    }
  }

  /** setupkvm takes 65 pages. */
  lemma KernCost(w: World, w1: World, w2: World, id: nat, ok: bool)
    requires Cost(w, w1, id, 1) && w1.dirs[id].tabs == map[]
    requires if ok then Took(w1, w2, id, KernTabs()) else Lacked(w1, w2, id, KernTabs())
    ensures ok <==> |w.mem.free| >= 1 + KERN_TABS
    ensures ok ==> Cost(w, w2, id, 1) && Slots(w2.dirs[id]) == KernTabs()
  {
    KernTabsAre();
    assert Slots(w1.dirs[id]) == {};
    assert KernTabs() - {} == KernTabs();
    if ok { TookCount(w1, w2, id, KernTabs()); } else { LackedCount(w1, w2, id, KernTabs()); }
  }

  lemma RowTabsIn(data: nat, j: nat)
    requires LINK_PAGE < data < TOP_PAGE && j <= 4
    ensures RowTabs(data, j) <= KernTabs() && RowTabs(data, 4) == KernTabs()
  {
    if j <= 3 { SpanJoin(KERN_PAGE, RowBound(data, j), TOP_PAGE); }
  }

  // ------------------------------------------------------------- growing

  /** The pages to grow from page a up to b: these and the tables that are missing for them. */
  ghost function GrowNeed(w: World, id: nat, a: nat, b: nat): nat
    requires id in w.dirs && a <= b
  {
    b - a + Missing(w, id, Span(a, b))
  }

  lemma GrowNeedGrows(w: World, id: nat, start: nat, a: nat, b: nat)
    requires id in w.dirs && start <= a <= b
    ensures GrowNeed(w, id, start, a) <= GrowNeed(w, id, start, b)
  {
    SpanJoin(start, a, b);
    Sets.SubsetSize(Span(start, a) - Slots(w.dirs[id]), Span(start, b) - Slots(w.dirs[id]));
  }

  ghost predicate GrowCost(w: World, w': World, id: nat, start: nat, a: nat) {
    && id in w.dirs && id in w'.dirs && start <= a && Slots(w'.dirs[id]) == Slots(w.dirs[id]) + Span(start, a)
    && |w'.mem.free| + |w'.dirs[id].tabs| + (a - start) == |w.mem.free| + |w.dirs[id].tabs|
  }

  lemma GrowCostStart(w: World, id: nat, start: nat)
    requires id in w.dirs
    ensures GrowCost(w, w, id, start, start)
  {
    SpanNext(start, start, start + 1);
  }

  lemma GrowCostNext(w: World, w1: World, w2: World, w3: World, id: nat, start: nat, a: nat, next: nat)
    requires GrowCost(w, w1, id, start, a) && next == a + 1 && w2.dirs == w1.dirs && |w2.mem.free| + 1 == |w1.mem.free|
    requires Took(w2, w3, id, {a / NPT})
    ensures GrowCost(w, w3, id, start, next)
  {
    SpanNext(start, a, next);
  }

  lemma GrowCostCount(w: World, w': World, id: nat, start: nat, a: nat)
    requires GrowCost(w, w', id, start, a)
    ensures |w'.mem.free| + GrowNeed(w, id, start, a) == |w.mem.free|
  {
    SlotsSize(w.dirs[id]);
    SlotsSize(w'.dirs[id]);
    assert Slots(w'.dirs[id]) == Slots(w.dirs[id]) + (Span(start, a) - Slots(w.dirs[id]));
  }

  /** The next page has no room. */
  lemma GrowCostOver(w: World, w1: World, id: nat, start: nat, a: nat, next: nat, end: nat)
    requires GrowCost(w, w1, id, start, a) && next == a + 1 <= end
    requires w1.mem.free == [] || (|w1.mem.free| == 1 && a / NPT !in w1.dirs[id].tabs)
    ensures |w.mem.free| < GrowNeed(w, id, start, end)
  {
    GrowCostCount(w, w1, id, start, a);
    SpanNext(start, a, next);
    GrowNeedGrows(w, id, start, next, end);
    if a / NPT !in w1.dirs[id].tabs {
      OneMore(Span(start, a), Slots(w.dirs[id]), a / NPT);
    } else {
      FewerMissing(Span(start, a), Slots(w.dirs[id]), a / NPT);
    }
  }

  lemma OneMore(xs: set<nat>, had: set<nat>, x: nat)
    requires x !in had + xs
    ensures |xs + {x} - had| == |xs - had| + 1
  {
    assert xs + {x} - had == xs - had + {x};
  }

  lemma FewerMissing(xs: set<nat>, had: set<nat>, x: nat)
    ensures |xs - had| <= |xs + {x} - had|
  {
    Sets.SubsetSize(xs - had, xs + {x} - had);
  }

  /** inituvm takes a page, and a table if it is missing. */
  lemma InitCost(w: World, w1: World, w2: World, id: nat, ok: bool)
    requires id in w.dirs && w1.dirs == w.dirs && |w1.mem.free| + 1 == |w.mem.free|
    requires if ok then Took(w1, w2, id, {0}) else w1.mem.free == [] && 0 !in w1.dirs[id].tabs
    ensures ok <==> |w.mem.free| >= 1 + Missing(w, id, {0})
  {
    if ok {
      TookCount(w1, w2, id, {0});
    } else {
      assert {0} - Slots(w.dirs[id]) == {0};
    }
  }

  // ------------------------------------------------------------- copying

  /** The pages for a copy of the first n pages: a directory, the kernel's tables, those for
      the pages, and, for copyuvm_original, the pages themselves. */
  function CopyNeed(n: nat, eager: bool): nat {
    1 + KERN_TABS + Tabs(n) + if eager then n else 0
  }

  lemma CopyNeedGrows(a: nat, b: nat, eager: bool)
    requires a <= b
    ensures CopyNeed(a, eager) <= CopyNeed(b, eager)
  {
  }

  /** What the copy c has taken when it has the first a pages. */
  ghost predicate CopyCost(w: World, w': World, c: nat, a: nat, eager: bool) {
    Cost(w, w', c, 1 + if eager then a else 0) && Slots(w'.dirs[c]) == KernTabs() + Span(0, a)
  }

  lemma CopyCostStart(w: World, w': World, c: nat, eager: bool)
    requires Cost(w, w', c, 1) && Slots(w'.dirs[c]) == KernTabs()
    ensures CopyCost(w, w', c, 0, eager)
  {
    assert KernTabs() + Span(0, 0) == KernTabs();
  }

  lemma CopyCostCount(w: World, w': World, c: nat, a: nat, eager: bool)
    requires CopyCost(w, w', c, a, eager) && a <= USER_PAGES
    ensures |w'.mem.free| + CopyNeed(a, eager) == |w.mem.free|
  {
    KernTabsAre();
    TabsAre(a);
    SlotsSize(w'.dirs[c]);
    Apart(Span(0, a), KernTabs(), KERN_PAGE / NPT);
    assert Span(0, a) + KernTabs() == KernTabs() + Span(0, a);
  }

  lemma CopyCostNext(w: World, w1: World, w2: World, c: nat, a: nat, next: nat, eager: bool)
    requires CopyCost(w, w1, c, a, eager) && next == a + 1 && c in w2.dirs && Slots(w2.dirs[c]) == Slots(w1.dirs[c]) + {a / NPT}
    requires |w2.mem.free| + |w2.dirs[c].tabs| + (if eager then 1 else 0) == |w1.mem.free| + |w1.dirs[c].tabs|
    ensures CopyCost(w, w2, c, next, eager)
  {
    SpanNext(0, a, next);
  }

  /** The next page has no room. */
  lemma CopyCostOver(w: World, w1: World, c: nat, a: nat, next: nat, eager: bool)
    requires CopyCost(w, w1, c, a, eager) && next == a + 1 && a < USER_PAGES
    requires if eager then w1.mem.free == [] || (|w1.mem.free| == 1 && a / NPT !in w1.dirs[c].tabs)
             else w1.mem.free == [] && a / NPT !in w1.dirs[c].tabs
    ensures |w.mem.free| < CopyNeed(next, eager)
  {
    CopyCostCount(w, w1, c, a, eager);
    if a / NPT !in w1.dirs[c].tabs {
      assert a / NPT !in Slots(w1.dirs[c]);
      SpanNext(0, a, next);
      TabsAre(a);
      TabsAre(next);
    } else {
      CopyNeedGrows(a, next, eager);
    }
  }

  /** setupkvm takes 65 pages, and has no table for user pages. */
  lemma KernelCost(w: World, w': World, c: nat)
    requires Cost(w, w', c, 1) && Slots(w'.dirs[c]) == KernTabs()
    ensures |w'.mem.free| + 65 == |w.mem.free| && Missing(w', c, {0}) == 1
  {
    CopyCostStart(w, w', c, false);
    CopyCostCount(w, w', c, 0, false);
    KernTabsAre();
    assert {0} - Slots(w'.dirs[c]) == {0};
  }

  lemma CopyNeedBound(n: nat, eager: bool)
    requires n <= USER_PAGES
    ensures CopyNeed(n, eager) <= NPT + 1 + if eager then n else 0
  {
  }

  lemma GrowNeedBound(w: World, id: nat, a: nat, b: nat)
    requires id in w.dirs && a <= b <= USER_PAGES
    ensures GrowNeed(w, id, a, b) <= NPT + (b - a)
  {
    assert Span(a, b) - Slots(w.dirs[id]) <= Sets.Below(NPT);
    Sets.SubsetSize(Span(a, b) - Slots(w.dirs[id]), Sets.Below(NPT));
  }

  /** Page by page: there has to be memory for it, and then the page has to be there. */
  ghost predicate CopyEnds(w: World, p: nat, end: nat, eager: bool, r: CopyResult) {
    match r
    case Done => Present(w, p, end) && |w.mem.free| >= CopyNeed(end, eager)
    case NoMemory => exists a: nat :: a <= end && Present(w, p, a) && |w.mem.free| < CopyNeed(a, eager)
    case Panic => exists a: nat :: a < end && Present(w, p, a) && See(w, p, a) == None && |w.mem.free| >= CopyNeed(a, eager)
  }

  /** Which of these it is, is decided by the pages of p and the number of free pages. */
  lemma CopyDecided(w: World, p: nat, end: nat, eager: bool, r: CopyResult, r': CopyResult)
    requires CopyEnds(w, p, end, eager, r) && CopyEnds(w, p, end, eager, r')
    ensures r == r'
  {
    forall a: nat, b: nat | a <= b ensures CopyNeed(a, eager) <= CopyNeed(b, eager) { CopyNeedGrows(a, b, eager); }
  }

  /** A copy under way: c has the first a pages of p. */
  datatype Job = Job(w: World, w': World, p: nat, c: nat, a: nat, eager: bool)

  ghost predicate Holds(j: Job) {
    Copying(j.w, j.w', j.p, j.c, j.a) && CopyCost(j.w, j.w', j.c, j.a, j.eager)
  }

  ghost predicate Underway(j: Job) {
    forall k {:trigger Holds(k)} :: k == j ==> Holds(k)
  }

  /** How one round ends, when it is not the last that copies a page. */
  ghost predicate Stops(w: World, p: nat, a: nat, next: nat, eager: bool, r: CopyResult) {
    Present(w, p, a) && match r
    case Done => true
    case NoMemory => Present(w, p, next) && |w.mem.free| < CopyNeed(next, eager)
    case Panic => See(w, p, a) == None && |w.mem.free| >= CopyNeed(a, eager)
  }

  lemma StopsEnds(w: World, p: nat, a: nat, next: nat, end: nat, eager: bool, r: CopyResult)
    requires Stops(w, p, a, next, eager, r) && a < end && next == a + 1 && r != Done
    ensures CopyEnds(w, p, end, eager, r)
  {
  }

  lemma JobStart(w: World, w': World, p: nat, c: nat, eager: bool)
    requires p in w.dirs && c !in w.dirs && c in w'.dirs && OnlySpace(w, w', c) && SameViews(w, w')
    requires Cost(w, w', c, 1) && Slots(w'.dirs[c]) == KernTabs()
    ensures Underway(Job(w, w', p, c, 0, eager))
  {
    CopyStart(w, w', p, c);
    CopyCostStart(w, w', c, eager);
  }

  /** setupkvm had not enough. */
  lemma JobNone(w: World, p: nat, end: nat, eager: bool)
    requires |w.mem.free| < 1 + KERN_TABS
    ensures CopyEnds(w, p, end, eager, NoMemory)
  {
    assert Present(w, p, 0) && |w.mem.free| < CopyNeed(0, eager);
  }

  lemma JobDone(j: Job)
    requires Underway(j) && j.a <= USER_PAGES
    ensures Copying(j.w, j.w', j.p, j.c, j.a) && CopyEnds(j.w, j.p, j.a, j.eager, Done)
  {
    assert Holds(j);
    CopyCostCount(j.w, j.w', j.c, j.a, j.eager);
  }

  /** What a round finds. */
  lemma JobHere(j: Job)
    requires Underway(j) && Sound(j.w', {}) && j.a < USER_PAGES
    ensures j.p in j.w'.dirs && j.c in j.w'.dirs && j.p != j.c && See(j.w', j.c, j.a) == None && Present(j.w, j.p, j.a)
    ensures See(j.w', j.p, j.a) == See(j.w, j.p, j.a) && (See(j.w, j.p, j.a).Some? <==> Lookup(j.w'.dirs[j.p], j.a).Some?)
    ensures |j.w.mem.free| >= CopyNeed(j.a, j.eager)
  {
    assert Holds(j);
    assert CopiedAt(j.w, j.w', j.p, j.c, j.a, j.p, j.a) && CopiedAt(j.w, j.w', j.p, j.c, j.a, j.c, j.a);
    SeenIsMapped(j.w', {}, j.p, j.a);
    CopyCostCount(j.w, j.w', j.c, j.a, j.eager);
  }

  /** Write-protecting the page of p. */
  lemma JobQuiet(j: Job, w2: World)
    requires Underway(j) && Same(j.w', w2) && OnlySpace(j.w', w2, j.p) && w2.mem == j.w'.mem && j.p != j.c
    ensures Underway(j.(w' := w2))
  {
    assert Holds(j);
    CopyQuiet(j.w, j.w', w2, j.p, j.c, j.a);
    assert Holds(j.(w' := w2));
  }

  lemma PresentNext(w: World, p: nat, a: nat, next: nat)
    requires Present(w, p, a) && See(w, p, a).Some? && next == a + 1
    ensures Present(w, p, next)
  {
  }

  /** No room: freevm takes the copy away. */
  lemma JobFails(j: Job, w2: World, w3: World, next: nat)
    requires Underway(j) && j.a < USER_PAGES && next == j.a + 1 && See(j.w, j.p, j.a).Some?
    requires w2 == j.w' || (j.eager && SameViews(j.w', w2) && OnlySpace(j.w', w2, j.c) && w2.dirs.Keys == j.w'.dirs.Keys)
    requires Freed(w2, w3, j.c) && j.c in j.w'.dirs
    requires if j.eager then j.w'.mem.free == [] || (|j.w'.mem.free| == 1 && j.a / NPT !in j.w'.dirs[j.c].tabs)
             else j.w'.mem.free == [] && j.a / NPT !in j.w'.dirs[j.c].tabs
    ensures Same(j.w, w3) && Stops(j.w, j.p, j.a, next, j.eager, NoMemory)
  {
    assert Holds(j);
    if w2 != j.w' {
      OnlySpaceTargets(j.w', w2, j.c);
      CopyQuiet(j.w, j.w', w2, j.p, j.c, j.a);
    }
    CopyBack(j.w, w2, w3, j.p, j.c, j.a);
    CopyCostOver(j.w, j.w', j.c, j.a, next, j.eager);
    PresentNext(j.w, j.p, j.a, next);
  }

  lemma JobNext(j: Job, w2: World, next: nat)
    requires Underway(j) && next == j.a + 1 && See(j.w, j.p, j.a).Some? && See(j.w', j.p, j.a) == See(j.w, j.p, j.a)
    requires j.c in j.w'.dirs && j.c in w2.dirs && Copied(j.w', w2, j.p, j.c, j.a) && OnlySpace(j.w', w2, j.c)
    requires Slots(w2.dirs[j.c]) == Slots(j.w'.dirs[j.c]) + {j.a / NPT}
    requires |w2.mem.free| + |w2.dirs[j.c].tabs| + (if j.eager then 1 else 0) == |j.w'.mem.free| + |j.w'.dirs[j.c].tabs|
    ensures Underway(Job(j.w, w2, j.p, j.c, next, j.eager))
  {
    assert Holds(j);
    CopyNext(j.w, j.w', w2, j.p, j.c, j.a, next);
    CopyCostNext(j.w, j.w', w2, j.c, j.a, next, j.eager);
    assert Holds(Job(j.w, w2, j.p, j.c, next, j.eager));
  }

  /** A table and the shared page: two steps of one round. */
  lemma JobShared(j: Job, w1: World, w2: World, next: nat)
    requires Underway(j) && !j.eager && next == j.a + 1 && See(j.w, j.p, j.a).Some? && See(j.w', j.p, j.a) == See(j.w, j.p, j.a)
    requires j.c in j.w'.dirs && Walked(j.w', w1, {}, j.c, j.a / NPT) && Took(w1, w2, j.c, {})
    requires Copied(w1, w2, j.p, j.c, j.a) && OnlySpace(w1, w2, j.c)
    ensures Underway(Job(j.w, w2, j.p, j.c, next, j.eager))
  {
    OnlySpaceTrans(j.w', w1, w2, j.c);
    TookTrans(j.w', w1, w2, j.c, {j.a / NPT}, {}, {j.a / NPT});
    CopiedAfterPad(j.w', w1, w2, j.p, j.c, j.a);
    JobNext(j, w2, next);
  }

  lemma CopiedAfterPad(w: World, w1: World, w2: World, p: nat, c: nat, v: nat)
    requires Padded(w, w1, c) && Copied(w1, w2, p, c, v)
    ensures Copied(w, w2, p, c, v)
  {
  }
}
