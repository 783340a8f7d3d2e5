/** Four-level translation tables (kern/vm.c, inc/mmu.h) over physical frames. A 64-bit word is its
    upper 52 bits (a frame number, `>> 12`) and its lower 12 bits (flags, `<< 52 >> 52`). */
module VmSpec {
  import opened Common

  const ENTRYSZ: nat := 512
  const PGSIZE: nat := 4096
  const VPNS: nat := 0x10_0000_0000         // pages of a 48-bit address space

  const PTE_P: bv12 := 0x001
  const PTE_TABLE: bv12 := 0x002
  const TABLE_FLAGS: bv12 := 0x407          // PTE_P | PTE_TABLE | PTE_AF | PTE_NORMAL
  const PAGE_FLAGS: bv12 := 0x747           // ... | PTE_USER | PTE_SH

  datatype Word = Word(frame: nat, flags: bv12)

  const ZERO: Word := Word(0, 0)

  type Page = p: seq<Word> | |p| == ENTRYSZ witness seq(ENTRYSZ, _ => ZERO)
  type Mem = seq<Page>

  datatype Frame = Absent | At(f: nat)

  function ZeroPage(): (p: Page)
    ensures forall i :: 0 <= i < ENTRYSZ ==> p[i] == ZERO
  {
    seq(ENTRYSZ, _ => ZERO)
  }

  predicate Present(w: Word) {
    w.flags & PTE_P != 0
  }

  predicate IsTable(w: Word) {
    w.flags & PTE_TABLE != 0
  }

  /** A table descriptor as the architecture reads it: valid, a table, accessed, normal memory, and neither
      EL0 access nor shareability bits. */
  predicate TableFields(w: Word) {
    && w.flags & 0x001 == 0x001 && w.flags & 0x002 == 0x002 && w.flags & 0x400 == 0x400
    && w.flags & 0x01c == 0x004 && w.flags & 0x040 == 0 && w.flags & 0x300 == 0
  }

  /** A page descriptor as the architecture reads it: valid, a page, EL0 access, inner shareable, accessed,
      the memory-type bit of normal memory; all other bits, read-only among them, as asked for. */
  predicate PageFields(w: Word, perm: bv12) {
    && w.flags & 0x001 == 0x001 && w.flags & 0x002 == 0x002 && w.flags & 0x040 == 0x040
    && w.flags & 0x300 == 0x300 && w.flags & 0x400 == 0x400 && w.flags & 0x004 == 0x004
    && w.flags & 0x8b8 == perm & 0x8b8
  }

  lemma TableFlagFields(f: nat)
    ensures TableFields(Word(f, TABLE_FLAGS))
  {
  }

  lemma PageFlagFields(f: nat, perm: bv12)
    ensures PageFields(Word(f, perm | PAGE_FLAGS), perm)
  {
  }

  /** The table at level l on the way to the entries whose address prefix starts with p: the root is
      (0, 0), and entry i of table (l, p) leads to table (l + 1, p * 512 + i). */
  function Tab(mem: Mem, root: nat, l: nat, p: nat): Frame
    decreases l, 0
  {
    if l == 0 then (if p == 0 then At(root) else Absent)
    else
      var w := Ent(mem, root, l - 1, p);
      if Present(w) then At(w.frame) else Absent
  }

  /** Entry p % 512 of table (l, p / 512); zero when there is no such table. At level 3, p is the
      virtual page number and this is the page's descriptor. */
  function Ent(mem: Mem, root: nat, l: nat, p: nat): Word
    decreases l, 1
  {
    match Tab(mem, root, l, p / ENTRYSZ)
    case At(t) => if t < |mem| then mem[t][p % ENTRYSZ] else ZERO
    case Absent => ZERO
  }

  // ---- address spaces ----------------------------------------------------------------------

  /** The tables form a tree of distinct frames, with table descriptors above level 3. */
  ghost predicate Tree(mem: Mem, root: nat) {
    && (forall l: nat, p: nat :: l <= 3 && Tab(mem, root, l, p).At? ==> Tab(mem, root, l, p).f < |mem|)
    && (forall l: nat, p: nat, k: nat, q: nat ::
          l <= 3 && k <= 3 && Tab(mem, root, l, p).At? && Tab(mem, root, l, p) == Tab(mem, root, k, q) ==>
            l == k && p == q)
    && (forall l: nat, p: nat :: l < 3 && Present(Ent(mem, root, l, p)) ==> IsTable(Ent(mem, root, l, p)))
  }

  /** Frame f is one of the tables. */
  ghost predicate Table(mem: Mem, root: nat, f: nat) {
    exists l: nat, p: nat :: l <= 3 && Tab(mem, root, l, p) == At(f)
  }

  ghost predicate FreeOk(mem: Mem, free: seq<nat>) {
    NoDup(free) && forall i :: 0 <= i < |free| ==> free[i] < |mem|
  }

  /** An address space beside a free list: tables are not free frames. */
  ghost predicate Space(mem: Mem, root: nat, free: seq<nat>) {
    && FreeOk(mem, free) && Tree(mem, root)
    && forall l: nat, p: nat :: l <= 3 && Tab(mem, root, l, p).At? ==> Tab(mem, root, l, p).f !in free
  }

  lemma TakeFree(mem: Mem, root: nat, free: seq<nat>)
    requires Space(mem, root, free) && free != []
    ensures Space(mem, root, free[1..]) && !Table(mem, root, free[0])
  {
    assert free[0] in free && forall f: nat :: f in free[1..] ==> f in free;
  }

  lemma MoreFree(mem: Mem, free: seq<nat>, f: nat)
    requires f < |mem|
    ensures FreeOk(mem, free) ==> (FreeOk(mem, [f] + free) <==> f !in free)
  {
    var q := [f] + free;
    if f in free {
      var k :| 0 <= k < |free| && free[k] == f;
      assert q[0] == q[k + 1];
    }
  }

  lemma GiveFree(mem: Mem, root: nat, free: seq<nat>, f: nat)
    requires Space(mem, root, free) && f < |mem|
    ensures Space(mem, root, [f] + free) <==> f !in free && !Table(mem, root, f)
  {
    MoreFree(mem, free, f);
    if Table(mem, root, f) {
      var l: nat, p: nat :| l <= 3 && Tab(mem, root, l, p) == At(f);
      assert f in [f] + free;
    }
  }

  // ---- one more table ----------------------------------------------------------------------

  /** Page f, zeroed, hung into entry p % 512 of table t. */
  function Hang(mem: Mem, t: nat, p: nat, f: nat): (mem': Mem)
    requires t < |mem| && f < |mem|
    ensures |mem'| == |mem|
  {
    var z := mem[f := ZeroPage()];
    z[t := z[t][p % ENTRYSZ := Word(f, TABLE_FLAGS)]]
  }

  ghost predicate CanHang(mem: Mem, root: nat, l: nat, p: nat, t: nat, f: nat) {
    && Tree(mem, root) && l < 3 && Tab(mem, root, l, p / ENTRYSZ) == At(t)
    && t < |mem| && !Present(mem[t][p % ENTRYSZ]) && f < |mem| && !Table(mem, root, f)
  }

  lemma FlagBits()
    ensures Present(Word(0, TABLE_FLAGS)) && IsTable(Word(0, TABLE_FLAGS)) && !Present(ZERO)
  {
  }

  lemma Same(p: nat, q: nat)
    requires p / ENTRYSZ == q / ENTRYSZ && p % ENTRYSZ == q % ENTRYSZ
    ensures p == q
  {
  }

  /** Exactly one table appears, and it is empty: no other table moves. */
  lemma {:induction false} HangTab(mem: Mem, root: nat, l: nat, p: nat, t: nat, f: nat, k: nat, q: nat)
    requires CanHang(mem, root, l, p, t, f) && k <= 3
    ensures Tab(Hang(mem, t, p, f), root, k, q) == if k == l + 1 && q == p then At(f) else Tab(mem, root, k, q)
    decreases k
  {
    var mem' := Hang(mem, t, p, f);
    FlagBits();
    if k > 0 {
      HangTab(mem, root, l, p, t, f, k - 1, q / ENTRYSZ);
      HangEnt(mem, root, l, p, t, f, k - 1, q);
    }
  }

  /** The entry changes only where the table was hung. */
  lemma HangEnt(mem: Mem, root: nat, l: nat, p: nat, t: nat, f: nat, k: nat, q: nat)
    requires CanHang(mem, root, l, p, t, f) && k <= 3
    requires Tab(Hang(mem, t, p, f), root, k, q / ENTRYSZ) ==
      if k == l + 1 && q / ENTRYSZ == p then At(f) else Tab(mem, root, k, q / ENTRYSZ)
    ensures Ent(Hang(mem, t, p, f), root, k, q) ==
      if k == l && q == p then Word(f, TABLE_FLAGS) else Ent(mem, root, k, q)
  {
    var mem' := Hang(mem, t, p, f);
    var up := Tab(mem, root, k, q / ENTRYSZ);
    FlagBits();
    if k == l + 1 && q / ENTRYSZ == p {
      assert Ent(mem, root, l, p) == mem[t][p % ENTRYSZ];
      assert Tab(mem, root, k, p) == Absent;
    } else if up.At? {
      assert Table(mem, root, up.f);
      if up.f == t {
        assert k == l && q / ENTRYSZ == p / ENTRYSZ;
        if q % ENTRYSZ == p % ENTRYSZ { Same(q, p); }
      }
    }
  }

  /** A walk that allocates leaves every page's descriptor as it was, whichever tables it creates. */
  lemma HangKeeps(mem: Mem, root: nat, l: nat, p: nat, t: nat, f: nat, free: seq<nat>)
    requires CanHang(mem, root, l, p, t, f) && Space(mem, root, [f] + free)
    ensures Space(Hang(mem, t, p, f), root, free)
    ensures forall q: nat :: Ent(Hang(mem, t, p, f), root, 3, q) == Ent(mem, root, 3, q)
    ensures Tab(Hang(mem, t, p, f), root, l + 1, p) == At(f) && TableFields(Ent(Hang(mem, t, p, f), root, l, p))
    ensures forall k: nat, q: nat :: k <= 3 && Tab(mem, root, k, q).At? ==>
      Tab(Hang(mem, t, p, f), root, k, q) == Tab(mem, root, k, q)
    ensures forall k: nat, q: nat :: k <= 3 && Tab(Hang(mem, t, p, f), root, k, q).At? ==>
      Tab(mem, root, k, q) == Tab(Hang(mem, t, p, f), root, k, q) || Tab(Hang(mem, t, p, f), root, k, q) == At(f)
  {
    var mem' := Hang(mem, t, p, f);
    FlagBits();
    forall k: nat, q: nat | k <= 3
      ensures Tab(mem', root, k, q) == if k == l + 1 && q == p then At(f) else Tab(mem, root, k, q)
    {
      HangTab(mem, root, l, p, t, f, k, q);
    }
    forall k: nat, q: nat | k <= 3
      ensures Ent(mem', root, k, q) == if k == l && q == p then Word(f, TABLE_FLAGS) else Ent(mem, root, k, q)
    {
      HangTab(mem, root, l, p, t, f, k, q / ENTRYSZ);
      HangEnt(mem, root, l, p, t, f, k, q);
    }
    TableFlagFields(f);
    HangSpace(mem, mem', root, l, p, f, free);
  }

  lemma HangSpace(mem: Mem, mem': Mem, root: nat, l: nat, p: nat, f: nat, free: seq<nat>)
    requires Space(mem, root, [f] + free) && |mem'| == |mem| && l < 3 && !Table(mem, root, f)
    requires Tab(mem, root, l + 1, p) == Absent
    requires forall k: nat, q: nat :: k <= 3 ==>
      Tab(mem', root, k, q) == if k == l + 1 && q == p then At(f) else Tab(mem, root, k, q)
    requires forall k: nat, q: nat :: k <= 3 ==>
      Ent(mem', root, k, q) == if k == l && q == p then Word(f, TABLE_FLAGS) else Ent(mem, root, k, q)
    ensures Space(mem', root, free)
  {
    FlagBits();
    assert ([f] + free)[0] == f;
    forall i | 0 <= i < |free| ensures free[i] < |mem| && free[i] != f {
      assert ([f] + free)[i + 1] == free[i];
    }
    forall i, j | 0 <= i < j < |free| ensures free[i] != free[j] {
      assert ([f] + free)[i + 1] == free[i] && ([f] + free)[j + 1] == free[j];
    }
  }

  // ---- one page ----------------------------------------------------------------------------

  function SetLeaf(mem: Mem, t: nat, vpn: nat, w: Word): (mem': Mem)
    requires t < |mem|
    ensures |mem'| == |mem|
  {
    mem[t := mem[t][vpn % ENTRYSZ := w]]
  }

  lemma {:induction false} LeafTab(mem: Mem, root: nat, vpn: nat, t: nat, w: Word, k: nat, q: nat)
    requires Tree(mem, root) && Tab(mem, root, 3, vpn / ENTRYSZ) == At(t) && t < |mem| && k <= 3
    ensures Tab(SetLeaf(mem, t, vpn, w), root, k, q) == Tab(mem, root, k, q)
    decreases k
  {
    if k > 0 {
      LeafTab(mem, root, vpn, t, w, k - 1, q / ENTRYSZ);
      assert Tab(mem, root, k - 1, q / ENTRYSZ) != At(t);
    }
  }

  lemma LeafPage(mem: Mem, root: nat, vpn: nat, t: nat, w: Word, q: nat)
    requires Tree(mem, root) && Tab(mem, root, 3, vpn / ENTRYSZ) == At(t) && t < |mem|
    ensures Ent(SetLeaf(mem, t, vpn, w), root, 3, q) == if q == vpn then w else Ent(mem, root, 3, q)
  {
    LeafTab(mem, root, vpn, t, w, 3, q / ENTRYSZ);
    if Tab(mem, root, 3, q / ENTRYSZ) == At(t) && q % ENTRYSZ == vpn % ENTRYSZ { Same(q, vpn); }
  }

  lemma LeafAbove(mem: Mem, root: nat, vpn: nat, t: nat, w: Word, k: nat, q: nat)
    requires Tree(mem, root) && Tab(mem, root, 3, vpn / ENTRYSZ) == At(t) && t < |mem| && k < 3
    ensures Ent(SetLeaf(mem, t, vpn, w), root, k, q) == Ent(mem, root, k, q)
  {
    LeafTab(mem, root, vpn, t, w, k, q / ENTRYSZ);
    assert Tab(mem, root, k, q / ENTRYSZ) != At(t);
  }

  lemma LeafReads(mem: Mem, root: nat, vpn: nat, t: nat, w: Word)
    requires Tree(mem, root) && Tab(mem, root, 3, vpn / ENTRYSZ) == At(t) && t < |mem|
    ensures forall k: nat, q: nat :: k <= 3 ==> Tab(SetLeaf(mem, t, vpn, w), root, k, q) == Tab(mem, root, k, q)
    ensures forall k: nat, q: nat :: k < 3 ==> Ent(SetLeaf(mem, t, vpn, w), root, k, q) == Ent(mem, root, k, q)
    ensures forall q: nat :: Ent(SetLeaf(mem, t, vpn, w), root, 3, q) == if q == vpn then w else Ent(mem, root, 3, q)
  {
    var mem' := SetLeaf(mem, t, vpn, w);
    forall k: nat, q: nat | k <= 3 ensures Tab(mem', root, k, q) == Tab(mem, root, k, q) {
      LeafTab(mem, root, vpn, t, w, k, q);
    }
    forall q: nat ensures Ent(mem', root, 3, q) == if q == vpn then w else Ent(mem, root, 3, q) {
      LeafPage(mem, root, vpn, t, w, q);
    }
    forall k: nat, q: nat | k < 3 ensures Ent(mem', root, k, q) == Ent(mem, root, k, q) {
      LeafAbove(mem, root, vpn, t, w, k, q);
    }
  }

  /** `*pte = w` changes the descriptor of one page and nothing else. */
  lemma SetLeafKeeps(mem: Mem, root: nat, vpn: nat, t: nat, w: Word, free: seq<nat>)
    requires Space(mem, root, free) && Tab(mem, root, 3, vpn / ENTRYSZ) == At(t) && t < |mem|
    ensures Space(SetLeaf(mem, t, vpn, w), root, free)
    ensures forall k: nat, q: nat :: k <= 3 ==> Tab(SetLeaf(mem, t, vpn, w), root, k, q) == Tab(mem, root, k, q)
    ensures forall q: nat :: Ent(SetLeaf(mem, t, vpn, w), root, 3, q) == if q == vpn then w else Ent(mem, root, 3, q)
  {
    LeafReads(mem, root, vpn, t, w);
  }

  // ---- other address spaces ----------------------------------------------------------------

  /** An address space reads only its tables. */
  lemma {:induction false} TabFrame(mem: Mem, mem': Mem, root: nat, k: nat, q: nat)
    requires |mem'| == |mem| && k <= 4
    requires TablesSame(mem, mem', root)
    ensures Tab(mem', root, k, q) == Tab(mem, root, k, q)
    ensures k > 0 ==> Ent(mem', root, k - 1, q) == Ent(mem, root, k - 1, q)
    decreases k
  {
    if k > 0 {
      TabFrame(mem, mem', root, k - 1, q / ENTRYSZ);
      assert TableSame(mem, mem', root, k - 1, q / ENTRYSZ);
    }
  }

  lemma SpaceReads(mem: Mem, mem': Mem, root: nat, free: seq<nat>)
    requires Space(mem, root, free) && |mem'| == |mem|
    requires forall f: nat :: f < |mem| && f !in free ==> mem'[f] == mem[f]
    ensures forall k: nat, q: nat :: k <= 3 ==> Tab(mem', root, k, q) == Tab(mem, root, k, q)
    ensures forall k: nat, q: nat :: k <= 3 ==> Ent(mem', root, k, q) == Ent(mem, root, k, q)
  {
    Untouched(mem, mem', root, free);
    SameReads(mem, mem', root);
  }

  lemma SameReads(mem: Mem, mem': Mem, root: nat)
    requires |mem'| == |mem| && TablesSame(mem, mem', root)
    ensures forall k: nat, q: nat :: k <= 3 ==> Tab(mem', root, k, q) == Tab(mem, root, k, q)
    ensures forall k: nat, q: nat :: k <= 3 ==> Ent(mem', root, k, q) == Ent(mem, root, k, q)
  {
    forall k: nat, q: nat | k <= 3
      ensures Tab(mem', root, k, q) == Tab(mem, root, k, q) && Ent(mem', root, k, q) == Ent(mem, root, k, q)
    {
      TabFrame(mem, mem', root, k, q);
      TabFrame(mem, mem', root, k + 1, q);
    }
  }

  ghost predicate TablesSame(mem: Mem, mem': Mem, root: nat)
    requires |mem'| == |mem|
  {
    forall l: nat, p: nat :: l <= 3 ==> TableSame(mem, mem', root, l, p)
  }

  ghost predicate TableSame(mem: Mem, mem': Mem, root: nat, l: nat, p: nat)
    requires |mem'| == |mem|
  {
    var t := Tab(mem, root, l, p);
    t.At? && t.f < |mem| ==> mem'[t.f] == mem[t.f]
  }

  lemma Untouched(mem: Mem, mem': Mem, root: nat, free: seq<nat>)
    requires Space(mem, root, free) && |mem'| == |mem|
    requires forall f: nat :: f < |mem| && f !in free ==> mem'[f] == mem[f]
    ensures TablesSame(mem, mem', root)
  {
  }

  /** Frames taken from the free list are nobody's tables: other address spaces do not notice. */
  lemma SpaceFrame(mem: Mem, mem': Mem, root: nat, free: seq<nat>, free': seq<nat>)
    requires Space(mem, root, free) && |mem'| == |mem| && FreeOk(mem', free')
    requires forall i :: 0 <= i < |free'| ==> free'[i] in free
    requires forall f: nat :: f < |mem| && f !in free ==> mem'[f] == mem[f]
    ensures Space(mem', root, free')
    ensures forall k: nat, q: nat :: k <= 3 ==> Tab(mem', root, k, q) == Tab(mem, root, k, q)
    ensures forall q: nat :: Ent(mem', root, 3, q) == Ent(mem, root, 3, q)
  {
    SpaceReads(mem, mem', root, free);
  }

  // ---- freeing -----------------------------------------------------------------------------

  /** Whether vm_free_dfs descends through an entry of a table at this level. */
  predicate Descends(w: Word, level: nat) {
    Present(w) && IsTable(w) && level != 3
  }

  /** The frames vm_free_dfs gives to kfree for a table, in order: those below its first i entries
      (PagesTo), and at the end the table itself (Pages). */
  function Pages(mem: Mem, t: nat, level: nat): seq<nat>
    requires level <= 3
    decreases 3 - level, ENTRYSZ + 1
  {
    PagesTo(mem, t, level, ENTRYSZ) + [t]
  }

  function PagesTo(mem: Mem, t: nat, level: nat, i: nat): seq<nat>
    requires level <= 3 && i <= ENTRYSZ
    decreases 3 - level, i
  {
    if i == 0 then []
    else PagesTo(mem, t, level, i - 1) + Below(mem, t, level, i - 1)
  }

  /** The frames below one entry. */
  function Below(mem: Mem, t: nat, level: nat, i: nat): seq<nat>
    requires level <= 3 && i < ENTRYSZ
    decreases 3 - level, i
  {
    if t < |mem| && level < 3 && Descends(mem[t][i], level) then Pages(mem, mem[t][i].frame, level + 1) else []
  }

  /** The walk reads only the frames it is about to free. */
  lemma {:induction false} PagesFrame(mem: Mem, mem': Mem, t: nat, level: nat)
    requires level <= 3 && |mem'| == |mem|
    requires forall f: nat :: f in Pages(mem, t, level) && f < |mem| ==> mem'[f] == mem[f]
    ensures Pages(mem', t, level) == Pages(mem, t, level)
    decreases 3 - level, ENTRYSZ + 1
  {
    assert t in Pages(mem, t, level);
    PagesToFrame(mem, mem', t, level, ENTRYSZ);
  }

  lemma {:induction false} PagesToFrame(mem: Mem, mem': Mem, t: nat, level: nat, i: nat)
    requires level <= 3 && i <= ENTRYSZ && |mem'| == |mem|
    requires t < |mem| ==> mem'[t] == mem[t]
    requires forall f: nat :: f in PagesTo(mem, t, level, i) && f < |mem| ==> mem'[f] == mem[f]
    ensures PagesTo(mem', t, level, i) == PagesTo(mem, t, level, i)
    decreases 3 - level, i
  {
    if i > 0 {
      PagesToFrame(mem, mem', t, level, i - 1);
      if t < |mem| && level < 3 && Descends(mem[t][i - 1], level) {
        assert Below(mem, t, level, i - 1) == Pages(mem, mem[t][i - 1].frame, level + 1);
        assert forall f: nat :: f in Below(mem, t, level, i - 1) ==> f in PagesTo(mem, t, level, i);
        PagesFrame(mem, mem', mem[t][i - 1].frame, level + 1);
      }
    }
  }

  lemma {:induction false} PagesPrefix(mem: Mem, t: nat, level: nat, i: nat, j: nat)
    requires level <= 3 && i <= j <= ENTRYSZ
    ensures PagesTo(mem, t, level, i) <= PagesTo(mem, t, level, j)
    decreases j - i
  {
    if i < j {
      PagesPrefix(mem, t, level, i, j - 1);
    }
  }

  // ---- the frames freed are the tables -----------------------------------------------------

  /** Position (k, q) lies in the subtree of (l, p). */
  predicate Under(l: nat, p: nat, k: nat, q: nat)
    decreases k
  {
    k >= l && if k == l then q == p else Under(l, p, k - 1, q / ENTRYSZ)
  }

  lemma ChildIndex(p: nat, i: nat)
    requires i < ENTRYSZ
    ensures (p * ENTRYSZ + i) / ENTRYSZ == p && (p * ENTRYSZ + i) % ENTRYSZ == i
  {
  }

  lemma {:induction false} UnderUp(l: nat, p: nat, k: nat, q: nat)
    requires Under(l + 1, p, k, q)
    ensures Under(l, p / ENTRYSZ, k, q)
    decreases k
  {
    if k > l + 1 { UnderUp(l, p, k - 1, q / ENTRYSZ); }
  }

  /** A position below (l, p) is below one child of it. */
  lemma {:induction false} UnderDown(l: nat, p: nat, k: nat, q: nat) returns (i: nat)
    requires Under(l, p, k, q) && k > l
    ensures i < ENTRYSZ && Under(l + 1, p * ENTRYSZ + i, k, q)
    decreases k
  {
    if k == l + 1 {
      i := q % ENTRYSZ;
    } else {
      i := UnderDown(l, p, k - 1, q / ENTRYSZ);
    }
  }

  lemma {:induction false} UnderUnique(l: nat, p: nat, p': nat, k: nat, q: nat)
    requires Under(l, p, k, q) && Under(l, p', k, q)
    ensures p == p'
    decreases k
  {
    if k > l { UnderUnique(l, p, p', k - 1, q / ENTRYSZ); }
  }

  /** An entry that vm_free_dfs descends through leads to a table. */
  lemma ChildTab(mem: Mem, root: nat, l: nat, p: nat, t: nat, i: nat)
    requires Tree(mem, root) && l < 3 && Tab(mem, root, l, p) == At(t) && i < ENTRYSZ
    ensures t < |mem| && Ent(mem, root, l, p * ENTRYSZ + i) == mem[t][i]
    ensures Descends(mem[t][i], l) <==> Tab(mem, root, l + 1, p * ENTRYSZ + i).At?
    ensures Descends(mem[t][i], l) ==> Tab(mem, root, l + 1, p * ENTRYSZ + i) == At(mem[t][i].frame)
  {
    ChildIndex(p, i);
  }

  /** Every frame freed below table (l, p) is a table of that subtree. */
  lemma {:induction false} Where(mem: Mem, root: nat, l: nat, p: nat, t: nat, f: nat) returns (k: nat, q: nat)
    requires Tree(mem, root) && l <= 3 && Tab(mem, root, l, p) == At(t) && f in Pages(mem, t, l)
    ensures k <= 3 && Under(l, p, k, q) && Tab(mem, root, k, q) == At(f)
    decreases 3 - l, ENTRYSZ + 2
  {
    if f == t {
      k, q := l, p;
    } else {
      assert f in PagesTo(mem, t, l, ENTRYSZ);
      var i := Entry(mem, t, l, ENTRYSZ, f);
      k, q := WhereBelow(mem, root, l, p, t, i, f);
      ChildIndex(p, i);
      UnderUp(l, p * ENTRYSZ + i, k, q);
    }
  }

  lemma {:induction false} WhereBelow(mem: Mem, root: nat, l: nat, p: nat, t: nat, i: nat,
                                      f: nat) returns (k: nat, q: nat)
    requires Tree(mem, root) && l <= 3 && Tab(mem, root, l, p) == At(t) && i < ENTRYSZ && f in Below(mem, t, l, i)
    ensures k <= 3 && Under(l + 1, p * ENTRYSZ + i, k, q) && Tab(mem, root, k, q) == At(f)
    decreases 3 - l, ENTRYSZ + 1
  {
    ChildTab(mem, root, l, p, t, i);
    k, q := Where(mem, root, l + 1, p * ENTRYSZ + i, mem[t][i].frame, f);
  }

  /** The entry below which a frame is freed. */
  lemma {:induction false} Entry(mem: Mem, t: nat, level: nat, n: nat, f: nat) returns (i: nat)
    requires level <= 3 && n <= ENTRYSZ && f in PagesTo(mem, t, level, n)
    ensures i < n && f in Below(mem, t, level, i)
    decreases n
  {
    if f in Below(mem, t, level, n - 1) {
      i := n - 1;
    } else {
      i := Entry(mem, t, level, n - 1, f);
    }
  }

  lemma InBelow(mem: Mem, t: nat, level: nat, i: nat, c: nat, f: nat)
    requires level < 3 && i < ENTRYSZ && t < |mem| && Descends(mem[t][i], level) && c == mem[t][i].frame
    requires f in Pages(mem, c, level + 1)
    ensures f in Pages(mem, t, level)
  {
    assert f in Below(mem, t, level, i);
    assert f in PagesTo(mem, t, level, i + 1);
    PagesPrefix(mem, t, level, i + 1, ENTRYSZ);
  }

  /** Every table of the subtree is freed. */
  lemma {:induction false} AllFreed(mem: Mem, root: nat, l: nat, p: nat, t: nat, k: nat, q: nat, f: nat)
    requires Tree(mem, root) && l <= k <= 3 && Under(l, p, k, q)
    requires Tab(mem, root, l, p) == At(t) && Tab(mem, root, k, q) == At(f)
    ensures f in Pages(mem, t, l)
    decreases 3 - l
  {
    if k > l {
      var i, c := Toward(mem, root, l, p, t, k, q);
      AllFreed(mem, root, l + 1, p * ENTRYSZ + i, c, k, q, f);
      InBelow(mem, t, l, i, c, f);
    } else {
      LastFreed(mem, t, l);
    }
  }

  lemma LastFreed(mem: Mem, t: nat, l: nat)
    requires l <= 3
    ensures t in Pages(mem, t, l)
  {
    assert Pages(mem, t, l)[|PagesTo(mem, t, l, ENTRYSZ)|] == t;
  }

  /** The entry of table (l, p) that leads toward table (k, q), and the table it leads to. */
  lemma Toward(mem: Mem, root: nat, l: nat, p: nat, t: nat, k: nat, q: nat) returns (i: nat, c: nat)
    requires Tree(mem, root) && l < k <= 3 && Under(l, p, k, q) && Tab(mem, root, l, p) == At(t)
    requires Tab(mem, root, k, q).At?
    ensures i < ENTRYSZ && t < |mem| && Descends(mem[t][i], l) && mem[t][i].frame == c
    ensures Under(l + 1, p * ENTRYSZ + i, k, q) && Tab(mem, root, l + 1, p * ENTRYSZ + i) == At(c)
  {
    i := UnderDown(l, p, k, q);
    Ancestor(mem, root, l + 1, p * ENTRYSZ + i, k, q);
    ChildTab(mem, root, l, p, t, i);
    c := mem[t][i].frame;
  }

  lemma {:induction false} Ancestor(mem: Mem, root: nat, l: nat, p: nat, k: nat, q: nat)
    requires Under(l, p, k, q) && Tab(mem, root, k, q).At?
    ensures Tab(mem, root, l, p).At?
    decreases k
  {
    FlagBits();
    if k > l { Ancestor(mem, root, l, p, k - 1, q / ENTRYSZ); }
  }

  /** A frame is freed below one entry only, and a table is not freed below itself. */
  lemma OneEntry(mem: Mem, root: nat, l: nat, p: nat, t: nat, i: nat, j: nat, f: nat)
    requires Tree(mem, root) && l <= 3 && Tab(mem, root, l, p) == At(t) && i < ENTRYSZ && j < ENTRYSZ
    requires f in Below(mem, t, l, i)
    ensures f != t && (f in Below(mem, t, l, j) ==> i == j)
  {
    var k, q := WhereBelow(mem, root, l, p, t, i, f);
    if f in Below(mem, t, l, j) {
      var k', q' := WhereBelow(mem, root, l, p, t, j, f);
      UnderUnique(l + 1, p * ENTRYSZ + i, p * ENTRYSZ + j, k, q);
    }
  }

  /** No table is freed twice. */
  lemma {:induction false} FreedOnce(mem: Mem, root: nat, l: nat, p: nat, t: nat)
    requires Tree(mem, root) && l <= 3 && Tab(mem, root, l, p) == At(t)
    ensures NoDup(Pages(mem, t, l))
    decreases 3 - l, ENTRYSZ + 1
  {
    FreedOnceTo(mem, root, l, p, t, ENTRYSZ);
    var a := PagesTo(mem, t, l, ENTRYSZ);
    forall f: nat | f in a ensures f !in [t] {
      var i := Entry(mem, t, l, ENTRYSZ, f);
      OneEntry(mem, root, l, p, t, i, i, f);
    }
    Concat(a, [t]);
  }

  lemma {:induction false} FreedOnceTo(mem: Mem, root: nat, l: nat, p: nat, t: nat, n: nat)
    requires Tree(mem, root) && l <= 3 && Tab(mem, root, l, p) == At(t) && n <= ENTRYSZ
    ensures NoDup(PagesTo(mem, t, l, n))
    decreases 3 - l, n
  {
    if n > 0 {
      FreedOnceTo(mem, root, l, p, t, n - 1);
      BelowOnce(mem, root, l, p, t, n - 1);
      Disjoint(mem, root, l, p, t, n - 1, PagesTo(mem, t, l, n - 1), Below(mem, t, l, n - 1));
    }
  }

  lemma {:induction false} BelowOnce(mem: Mem, root: nat, l: nat, p: nat, t: nat, i: nat)
    requires Tree(mem, root) && l <= 3 && Tab(mem, root, l, p) == At(t) && i < ENTRYSZ
    ensures NoDup(Below(mem, t, l, i))
    decreases 3 - l, 0
  {
    if l < 3 {
      ChildTab(mem, root, l, p, t, i);
      if Descends(mem[t][i], l) {
        FreedOnce(mem, root, l + 1, p * ENTRYSZ + i, mem[t][i].frame);
      }
    }
  }

  lemma Disjoint(mem: Mem, root: nat, l: nat, p: nat, t: nat, n: nat, a: seq<nat>, b: seq<nat>)
    requires Tree(mem, root) && l <= 3 && Tab(mem, root, l, p) == At(t) && n < ENTRYSZ
    requires a == PagesTo(mem, t, l, n) && b == Below(mem, t, l, n) && NoDup(a) && NoDup(b)
    ensures NoDup(a + b)
  {
    forall f: nat | f in a ensures f !in b {
      var i := Entry(mem, t, l, n, f);
      OneEntry(mem, root, l, p, t, i, n, f);
    }
    Concat(a, b);
  }

  lemma Concat(a: seq<nat>, b: seq<nat>)
    requires NoDup(a) && NoDup(b) && forall f: nat :: f in a ==> f !in b
    ensures NoDup(a + b)
  {
    forall i, j | 0 <= i < |a| <= j < |a + b| ensures (a + b)[i] != (a + b)[j] {
      assert a[i] in a && b[j - |a|] in b;
    }
  }

  /** vm_free on an address space: the frames it frees are exactly its tables, each once. */
  lemma FreesExactlyTables(mem: Mem, root: nat)
    requires Tree(mem, root)
    ensures NoDup(Pages(mem, root, 0))
    ensures forall f: nat :: f in Pages(mem, root, 0) <==> Table(mem, root, f)
  {
    FreedOnce(mem, root, 0, 0, root);
    forall f: nat | f in Pages(mem, root, 0) ensures Table(mem, root, f) {
      var k, q := Where(mem, root, 0, 0, root, f);
    }
    forall f: nat | Table(mem, root, f) ensures f in Pages(mem, root, 0) {
      var k: nat, q: nat :| k <= 3 && Tab(mem, root, k, q) == At(f);
      UnderRoot(mem, root, k, q);
      AllFreed(mem, root, 0, 0, root, k, q, f);
    }
  }

  lemma {:induction false} UnderRoot(mem: Mem, root: nat, k: nat, q: nat)
    requires Tab(mem, root, k, q).At?
    ensures Under(0, 0, k, q)
    decreases k
  {
    FlagBits();
    if k > 0 { UnderRoot(mem, root, k - 1, q / ENTRYSZ); }
  }
}
