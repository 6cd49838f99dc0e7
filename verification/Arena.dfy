/** The bump allocator over a list of pages (src/arena.c); page allocation is taken to succeed. */
module ArenaAllocator {

  const ARENA_PAGE_SIZE: nat := 4096

  /** `backing` is the length of the block behind the page; `size` the part the allocator uses. */
  datatype Page = Page(backing: nat, size: nat, current: nat)

  datatype Range = Range(page: nat, offset: nat, length: nat)

  predicate PageOk(p: Page) { p.current <= p.size <= p.backing }

  predicate PagesOk(ps: seq<Page>) { |ps| >= 1 && forall i :: 0 <= i < |ps| ==> PageOk(ps[i]) }

  /** First page at or after i with room. */
  function FirstFit(ps: seq<Page>, size: nat, i: nat): (k: nat)
    requires i <= |ps|
    ensures i <= k <= |ps|
    ensures k < |ps| ==> ps[k].size - ps[k].current >= size
    ensures forall j :: i <= j < k ==> ps[j].size - ps[j].current < size
    decreases |ps| - i
  {
    if i == |ps| || ps[i].size - ps[i].current >= size then i else FirstFit(ps, size, i + 1)
  }

  function Alloc(ps: seq<Page>, size: nat): (seq<Page>, Range) {
    var k := FirstFit(ps, size, 0);
    if k < |ps| then (ps[k := ps[k].(current := ps[k].current + size)], Range(k, ps[k].current, size))
    else (ps + [Page(if size > ARENA_PAGE_SIZE then size else ARENA_PAGE_SIZE, size, size)], Range(k, 0, size))
  }

  function Reset(ps: seq<Page>): seq<Page> {
    seq(|ps|, i requires 0 <= i < |ps| => ps[i].(current := 0))
  }

  predicate Inside(r: Range, ps: seq<Page>) {
    r.page < |ps| && r.offset + r.length <= ps[r.page].backing
  }

  predicate Disjoint(a: Range, b: Range) {
    a.page != b.page || a.offset + a.length <= b.offset || b.offset + b.length <= a.offset
  }

  /** Every page keeps its backing block and its bound; its cursor only moves forward. */
  predicate Grows(ps: seq<Page>, qs: seq<Page>) {
    && |ps| <= |qs|
    && forall i :: 0 <= i < |ps| ==> qs[i].backing == ps[i].backing && qs[i].size == ps[i].size && ps[i].current <= qs[i].current
  }

  /** At or beyond the cursor of its page: not overlapping anything handed out before. */
  predicate Beyond(r: Range, ps: seq<Page>) { r.page < |ps| ==> ps[r.page].current <= r.offset }

  predicate Behind(r: Range, ps: seq<Page>) { r.page < |ps| && r.offset + r.length <= ps[r.page].current }

  lemma AllocStep(ps: seq<Page>, size: nat)
    requires PagesOk(ps)
    ensures var (qs, r) := Alloc(ps, size);
            PagesOk(qs) && Grows(ps, qs) && Inside(r, qs) && r.length == size && Beyond(r, ps) && Behind(r, qs)
  {
  }

  lemma ResetOk(ps: seq<Page>)
    requires PagesOk(ps)
    ensures PagesOk(Reset(ps)) && |Reset(ps)| == |ps|
    ensures forall i :: 0 <= i < |ps| ==> Reset(ps)[i].backing == ps[i].backing && Reset(ps)[i].current == 0
  {
  }

  function AllocAll(ps: seq<Page>, sizes: seq<nat>): (seq<Page>, seq<Range>)
    decreases |sizes|
  {
    if sizes == [] then (ps, [])
    else
      var (qs, r) := Alloc(ps, sizes[0]);
      var (end, rs) := AllocAll(qs, sizes[1..]);
      (end, [r] + rs)
  }

  lemma {:induction false} AllocAllBeyond(ps: seq<Page>, sizes: seq<nat>)
    requires PagesOk(ps)
    ensures var (qs, rs) := AllocAll(ps, sizes);
            && PagesOk(qs) && Grows(ps, qs) && |rs| == |sizes|
            && (forall i :: 0 <= i < |rs| ==> rs[i].length == sizes[i] && Inside(rs[i], qs) && Beyond(rs[i], ps))
    decreases |sizes|
  {
    if sizes != [] {
      var (mid, r) := Alloc(ps, sizes[0]);
      var (qs, rs) := AllocAll(mid, sizes[1..]);
      AllocStep(ps, sizes[0]);
      AllocAllBeyond(mid, sizes[1..]);
      forall i | 0 <= i < |rs| ensures Beyond(rs[i], ps) {
        assert Beyond(rs[i], mid);
      }
    }
  }

  /**
   For every sequence of allocations between resets: all returned ranges lie inside the
   block that backs their page and are pairwise disjoint, and on every page
   current <= size <= backing throughout.
   */
  lemma {:induction false} AllocationsDisjoint(ps: seq<Page>, sizes: seq<nat>)
    requires PagesOk(ps)
    ensures var (qs, rs) := AllocAll(ps, sizes);
            && PagesOk(qs) && |rs| == |sizes|
            && (forall i :: 0 <= i < |rs| ==> rs[i].length == sizes[i] && Inside(rs[i], qs))
            && (forall i, j :: 0 <= i < j < |rs| ==> Disjoint(rs[i], rs[j]))
    decreases |sizes|
  {
    AllocAllBeyond(ps, sizes);
    if sizes != [] {
      var (mid, r) := Alloc(ps, sizes[0]);
      var (qs, rs) := AllocAll(mid, sizes[1..]);
      AllocStep(ps, sizes[0]);
      AllocAllBeyond(mid, sizes[1..]);
      AllocationsDisjoint(mid, sizes[1..]);
      forall j | 0 <= j < |rs| ensures Disjoint(r, rs[j]) {
        assert Beyond(rs[j], mid) && Behind(r, mid);
      }
    }
  }

  class Arena {
    var pages: seq<Page>

    constructor ()
      ensures PagesOk(pages) && pages == [Page(ARENA_PAGE_SIZE, ARENA_PAGE_SIZE, 0)]
    {
      pages := [Page(ARENA_PAGE_SIZE, ARENA_PAGE_SIZE, 0)];
    }

    /** `arena_alloc`: walk the pages, bump the first with room, else link a new page. */
    method Allocate(size: nat) returns (r: Range)
      requires PagesOk(pages)
      modifies this
      ensures (pages, r) == Alloc(old(pages), size)
      ensures PagesOk(pages) && Inside(r, pages) && Beyond(r, old(pages)) && Behind(r, pages)
    {
      AllocStep(pages, size);
      var i := 0;
      while i < |pages|
        invariant 0 <= i <= |pages| && pages == old(pages)
        invariant FirstFit(pages, size, 0) == FirstFit(pages, size, i)
      {
        if pages[i].size - pages[i].current >= size {
          r := Range(i, pages[i].current, size);
          pages := pages[i := pages[i].(current := pages[i].current + size)];
          return;
        }
        i := i + 1;
      }
      var backing := if size > ARENA_PAGE_SIZE then size else ARENA_PAGE_SIZE;
      r := Range(|pages|, 0, size);
      pages := pages + [Page(backing, size, size)];
    }

    method ResetAll()
      requires PagesOk(pages)
      modifies this
      ensures pages == Reset(old(pages)) && PagesOk(pages)
    {
      var i := 0;
      while i < |pages|
        invariant 0 <= i <= |pages| == |old(pages)|
        invariant forall j :: 0 <= j < |pages| ==> pages[j] == if j < i then old(pages)[j].(current := 0) else old(pages)[j]
      {
        pages := pages[i := pages[i].(current := 0)];
        i := i + 1;
      }
    }
  }
}
