/** The mark-sweep collector and the cell allocator (gc.h, heap.h). */
module Collector {
  import opened Tml
  import opened Reachability
  import opened Wrappers

  /** The free list: `head` is its first cell or -1, every listed cell's cdr is the
      next one or -1, and `cells` lists the cells in order. */
  predicate Chain(cdrs: seq<int>, head: int, cells: seq<int>)
    decreases |cells|
  {
    if cells == [] then head == -1
    else head == cells[0] && 0 <= head < |cdrs| && Chain(cdrs, cdrs[head], cells[1..])
  }

  predicate Distinct(s: seq<int>) {
    forall i, j :: 0 <= i < j < |s| ==> s[i] != s[j]
  }

  /** Rewriting a word outside the chain keeps the chain. */
  lemma {:induction false} ChainFrame(cdrs: seq<int>, cdrs': seq<int>, head: int, cells: seq<int>)
    requires Chain(cdrs, head, cells) && |cdrs'| == |cdrs|
    requires forall i :: 0 <= i < |cdrs| && i in cells ==> cdrs'[i] == cdrs[i]
    ensures Chain(cdrs', head, cells)
    decreases |cells|
  {
    if cells != [] {
      assert cells[0] in cells;
      ChainFrame(cdrs, cdrs', cdrs[head], cells[1..]);
    }
  }

  /** A cell outside the chain becomes its new head. */
  lemma ChainPush(cdrs: seq<int>, head: int, cells: seq<int>, i: int)
    requires Chain(cdrs, head, cells) && 0 <= i < |cdrs| && i !in cells
    ensures Chain(cdrs[i := head], i, [i] + cells)
  {
    ChainFrame(cdrs, cdrs[i := head], head, cells);
    assert ([i] + cells)[1..] == cells;
  }

  /** A chain cannot revisit a cell: it is determined by its head and ends. */
  lemma {:induction false} ChainDetermined(cdrs: seq<int>, head: int, s: seq<int>, t: seq<int>)
    requires Chain(cdrs, head, s) && Chain(cdrs, head, t)
    ensures s == t
    decreases |s|
  {
    if s != [] && t != [] {
      ChainDetermined(cdrs, cdrs[head], s[1..], t[1..]);
    }
  }

  lemma {:induction false} ChainSuffix(cdrs: seq<int>, head: int, cells: seq<int>, k: int)
    requires Chain(cdrs, head, cells) && 0 <= k < |cells|
    ensures 0 <= cells[k] < |cdrs| && Chain(cdrs, cells[k], cells[k..])
    decreases |cells|
  {
    if k > 0 {
      ChainSuffix(cdrs, cdrs[head], cells[1..], k - 1);
      assert cells[1..][k - 1..] == cells[k..];
    }
  }

  lemma ChainAcyclic(cdrs: seq<int>, head: int, cells: seq<int>)
    requires Chain(cdrs, head, cells)
    ensures Distinct(cells)
  {
    forall i, j | 0 <= i < j < |cells| ensures cells[i] != cells[j] {
      ChainSuffix(cdrs, head, cells, i);
      ChainSuffix(cdrs, head, cells, j);
      if cells[i] == cells[j] {
        ChainDetermined(cdrs, cells[i], cells[i..], cells[j..]);
      }
    }
  }

  /** The first `n` cell indices. */
  function Upto(n: nat): (s: set<int>)
    ensures forall i :: i in s <==> 0 <= i < n
  {
    if n == 0 then {} else Upto(n - 1) + {n - 1}
  }

  lemma {:induction false} UptoSize(n: nat)
    ensures |Upto(n)| == n
  {
    if n > 0 {
      UptoSize(n - 1);
    }
  }

  lemma {:induction false} DistinctSize(s: seq<int>)
    requires Distinct(s)
    ensures |set i | i in s| == |s|
  {
    if s == [] {
      assert (set i | i in s) == {};
    } else {
      DistinctSize(s[1..]);
      assert (set i | i in s) == (set i | i in s[1..]) + {s[0]};
    }
  }

  /** The cells in `lo..hi` outside `live`, ascending. */
  function Unmarked(live: set<int>, lo: int, hi: int): (s: seq<int>)
    ensures forall i :: i in s <==> lo <= i < hi && i !in live
    decreases hi - lo
  {
    if lo >= hi then []
    else if lo in live then Unmarked(live, lo + 1, hi)
    else [lo] + Unmarked(live, lo + 1, hi)
  }

  lemma UnmarkedStep(live: set<int>, lo: int, hi: int)
    ensures Unmarked(live, lo, hi)
         == if lo >= hi then [] else (if lo in live then [] else [lo]) + Unmarked(live, lo + 1, hi)
  {
  }

  lemma RestrictIs(g: Cells, live: set<int>, n: int, free: seq<int>, g': Cells)
    requires live <= g.Keys && forall i :: i in live ==> 0 <= i < n
    requires forall i :: i in free <==> 0 <= i < n && i !in live
    requires forall i :: i in g' <==> 0 <= i < n && i !in free
    requires forall i :: i in g' && i in g ==> g'[i] == g[i]
    ensures g' == Restrict(g, live)
  {
    var r := Restrict(g, live);
    forall i ensures i in g' <==> i in r { assert i in live <==> i in g' && i !in free; }
    assert forall i :: i in g' ==> g'[i] == r[i];
    assert g' == r;
  }

  lemma NoneUnmarked(live: set<int>, lo: int, hi: int)
    ensures Unmarked(live, lo, hi) == [] <==> forall i :: lo <= i < hi ==> i in live
  {
    var u := Unmarked(live, lo, hi);
    if u != [] {
      assert u[0] in u;
    }
  }

  /** The words of a scanned stack that the conservative scan takes for pointers. */
  function StackRoots(stack: seq<int>, heapNext: int): seq<int>
  {
    if stack == [] then []
    else
      var w := stack[|stack| - 1];
      StackRoots(stack[..|stack| - 1], heapNext)
      + (if IsPointer(w) && 0 <= PtrIdx(w) < heapNext then [w] else [])
  }

  /** Words that pass the scan's range test dangle nowhere once every cell is allocated. */
  lemma {:induction false} StackRootsOk(g: Cells, stack: seq<int>, heapNext: int)
    requires forall i :: 0 <= i < heapNext ==> i in g
    ensures AllOk(g, StackRoots(stack, heapNext))
  {
    if stack != [] {
      StackRootsOk(g, stack[..|stack| - 1], heapNext);
    }
  }

  /** The scan misses no stack word that points to a cell. */
  lemma {:induction false} StackRootsHas(stack: seq<int>, heapNext: int, w: int)
    requires w in stack && IsPointer(w) && 0 <= PtrIdx(w) < heapNext
    ensures w in StackRoots(stack, heapNext)
  {
    var n := |stack| - 1;
    if stack[n] != w {
      StackRootsHas(stack[..n], heapNext, w);
    }
  }

  /** catch_tags[i] and catch_vals[i], in marking order. */
  function CatchRoots(tags: seq<int>, vals: seq<int>): seq<int>
    requires |tags| == |vals|
  {
    if tags == [] then []
    else
      var n := |tags| - 1;
      CatchRoots(tags[..n], vals[..n]) + [tags[n], vals[n]]
  }

  lemma {:induction false} CatchRootsLen(tags: seq<int>, vals: seq<int>)
    requires |tags| == |vals|
    ensures |CatchRoots(tags, vals)| == 2 * |tags|
  {
    if tags != [] {
      CatchRootsLen(tags[..|tags| - 1], vals[..|tags| - 1]);
    }
  }

  lemma {:induction false} CatchRootsAt(tags: seq<int>, vals: seq<int>, i: int)
    requires |tags| == |vals| && 0 <= i < |tags|
    ensures |CatchRoots(tags, vals)| == 2 * |tags|
    ensures CatchRoots(tags, vals)[2 * i] == tags[i] && CatchRoots(tags, vals)[2 * i + 1] == vals[i]
  {
    CatchRootsLen(tags, vals);
    var n := |tags| - 1;
    CatchRootsLen(tags[..n], vals[..n]);
    if i < n {
      CatchRootsAt(tags[..n], vals[..n], i);
    }
  }

  lemma {:induction false} StackRootsPrefix(stack: seq<int>, n: int, heapNext: int)
    requires 0 <= n <= |stack|
    ensures StackRoots(stack[..n], heapNext) <= StackRoots(stack, heapNext)
    decreases |stack|
  {
    if n < |stack| {
      StackRootsPrefix(stack[..|stack| - 1], n, heapNext);
      assert stack[..|stack| - 1][..n] == stack[..n];
    } else {
      assert stack[..n] == stack;
    }
  }

  class Heap {
    const heapCar: array<int>
    const heapCdr: array<int>
    const heapMark: array<int>
    var heapNext: int
    var freeList: int
    var gcEnabled: bool
    var gcCollections: int
    const gcRoots: array<int>
    var gcRootCount: int
    // Roots owned by the evaluator (eval.h), up to their current depths.
    var globalEnv: int
    var windAfter: seq<int>
    var catchTags: seq<int>
    var catchVals: seq<int>
    /** The free list, first cell first. */
    ghost var free: seq<int>

    ghost predicate Shape()
      reads this
    {
      && heapCar.Length == heapCdr.Length == heapMark.Length == HEAP_SIZE
      && heapCar != heapCdr && heapCar != heapMark && heapCdr != heapMark
      && gcRoots.Length == MAX_GC_ROOTS
      && gcRoots != heapCar && gcRoots != heapCdr && gcRoots != heapMark
      && 0 <= heapNext <= HEAP_SIZE
      && 0 <= gcRootCount <= MAX_GC_ROOTS
      && |catchTags| == |catchVals|
    }

    /** The allocated cells: those handed out and not on the free list. */
    ghost function Live(): Cells
      requires Shape()
      reads this, heapCar, heapCdr
    {
      map i | 0 <= i < heapNext && i !in free :: (heapCar[i], heapCdr[i])
    }

    /** These cells hold what `g` says. Besides the allocated ones they may be free ones, whose
        links a collection that starts from a stale word takes for words. */
    ghost predicate Sees(g: Cells)
      requires Shape()
      reads this, heapCar, heapCdr
    {
      forall i :: i in g ==> 0 <= i < heapNext && g[i] == (heapCar[i], heapCdr[i])
    }

    ghost function Marked(): set<int>
      requires Shape()
      reads this, heapMark
    {
      set i | 0 <= i < heapNext && heapMark[i] != 0
    }

    ghost predicate Valid()
      reads this, heapCar, heapCdr
    {
      && Shape()
      && Chain(heapCdr[..], freeList, free)
      && (forall i :: i in free ==> 0 <= i < heapNext && heapCar[i] == NIL_VAL)
      && Closed(Live())
    }

    /** The words kept as roots by name. */
    ghost function NamedRoots(): seq<int>
      requires Shape()
      reads this, gcRoots
    {
      [globalEnv] + gcRoots[..gcRootCount] + windAfter + CatchRoots(catchTags, catchVals)
    }

    /** The words marking starts from, in marking order. */
    ghost function Roots(stack: seq<int>): seq<int>
      requires Shape()
      reads this, gcRoots
    {
      NamedRoots() + StackRoots(stack, heapNext)
    }

    /** What the program can still reach. */
    ghost function Reachable(stack: seq<int>): set<int>
      requires Shape()
      reads this, heapCar, heapCdr, gcRoots
    {
      ReachSet(Live(), Roots(stack))
    }

    /** There is no cell to hand out: with the collector on, when the roots reach all of them;
        before, when all have been handed out. */
    ghost predicate Full(stack: seq<int>)
      requires Shape()
      reads this, heapCar, heapCdr, gcRoots
    {
      if gcEnabled then forall i :: 0 <= i < HEAP_SIZE ==> i in Reachable(stack) else heapNext == HEAP_SIZE
    }

    /** Marks exactly the cells that `v` reaches along so far unmarked cells. */
    method GcMarkVal(v: int, ghost g: Cells)
      requires Shape() && Sees(g) && Closed(g) && WordOk(g, v)
      requires Marked() <= g.Keys
      modifies heapMark
      ensures Marked() == old(Marked()) + WhiteSet(g, old(Marked()), v)
      ensures Marked() <= g.Keys
      decreases g.Keys - Marked()
    {
      hide WhiteReaches, Chain;
      ghost var m0 := Marked();
      var w := v;
      while true
        invariant Shape() && Sees(g)
        invariant Walk(g, m0, Marked(), v, w)
        decreases g.Keys - Marked()
      {
        // Cons and Extended words are marked by the same code.
        if !IsPointer(w) { break; }
        var idx := PtrIdx(w);
        if heapMark[idx] != 0 { break; }
        ghost var m := Marked();
        heapMark[idx] := 1;
        assert Marked() == m + {idx};
        GcMarkVal(heapCar[idx], g);
        WalkStep(g, m0, m, v, w, Marked());
        w := heapCdr[idx];
      }
      WalkEnd(g, m0, Marked(), v, w);
    }

    /** Puts cell `i` in front of the free list built so far. */
    method FreeCell(i: int, ghost cells: seq<int>)
      requires Shape() && 0 <= i < heapNext && i !in cells
      requires Chain(heapCdr[..], freeList, cells)
      modifies `freeList, heapCar, heapCdr
      ensures Chain(heapCdr[..], freeList, [i] + cells) && heapCar[i] == NIL_VAL
      ensures forall k :: 0 <= k < HEAP_SIZE && k != i ==>
                heapCar[k] == old(heapCar[k]) && heapCdr[k] == old(heapCdr[k])
    {
      ChainPush(heapCdr[..], freeList, cells, i);
      heapCdr[i] := freeList;
      heapCar[i] := NIL_VAL;
      freeList := i;
      assert heapCdr[..] == old(heapCdr[..])[i := old(freeList)];
    }

    /** Clears all marks and threads the unmarked cells, lowest first, on the free list. */
    method GcSweep(ghost g: Cells)
      requires Shape() && Sees(g) && Marked() <= g.Keys
      modifies `freeList, `free, heapCar, heapCdr, heapMark
      ensures Shape()
      ensures Live() == Restrict(g, old(Marked()))
      ensures free == Unmarked(old(Marked()), 0, heapNext)
      ensures Chain(heapCdr[..], freeList, free) && forall k :: k in free ==> heapCar[k] == NIL_VAL
      ensures Marked() == {}
    {
      hide Unmarked, Closed, Names, Reaches, Restrict;
      ghost var live := Marked();
      freeList := -1;
      ghost var cells: seq<int> := [];
      var i := heapNext - 1;
      UnmarkedStep(live, heapNext, heapNext);
      while i >= 0
        invariant -1 <= i < heapNext
        invariant forall k :: 0 <= k < heapNext && k in live ==>
                    heapCar[k] == old(heapCar[k]) && heapCdr[k] == old(heapCdr[k])
        invariant forall k :: 0 <= k <= i ==> heapMark[k] == old(heapMark[k])
        invariant forall k :: i < k < heapNext ==> heapMark[k] == 0
        invariant cells == Unmarked(live, i + 1, heapNext)
        invariant forall k :: k in cells ==> heapCar[k] == NIL_VAL
        invariant Chain(heapCdr[..], freeList, cells)
      {
        UnmarkedStep(live, i, heapNext);
        if heapMark[i] != 0 {
          heapMark[i] := 0;
        } else {
          FreeCell(i, cells);
          cells := [i] + cells;
        }
        i := i - 1;
      }
      free := cells;
      RestrictIs(g, live, heapNext, free, Live());
    }

    /** gc_mark_val on one more root, when the roots `ws` are done. */
    method MarkRoot(w: int, ghost g: Cells, ghost ws: seq<int>) returns (ghost ws': seq<int>)
      requires Shape() && Sees(g) && Closed(g)
      requires AllOk(g, ws) && WordOk(g, w)
      requires Marked() == ReachSet(g, ws)
      modifies heapMark
      ensures ws' == ws + [w] && AllOk(g, ws')
      ensures Marked() == ReachSet(g, ws')
    {
      ReachSetExpanded(g, ws);
      GcMarkVal(w, g);
      RootStep(g, ws, w);
      ws' := ws + [w];
    }

    /** Marks from the words of the scanned stack that look like heap pointers. */
    method GcScanStack(stack: seq<int>, ghost g: Cells, ghost ws: seq<int>)
      requires Shape() && Sees(g) && Closed(g)
      requires AllOk(g, ws) && AllOk(g, StackRoots(stack, heapNext))
      requires Marked() == ReachSet(g, ws)
      modifies heapMark
      ensures Marked() == ReachSet(g, ws + StackRoots(stack, heapNext))
    {
      hide Closed, ReachSet, ReachedFrom, Chain;
      var words := 0;
      assert ws + [] == ws;
      while words < |stack|
        invariant 0 <= words <= |stack|
        invariant Sees(g)
        invariant AllOk(g, ws + StackRoots(stack[..words], heapNext))
        invariant StackRoots(stack[..words], heapNext) <= StackRoots(stack, heapNext)
        invariant Marked() == ReachSet(g, ws + StackRoots(stack[..words], heapNext))
      {
        ghost var done := ws + StackRoots(stack[..words], heapNext);
        StackRootsPrefix(stack, words + 1, heapNext);
        assert stack[..words + 1][..words] == stack[..words];
        ghost var upto := StackRoots(stack[..words + 1], heapNext);
        var word := stack[words];
        if IsPointer(word) {
          var idx := PtrIdx(word);
          if idx >= 0 && idx < heapNext {
            assert upto[|upto| - 1] == word;
            done := MarkRoot(word, g, done);
            assert done == ws + upto;
          }
        }
        assert upto == StackRoots(stack[..words], heapNext)
          || upto == StackRoots(stack[..words], heapNext) + [word];
        words := words + 1;
      }
      assert stack[..|stack|] == stack;
    }

    /** Clears every mark below heap_next. */
    method ClearMarks()
      requires Shape()
      modifies heapMark
      ensures Marked() == {}
    {
      var i := 0;
      while i < heapNext
        invariant 0 <= i <= heapNext
        invariant forall k :: 0 <= k < i ==> heapMark[k] == 0
      {
        heapMark[i] := 0;
        i := i + 1;
      }
    }

    /** Marks from the global environment and the protected temporaries. */
    method MarkProtected(ghost g: Cells)
      requires Shape() && Sees(g) && Closed(g) && AllOk(g, NamedRoots()) && Marked() == {}
      modifies heapMark
      ensures AllOk(g, [globalEnv] + gcRoots[..gcRootCount])
      ensures Marked() == ReachSet(g, [globalEnv] + gcRoots[..gcRootCount])
    {
      ghost var named := NamedRoots();
      assert named[0] == globalEnv;
      assert Marked() == ReachSet(g, []);
      ghost var ws := MarkRoot(globalEnv, g, []);
      var i := 0;
      while i < gcRootCount
        invariant 0 <= i <= gcRootCount
        invariant AllOk(g, ws) && ws == [globalEnv] + gcRoots[..i]
        invariant Marked() == ReachSet(g, ws)
      {
        assert named[1 + i] == gcRoots[i];
        ws := MarkRoot(gcRoots[i], g, ws);
        i := i + 1;
      }
    }

    /** Marks from the pending after thunks and the catch frames. */
    method MarkFrames(ghost g: Cells, ghost ws0: seq<int>)
      requires Shape() && Sees(g) && Closed(g)
      requires AllOk(g, ws0) && AllOk(g, windAfter) && AllOk(g, CatchRoots(catchTags, catchVals))
      requires Marked() == ReachSet(g, ws0)
      modifies heapMark
      ensures Marked() == ReachSet(g, ws0 + windAfter + CatchRoots(catchTags, catchVals))
    {
      hide Closed, ReachSet, ReachedFrom, Chain;
      ghost var ws := ws0;
      var i := 0;
      while i < |windAfter|
        invariant 0 <= i <= |windAfter|
        invariant AllOk(g, ws) && ws == ws0 + windAfter[..i]
        invariant Marked() == ReachSet(g, ws)
      {
        ws := MarkRoot(windAfter[i], g, ws);
        i := i + 1;
      }
      i := 0;
      while i < |catchTags|
        invariant 0 <= i <= |catchTags|
        invariant AllOk(g, ws)
        invariant ws == ws0 + windAfter + CatchRoots(catchTags[..i], catchVals[..i])
        invariant Marked() == ReachSet(g, ws)
      {
        CatchRootsAt(catchTags, catchVals, i);
        assert catchTags[..i + 1][..i] == catchTags[..i] && catchVals[..i + 1][..i] == catchVals[..i];
        ws := MarkRoot(catchTags[i], g, ws);
        ws := MarkRoot(catchVals[i], g, ws);
        i := i + 1;
      }
      assert catchTags[..i] == catchTags && catchVals[..i] == catchVals;
    }

    lemma RootsOk(g: Cells, stack: seq<int>)
      requires Shape() && AllOk(g, Roots(stack))
      ensures AllOk(g, NamedRoots()) && AllOk(g, windAfter)
      ensures AllOk(g, CatchRoots(catchTags, catchVals))
      ensures AllOk(g, StackRoots(stack, heapNext))
    {
      var a, b, c := [globalEnv] + gcRoots[..gcRootCount], windAfter, CatchRoots(catchTags, catchVals);
      var d := StackRoots(stack, heapNext);
      var all := Roots(stack);
      assert all == a + b + c + d;
      assert b == all[|a|..|a| + |b|] && c == all[|a| + |b|..|a| + |b| + |c|];
      assert d == all[|a| + |b| + |c|..] && NamedRoots() == all[..|a| + |b| + |c|];
    }

    /** One collection: keeps exactly what the roots reach, word for word, and frees
        every other cell below heap_next. */
    method GcCollect(stack: seq<int>, ghost g: Cells)
      requires Valid() && Sees(g) && Closed(g) && AllOk(g, Roots(stack))
      modifies `freeList, `free, `gcCollections, heapCar, heapCdr, heapMark
      ensures Valid() && gcCollections == old(gcCollections) + 1
      ensures Live() == Restrict(g, ReachSet(g, old(Roots(stack))))
      ensures free == Unmarked(ReachSet(g, old(Roots(stack))), 0, heapNext)
      ensures Keeps(g, old(Roots(stack)), Live())
      ensures Marked() == {}
    {
      hide ReachedFrom, StackRoots, CatchRoots, Unmarked;
      ghost var roots := Roots(stack);
      RootsOk(g, stack);
      gcCollections := gcCollections + 1;
      ClearMarks();
      MarkProtected(g);
      MarkFrames(g, [globalEnv] + gcRoots[..gcRootCount]);
      assert Roots(stack) == roots && NamedRoots() + StackRoots(stack, heapNext) == roots;
      GcScanStack(stack, g, NamedRoots());
      ReachSetExpanded(g, roots);
      assert Marked() == ReachSet(g, roots);
      GcSweep(g);
      RestrictClosed(g, roots);
    }

    /** All cells handed out so far, free ones included, as marking would read them. */
    ghost function Raw(): Cells
      requires Shape()
      reads this, heapCar, heapCdr
    {
      map i | 0 <= i < heapNext :: (heapCar[i], heapCdr[i])
    }

    /** The end of the free list is the one word in the heap that names no cell. */
    lemma OnlyEndLeadsOut()
      requires Valid()
      ensures forall i :: i in Raw() ==> WordOk(Raw(), Raw()[i].0)
      ensures forall i :: i in Raw() ==> (WordOk(Raw(), Raw()[i].1) <==> free == [] || i != free[|free| - 1])
    {
      forall i | i in Raw()
        ensures WordOk(Raw(), heapCar[i])
        ensures WordOk(Raw(), heapCdr[i]) <==> free == [] || i != free[|free| - 1]
      {
        if i in free {
          var k :| 0 <= k < |free| && free[k] == i;
          ChainAcyclic(heapCdr[..], freeList, free);
          ChainSuffix(heapCdr[..], freeList, free, k);
          if k + 1 < |free| {
            assert free[k..][1..][0] == free[k + 1] && free[k + 1] in free;
            assert heapCdr[i] == free[k + 1];
          } else {
            assert free[k..][1..] == [];
            assert heapCdr[i] == -1;
          }
        } else {
          assert i in Live() && WordOk(Live(), heapCar[i]) && WordOk(Live(), heapCdr[i]);
        }
      }
    }

    /** A collection stays inside the heap, whatever stale words it starts from, exactly if none
        of them leads to the last cell of the free list: then and only then is there a part
        of the heap that GcCollect can be called with. */
    lemma CollectsInside(stack: seq<int>)
      requires Valid() && AllOk(Raw(), Roots(stack))
      ensures (exists g :: Sees(g) && Closed(g) && AllOk(g, Roots(stack)))
        <==> free == [] || free[|free| - 1] !in ReachSet(Raw(), Roots(stack))
    {
      hide Chain, ReachSet, ReachedFrom;
      OnlyEndLeadsOut();
      assert forall g :: Sees(g) <==> Part(g, Raw());
      if free == [] {
        assert Sees(Raw()) && Closed(Raw());
      } else {
        assert free[|free| - 1] in free;
        ClosedPart(Raw(), Roots(stack), free[|free| - 1]);
      }
    }

    /** The last cell of the free list. */
    ghost predicate AtEnd(i: int)
      reads this
    {
      free != [] && i == free[|free| - 1]
    }

    /** The heap as marking sees it when it stops at the end of the free list. */
    ghost function Stopped(): Cells
      requires Shape()
      reads this, heapCar, heapCdr
    {
      map i | 0 <= i < heapNext :: (heapCar[i], if AtEnd(i) then NIL_VAL else heapCdr[i])
    }

    lemma StoppedIs()
      requires Valid()
      ensures Shape() && Closed(Stopped()) && Stopped().Keys == Upto(heapNext)
    {
      hide Chain;
      OnlyEndLeadsOut();
      assert Stopped().Keys == Raw().Keys;
    }

    /** The words of a cell: only the link of the last free cell is a pointer out of the heap. */
    lemma CellWords(i: int)
      requires Valid() && 0 <= i < heapNext
      ensures i in Stopped() && Stopped()[i].0 == heapCar[i]
      ensures AtEnd(i) <==> IsPointer(heapCdr[i]) && !(0 <= PtrIdx(heapCdr[i]) < heapNext)
      ensures Stopped()[i].1 == if AtEnd(i) then NIL_VAL else heapCdr[i]
      ensures WordOk(Raw(), heapCar[i])
    {
      hide Chain;
      OnlyEndLeadsOut();
      assert i in Raw() && Raw()[i] == (heapCar[i], heapCdr[i]);
    }

    lemma StoppedReaches(ws: seq<int>)
      requires Valid()
      ensures ReachSet(Stopped(), ws) == ReachSet(Raw(), ws)
    {
      hide Chain, ReachSet;
      OnlyEndLeadsOut();
      if free == [] {
        assert Stopped() == Raw();
      } else {
        var end := free[|free| - 1];
        assert end in free && end in Raw();
        assert Stopped() == Raw()[end := (Raw()[end].0, NIL_VAL)];
        StoppedReach(Raw(), end, ws);
      }
    }

    /** The marking loop with its index checked. It finds a word that names no cell, where
        gc_mark_val leaves the heap, exactly if it has marked the last cell of the free list:
        the word is that cell's link. */
    method MarkInside(v: int) returns (inside: bool)
      requires Valid() && WordOk(Raw(), v)
      modifies heapMark
      ensures Marked() == old(Marked()) + WhiteSet(Stopped(), old(Marked()), v)
      ensures inside <==> forall i :: i in Marked() && i !in old(Marked()) ==> !AtEnd(i)
      decreases Upto(heapNext) - Marked()
    {
      hide WhiteReaches, Valid, Closed, Stopped, AtEnd, Expanded, Into;
      StoppedIs();
      ghost var g, m0 := Stopped(), Marked();
      var w := v;
      inside := true;
      while true
        invariant Valid() && Shape() && Stopped() == g && Walk(g, m0, Marked(), v, w)
        invariant inside <==> forall i :: i in Marked() && i !in m0 ==> !AtEnd(i)
        decreases Upto(heapNext) - Marked()
      {
        if !IsPointer(w) { break; }
        var idx := PtrIdx(w);
        if heapMark[idx] != 0 { break; }
        ghost var m := Marked();
        heapMark[idx] := 1;
        assert Marked() == m + {idx};
        CellWords(idx);
        var below := MarkInside(heapCar[idx]);
        WalkStep(g, m0, m, v, w, Marked());
        w := heapCdr[idx];
        var leaves := IsPointer(w) && !(0 <= PtrIdx(w) < heapNext);
        if leaves {
          w := NIL_VAL;
        }
        inside := inside && below && !leaves;
      }
      WalkEnd(g, m0, Marked(), v, w);
    }

    /** Marking from one root after another with the index checked: it leaves the heap exactly
        if the roots lead to the last cell of the free list. */
    method MarksInside(roots: seq<int>) returns (inside: bool)
      requires Valid() && AllOk(Raw(), roots) && Marked() == {}
      modifies heapMark
      ensures inside <==> free == [] || free[|free| - 1] !in ReachSet(Raw(), roots)
    {
      hide ReachSet, ReachedFrom, Valid, Closed, Stopped;
      StoppedIs();
      ghost var g := Stopped();
      inside := true;
      var i := 0;
      assert Marked() == ReachSet(g, roots[..0]) by { NothingReached(g); }
      while i < |roots|
        invariant 0 <= i <= |roots| && Valid() && Shape() && Stopped() == g && AllOk(g, roots[..i])
        invariant Marked() == ReachSet(g, roots[..i])
        invariant inside <==> forall c :: c in Marked() ==> !AtEnd(c)
      {
        RootStep(g, roots[..i], roots[i]);
        assert roots[..i + 1] == roots[..i] + [roots[i]];
        var here := MarkInside(roots[i]);
        inside := inside && here;
        i := i + 1;
      }
      assert roots[..i] == roots;
      StoppedReaches(roots);
    }

    lemma NothingReached(g: Cells)
      ensures ReachSet(g, []) == {}
    {
    }

    /** A stale word that does lead there: a pointer to the last free cell itself. */
    lemma StaleEnd(stack: seq<int>)
      requires Valid() && free != [] && MakeCons(free[|free| - 1]) in stack
      ensures free[|free| - 1] in ReachSet(Raw(), Roots(stack))
    {
      hide Chain;
      var end := free[|free| - 1];
      var w := MakeCons(end);
      assert end in free;
      StackRootsHas(stack, heapNext, w);
      var k :| 0 <= k < |StackRoots(stack, heapNext)| && StackRoots(stack, heapNext)[k] == w;
      assert Roots(stack)[|NamedRoots()| + k] == w;
      WhiteSelf(Raw(), {}, w);
      assert Reaches(Raw(), Roots(stack)[|NamedRoots()| + k], end);
    }

    /** Takes the first free cell and clears it. */
    method TakeFree() returns (idx: int)
      requires Valid() && freeList >= 0
      modifies `freeList, `free, heapCar, heapCdr
      ensures Valid() && 0 <= idx < HEAP_SIZE && idx !in old(Live())
      ensures Live() == old(Live())[idx := (NIL_VAL, NIL_VAL)]
      ensures |free| == |old(free)| - 1
    {
      idx := freeList;
      ghost var before := heapCdr[..];
      ChainAcyclic(before, freeList, free);
      freeList := heapCdr[idx];
      free := free[1..];
      heapCar[idx] := NIL_VAL;
      heapCdr[idx] := NIL_VAL;
      ChainFrame(before, heapCdr[..], freeList, free);
      assert forall i :: i in old(free) <==> i == idx || i in free;
      assert Live() == old(Live())[idx := (NIL_VAL, NIL_VAL)];
      WriteClosed(old(Live()), idx, NIL_VAL, NIL_VAL);
    }

    /** Takes the first never used cell and clears it. */
    method TakeFresh() returns (idx: int)
      requires Valid() && heapNext < HEAP_SIZE
      modifies `heapNext, heapCar, heapCdr
      ensures Valid() && 0 <= idx < HEAP_SIZE && idx !in old(Live()) && heapNext == old(heapNext) + 1
      ensures Live() == old(Live())[idx := (NIL_VAL, NIL_VAL)]
    {
      idx := heapNext;
      ghost var before := heapCdr[..];
      heapNext := heapNext + 1;
      heapCar[idx] := NIL_VAL;
      heapCdr[idx] := NIL_VAL;
      ChainFrame(before, heapCdr[..], freeList, free);
      assert Live() == old(Live())[idx := (NIL_VAL, NIL_VAL)];
      WriteClosed(old(Live()), idx, NIL_VAL, NIL_VAL);
    }

    /** Cell `idx` was just taken: it was not in use among the cells `kept`, and now
        holds NIL and NIL beside them. */
    ghost predicate Took(kept: Cells, idx: int)
      requires Shape()
      reads this, heapCar, heapCdr
    {
      0 <= idx < HEAP_SIZE && idx !in kept && Live() == kept[idx := (NIL_VAL, NIL_VAL)]
    }

    /** The last resort of the allocator: collect, then try the free list again. */
    method CollectAndTake(stack: seq<int>) returns (idx: Option<int>, ghost kept: Cells)
      requires Valid() && AllOk(Live(), Roots(stack)) && heapNext == HEAP_SIZE
      modifies `freeList, `free, `gcCollections, heapCar, heapCdr, heapMark
      ensures Valid()
      ensures kept == Restrict(old(Live()), old(Reachable(stack)))
      ensures Closed(kept) && AllOk(kept, old(Roots(stack))) && old(Reachable(stack)) <= kept.Keys
      ensures idx.Some? ==> Took(kept, idx.value)
      ensures idx.None? <==> Unmarked(old(Reachable(stack)), 0, HEAP_SIZE) == []
    {
      ReachedAllocated(Live(), Roots(stack));
      GcCollect(stack, Live());
      kept := Live();
      idx := None;
      if freeList >= 0 {
        var i := TakeFree();
        idx := Some(i);
      }
    }

    /** A cell that no root reaches, holding NIL and NIL; None (the panic) exactly when
        the roots reach all HEAP_SIZE cells.  Allocated cells either all stay, or a
        collection kept just the reachable ones. */
    method GcAllocCell(stack: seq<int>) returns (idx: Option<int>, ghost kept: Cells)
      requires Valid() && AllOk(Live(), NamedRoots())
      modifies `freeList, `free, `heapNext, `gcCollections, heapCar, heapCdr, heapMark
      ensures Valid() && old(heapNext) <= heapNext
      ensures kept == old(Live()) || kept == Restrict(old(Live()), old(Reachable(stack)))
      ensures old(Reachable(stack)) <= kept.Keys
      ensures Closed(kept) && AllOk(kept, old(NamedRoots()))
      ensures forall w :: w in stack && WordOk(old(Live()), w) ==> WordOk(kept, w)
      ensures idx.Some? ==> Took(kept, idx.value)
      ensures idx.None? <==> forall i :: 0 <= i < HEAP_SIZE ==> i in old(Reachable(stack))
    {
      hide ReachSet, Restrict, ReachedFrom, Unmarked, StackRoots;
      ReachedAllocated(Live(), Roots(stack));
      kept := Live();
      if freeList >= 0 {
        var i := TakeFree();
        idx := Some(i);
      } else if heapNext < HEAP_SIZE {
        var i := TakeFresh();
        idx := Some(i);
      } else {
        ghost var named := NamedRoots();
        assert Roots(stack) == named + StackRoots(stack, heapNext);
        StackRootsOk(Live(), stack, heapNext);
        idx, kept := CollectAndTake(stack);
        assert AllOk(kept, named + StackRoots(stack, heapNext));
        RootsSplit(old(Live()), kept, named, stack, heapNext);
        NoneUnmarked(old(Reachable(stack)), 0, HEAP_SIZE);
      }
    }

    /** alloc_cell: before the collector is enabled, only never used cells are handed out. */
    method AllocCell(stack: seq<int>) returns (idx: Option<int>, ghost kept: Cells)
      requires Valid() && AllOk(Live(), NamedRoots())
      modifies `freeList, `free, `heapNext, `gcCollections, heapCar, heapCdr, heapMark
      ensures Valid() && old(heapNext) <= heapNext
      ensures kept == old(Live()) || (gcEnabled && kept == Restrict(old(Live()), old(Reachable(stack))))
      ensures old(Reachable(stack)) <= kept.Keys
      ensures Closed(kept) && AllOk(kept, old(NamedRoots()))
      ensures forall w :: w in stack && WordOk(old(Live()), w) ==> WordOk(kept, w)
      ensures idx.Some? ==> Took(kept, idx.value)
      ensures idx.None? <==> old(Full(stack))
    {
      if gcEnabled {
        idx, kept := GcAllocCell(stack);
        return;
      }
      hide ReachSet, Restrict, ReachedFrom, Chain, StackRoots;
      ReachedAllocated(Live(), Roots(stack));
      kept := Live();
      if heapNext >= HEAP_SIZE {
        return None, kept;
      }
      var i := TakeFresh();
      idx := Some(i);
    }

    /** heap_car[idx] = a; heap_cdr[idx] = d. */
    method WriteCell(i: int, a: int, d: int)
      requires Valid() && i in Live() && WordOk(Live(), a) && WordOk(Live(), d)
      modifies heapCar, heapCdr
      ensures Valid() && Live() == old(Live())[i := (a, d)]
    {
      ghost var before, g := heapCdr[..], Live();
      heapCar[i] := a;
      heapCdr[i] := d;
      ChainFrame(before, heapCdr[..], freeList, free);
      assert Live() == g[i := (a, d)];
      WriteClosed(g, i, a, d);
    }

    /** A new pair of two words that the caller holds on its stack. */
    method Cons(a: int, d: int, stack: seq<int>) returns (w: Option<int>, ghost kept: Cells)
      requires Valid() && AllOk(Live(), NamedRoots())
      requires a in stack && d in stack && WordOk(Live(), a) && WordOk(Live(), d)
      modifies `freeList, `free, `heapNext, `gcCollections, heapCar, heapCdr, heapMark
      ensures Valid() && old(heapNext) <= heapNext
      ensures Keeps(old(Live()), old(NamedRoots()), kept)
      ensures forall x :: x in stack && WordOk(old(Live()), x) ==> WordOk(kept, x)
      ensures w.None? <==> old(Full(stack))
      ensures w.Some? ==>
                && IsCons(w.value) && PtrIdx(w.value) !in kept
                && Live() == kept[PtrIdx(w.value) := (a, d)]
    {
      hide ReachSet, ReachedFrom, Chain, StackRoots;
      var idx;
      idx, kept := AllocCell(stack);
      if idx.None? {
        return None, kept;
      }
      WriteCell(idx.value, a, d);
      w := Some(MakeCons(idx.value));
    }

    /** heap_cdr[PTR_IDX(w)] = v: the evaluator's and reader's in-place update. */
    method SetCdr(w: int, v: int)
      requires Valid() && IsPointer(w) && PtrIdx(w) in Live() && WordOk(Live(), v)
      modifies heapCdr
      ensures Valid()
      ensures Live() == old(Live())[PtrIdx(w) := (old(Live())[PtrIdx(w)].0, v)]
    {
      var i := PtrIdx(w);
      ghost var before, g := heapCdr[..], Live();
      heapCdr[i] := v;
      ChainFrame(before, heapCdr[..], freeList, free);
      assert Live() == g[i := (g[i].0, v)];
      WriteClosed(g, i, g[i].0, v);
    }

    /** The length of the free list; with it, allocated and free cells add up. */
    method GcCountFree() returns (count: int)
      requires Valid()
      ensures count == |free|
      ensures |Live()| == heapNext - count
    {
      hide Closed, Names;
      count := 0;
      var node := freeList;
      ghost var rest := free;
      while node >= 0
        invariant Chain(heapCdr[..], node, rest) && count + |rest| == |free|
        decreases |rest|
      {
        count := count + 1;
        node := heapCdr[node];
        rest := rest[1..];
      }
      ChainAcyclic(heapCdr[..], freeList, free);
      DistinctSize(free);
      UptoSize(heapNext);
      ghost var listed := set i | i in free;
      assert Live().Keys == Upto(heapNext) - listed;
      assert listed <= Upto(heapNext);
    }

    /** Pushes a temporary on the root stack; false is the panic on a full stack. */
    method GcProtect(val: int) returns (ok: bool)
      requires Shape()
      modifies `gcRootCount, gcRoots
      ensures Shape() && ok == (old(gcRootCount) < MAX_GC_ROOTS)
      ensures gcRoots[..gcRootCount] == old(gcRoots[..gcRootCount]) + if ok then [val] else []
    {
      if gcRootCount >= MAX_GC_ROOTS {
        return false;
      }
      gcRoots[gcRootCount] := val;
      gcRootCount := gcRootCount + 1;
      ok := true;
    }
  }

  lemma RootsSplit(g: Cells, kept: Cells, named: seq<int>, stack: seq<int>, heapNext: int)
    requires forall i :: i in g ==> 0 <= i < heapNext
    requires AllOk(kept, named + StackRoots(stack, heapNext))
    ensures AllOk(kept, named)
    ensures forall w :: w in stack && WordOk(g, w) ==> WordOk(kept, w)
  {
    var roots := named + StackRoots(stack, heapNext);
    forall k | 0 <= k < |named| ensures WordOk(kept, named[k]) { assert named[k] == roots[k]; }
    forall w | w in stack && WordOk(g, w) ensures WordOk(kept, w) {
      if IsPointer(w) {
        StackRootsHas(stack, heapNext, w);
        assert w in roots;
      }
    }
  }
}
