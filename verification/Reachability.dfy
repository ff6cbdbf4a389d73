/** Reachability in a heap of two-word cells, as seen by the marker of gc.h. */
module Reachability {
  import opened Tml

  /** The allocated cells: index to (car, cdr). */
  type Cells = map<int, (int, int)>

  /** Every pointer word names an allocated cell. */
  predicate WordOk(g: Cells, w: int) { IsPointer(w) ==> PtrIdx(w) in g }

  ghost predicate Closed(g: Cells) {
    forall i :: i in g ==> WordOk(g, g[i].0) && WordOk(g, g[i].1)
  }

  ghost predicate AllOk(g: Cells, ws: seq<int>) {
    forall k :: 0 <= k < |ws| ==> WordOk(g, ws[k])
  }

  /** `p` lists the cells of a path that starts at word `w`, follows car and cdr
      words, and avoids the cells of `black`. */
  ghost predicate WhitePath(g: Cells, black: set<int>, w: int, p: seq<int>)
    decreases |p|
  {
    && p != []
    && Names(w, p[0]) && p[0] in g && p[0] !in black
    && (|p| == 1 || WhitePath(g, black, g[p[0]].0, p[1..]) || WhitePath(g, black, g[p[0]].1, p[1..]))
  }

  ghost predicate WhiteReaches(g: Cells, black: set<int>, w: int, i: int) {
    exists p :: WhitePath(g, black, w, p) && p[|p| - 1] == i
  }

  ghost function WhiteSet(g: Cells, black: set<int>, w: int): (s: set<int>)
    ensures forall i :: i in s <==> WhiteReaches(g, black, w, i)
  {
    forall i | WhiteReaches(g, black, w, i) ensures i in g {
      var p :| WhitePath(g, black, w, p) && p[|p| - 1] == i;
      PathInCells(g, black, w, p);
    }
    set i | i in g && WhiteReaches(g, black, w, i)
  }

  /** Cell `i` is reachable from word `w`. */
  ghost predicate Reaches(g: Cells, w: int, i: int) { WhiteReaches(g, {}, w, i) }

  ghost predicate ReachedFrom(g: Cells, ws: seq<int>, i: int) {
    exists k :: 0 <= k < |ws| && Reaches(g, ws[k], i)
  }

  /** The cells reachable from some word of `ws`. */
  ghost function ReachSet(g: Cells, ws: seq<int>): (s: set<int>)
    ensures forall i :: i in s <==> ReachedFrom(g, ws, i)
  {
    forall i | ReachedFrom(g, ws, i) ensures i in g {
      var k :| 0 <= k < |ws| && Reaches(g, ws[k], i);
      assert i in WhiteSet(g, {}, ws[k]);
      var p :| WhitePath(g, {}, ws[k], p) && p[|p| - 1] == i;
      PathInCells(g, {}, ws[k], p);
    }
    set i | i in g && ReachedFrom(g, ws, i)
  }

  lemma {:induction false} PathInCells(g: Cells, black: set<int>, w: int, p: seq<int>)
    requires WhitePath(g, black, w, p)
    ensures p[|p| - 1] in g && p[|p| - 1] !in black
    decreases |p|
  {
    if |p| > 1 {
      PathInCells(g, black, if WhitePath(g, black, g[p[0]].0, p[1..]) then g[p[0]].0 else g[p[0]].1, p[1..]);
    }
  }

  /** A path from a child of a white cell extends to a path from the cell. */
  lemma WhiteStep(g: Cells, black: set<int>, w: int, i: int, child: int, j: int)
    requires Names(w, i) && i in g && i !in black
    requires child == g[i].0 || child == g[i].1
    requires WhiteReaches(g, black, child, j)
    ensures WhiteReaches(g, black, w, j)
  {
    var p :| WhitePath(g, black, child, p) && p[|p| - 1] == j;
    var q := [i] + p;
    assert q[1..] == p;
    assert WhitePath(g, black, w, q) && q[|q| - 1] == j;
  }

  lemma WhiteSelf(g: Cells, black: set<int>, w: int)
    requires IsPointer(w) && PtrIdx(w) in g && PtrIdx(w) !in black
    ensures WhiteReaches(g, black, w, PtrIdx(w))
  {
    assert WhitePath(g, black, w, [PtrIdx(w)]);
  }

  lemma {:induction false} WhitePathMono(g: Cells, black: set<int>, black': set<int>, w: int, p: seq<int>)
    requires black <= black' && WhitePath(g, black', w, p)
    ensures WhitePath(g, black, w, p)
    decreases |p|
  {
    if |p| > 1 {
      WhitePathMono(g, black, black', if WhitePath(g, black', g[p[0]].0, p[1..]) then g[p[0]].0 else g[p[0]].1, p[1..]);
    }
  }

  lemma WhiteMono(g: Cells, black: set<int>, black': set<int>, w: int, i: int)
    requires black <= black' && WhiteReaches(g, black', w, i)
    ensures WhiteReaches(g, black, w, i)
  {
    var p :| WhitePath(g, black', w, p) && p[|p| - 1] == i;
    WhitePathMono(g, black, black', w, p);
  }

  /** Word `w` is not a pointer, or points into `m`. */
  predicate Into(m: set<int>, w: int) { IsPointer(w) ==> PtrIdx(w) in m }

  /** Every cell of `m` that is not in `black` has its two words point into `m`. */
  ghost predicate Expanded(g: Cells, black: set<int>, m: set<int>) {
    forall i :: i in m && i !in black && i in g ==> Into(m, g[i].0) && Into(m, g[i].1)
  }

  /** An expanded set that contains the start of a white path contains all of it. */
  lemma {:induction false} ExpandedCovers(g: Cells, black: set<int>, m: set<int>, w: int, p: seq<int>)
    requires Expanded(g, black, m) && Into(m, w)
    requires WhitePath(g, black, w, p)
    ensures p[|p| - 1] in m
    decreases |p|
  {
    if |p| > 1 {
      ExpandedCovers(g, black, m, if WhitePath(g, black, g[p[0]].0, p[1..]) then g[p[0]].0 else g[p[0]].1, p[1..]);
    }
  }

  lemma ExpandedCoversSet(g: Cells, black: set<int>, m: set<int>, w: int)
    requires Expanded(g, black, m) && Into(m, w)
    ensures WhiteSet(g, black, w) <= m
  {
    forall i | i in WhiteSet(g, black, w) ensures i in m {
      var p :| WhitePath(g, black, w, p) && p[|p| - 1] == i;
      ExpandedCovers(g, black, m, w, p);
    }
  }

  /** If marking avoids a set whose cells are all expanded, avoiding it loses nothing:
      what is added to it is plain reachability. */
  lemma WhiteIsReach(g: Cells, m: set<int>, w: int)
    requires Expanded(g, {}, m)
    ensures m + WhiteSet(g, m, w) == m + WhiteSet(g, {}, w)
    ensures WordOk(g, w) && Closed(g) ==> Expanded(g, {}, m + WhiteSet(g, m, w))
  {
    forall i | i in WhiteSet(g, m, w) ensures i in WhiteSet(g, {}, w) {
      WhiteMono(g, {}, m, w, i);
    }
    forall i | i in WhiteSet(g, {}, w) ensures i in m + WhiteSet(g, m, w) {
      var p :| WhitePath(g, {}, w, p) && p[|p| - 1] == i;
      PathOrMarked(g, m, w, p);
    }
    if WordOk(g, w) && Closed(g) {
      forall i | i in m + WhiteSet(g, m, w) && i in g
        ensures Into(m + WhiteSet(g, m, w), g[i].0) && Into(m + WhiteSet(g, m, w), g[i].1)
      {
        if i !in m {
          var p :| WhitePath(g, m, w, p) && p[|p| - 1] == i;
          WhiteChild(g, m, w, p, g[i].0);
          WhiteChild(g, m, w, p, g[i].1);
        }
      }
    }
  }

  lemma {:induction false} PathOrMarked(g: Cells, m: set<int>, w: int, p: seq<int>)
    requires Expanded(g, {}, m) && WhitePath(g, {}, w, p)
    ensures p[|p| - 1] in m || WhitePath(g, m, w, p)
    decreases |p|
  {
    if p[0] in m {
      ExpandedCovers(g, {}, m, w, p);
    } else if |p| > 1 {
      PathOrMarked(g, m, if WhitePath(g, {}, g[p[0]].0, p[1..]) then g[p[0]].0 else g[p[0]].1, p[1..]);
    }
  }

  /** A white path can be extended by a child of its last cell. */
  lemma {:induction false} WhiteChild(g: Cells, m: set<int>, w: int, p: seq<int>, child: int)
    requires WhitePath(g, m, w, p) && p[|p| - 1] in g
    requires child == g[p[|p| - 1]].0 || child == g[p[|p| - 1]].1
    requires WordOk(g, child)
    ensures Into(m + WhiteSet(g, m, w), child)
    decreases |p|
  {
    if IsPointer(child) && PtrIdx(child) !in m {
      if |p| == 1 {
        WhiteSelf(g, m, child);
        WhiteStep(g, m, w, p[0], child, PtrIdx(child));
      } else {
        var next := if WhitePath(g, m, g[p[0]].0, p[1..]) then g[p[0]].0 else g[p[0]].1;
        WhiteChild(g, m, next, p[1..], child);
        WhiteStep(g, m, w, p[0], next, PtrIdx(child));
      }
    }
  }

  /** The marking state of a walk that started at word `v` with `m0` marked, when `m`
      is marked and `w` is the word to look at next: `m` is what the walk owes so
      far, and only `w` may still lead out of it. */
  ghost predicate Walk(g: Cells, m0: set<int>, m: set<int>, v: int, w: int) {
    && m0 <= m <= g.Keys
    && WordOk(g, w)
    && (w == v || Into(m, v))
    && (forall i :: WhiteReaches(g, m0, w, i) ==> WhiteReaches(g, m0, v, i))
    && (forall i :: i in m && i !in m0 ==> WhiteReaches(g, m0, v, i))
    && (forall i :: i in m && i !in m0 ==> Into(m, g[i].0) && (g[i].1 == w || Into(m, g[i].1)))
  }

  /** Marking the cell of `w` and all its car leads to keeps the walk going at its cdr. */
  lemma WalkStep(g: Cells, m0: set<int>, m: set<int>, v: int, w: int, m': set<int>)
    requires Walk(g, m0, m, v, w) && Closed(g)
    requires IsPointer(w) && PtrIdx(w) in g && PtrIdx(w) !in m
    requires m' == m + {PtrIdx(w)} + WhiteSet(g, m + {PtrIdx(w)}, g[PtrIdx(w)].0)
    ensures Walk(g, m0, m', v, g[PtrIdx(w)].1)
  {
    var idx := PtrIdx(w);
    var grey := m + {idx};
    forall i | i in m' && i !in m0 ensures i in g && WhiteReaches(g, m0, v, i) {
      if i == idx {
        WhiteSelf(g, m0, w);
      } else if i !in m {
        var p :| WhitePath(g, grey, g[idx].0, p) && p[|p| - 1] == i;
        PathInCells(g, grey, g[idx].0, p);
        WhiteMono(g, m0, grey, g[idx].0, i);
        WhiteStep(g, m0, w, idx, g[idx].0, i);
      }
    }
    forall i | WhiteReaches(g, m0, g[idx].1, i) ensures WhiteReaches(g, m0, v, i) {
      WhiteStep(g, m0, w, idx, g[idx].1, i);
    }
    forall i | i in m' && i !in m0 ensures Into(m', g[i].0) && (g[i].1 == g[idx].1 || Into(m', g[i].1)) {
      if i == idx {
        if IsPointer(g[idx].0) && PtrIdx(g[idx].0) !in grey {
          WhiteSelf(g, grey, g[idx].0);
        }
      } else if i !in m {
        var p :| WhitePath(g, grey, g[idx].0, p) && p[|p| - 1] == i;
        WhiteChild(g, grey, g[idx].0, p, g[i].0);
        WhiteChild(g, grey, g[idx].0, p, g[i].1);
      }
    }
  }

  /** A walk whose next word leads nowhere new has marked what it owed. */
  lemma WalkEnd(g: Cells, m0: set<int>, m: set<int>, v: int, w: int)
    requires Walk(g, m0, m, v, w) && Into(m, w)
    ensures m == m0 + WhiteSet(g, m0, v)
  {
    ExpandedCoversSet(g, m0, m, v);
  }

  /** Adding one root adds what that root reaches. */
  lemma ReachSetExtend(g: Cells, ws: seq<int>, w: int)
    ensures ReachSet(g, ws + [w]) == ReachSet(g, ws) + WhiteSet(g, {}, w)
  {
    var ws' := ws + [w];
    forall i | i in ReachSet(g, ws') ensures i in ReachSet(g, ws) + WhiteSet(g, {}, w) {
      var k :| 0 <= k < |ws'| && Reaches(g, ws'[k], i);
      if k < |ws| { assert Reaches(g, ws[k], i); }
    }
    forall i | i in ReachSet(g, ws) + WhiteSet(g, {}, w) ensures i in ReachSet(g, ws') {
      if i in ReachSet(g, ws) {
        var k :| 0 <= k < |ws| && Reaches(g, ws[k], i);
        assert Reaches(g, ws'[k], i);
      } else {
        assert Reaches(g, ws'[|ws|], i);
      }
    }
  }

  /** Between two roots: marking the next root, with all that the earlier ones reach
      already marked, completes the set for one more root. */
  lemma RootStep(g: Cells, ws: seq<int>, w: int)
    requires Closed(g) && AllOk(g, ws) && WordOk(g, w)
    ensures ReachSet(g, ws) + WhiteSet(g, ReachSet(g, ws), w) == ReachSet(g, ws + [w])
  {
    ReachSetExpanded(g, ws);
    WhiteIsReach(g, ReachSet(g, ws), w);
    ReachSetExtend(g, ws, w);
  }

  /** Writing a cell with words that are in order keeps the heap in order. */
  lemma WriteClosed(g: Cells, i: int, a: int, d: int)
    requires Closed(g)
    requires WordOk(g[i := (a, d)], a) && WordOk(g[i := (a, d)], d)
    ensures Closed(g[i := (a, d)])
  {
    var g' := g[i := (a, d)];
    forall j | j in g' ensures WordOk(g', g'[j].0) && WordOk(g', g'[j].1) {
      if j != i {
        assert WordOk(g, g[j].0) && WordOk(g, g[j].1);
      }
    }
  }

  /** Only allocated cells are reached. */
  lemma ReachedAllocated(g: Cells, ws: seq<int>)
    ensures ReachSet(g, ws) <= g.Keys
  {
    forall i | i in ReachSet(g, ws) ensures i in g {
      var k :| 0 <= k < |ws| && Reaches(g, ws[k], i);
      var p :| WhitePath(g, {}, ws[k], p) && p[|p| - 1] == i;
      PathInCells(g, {}, ws[k], p);
    }
  }

  /** What a set of roots reaches contains the roots' cells and is closed under car and cdr. */
  lemma ReachSetExpanded(g: Cells, ws: seq<int>)
    requires Closed(g) && AllOk(g, ws)
    ensures Expanded(g, {}, ReachSet(g, ws)) && ReachSet(g, ws) <= g.Keys
    ensures forall k :: 0 <= k < |ws| ==> Into(ReachSet(g, ws), ws[k])
  {
    var m := ReachSet(g, ws);
    forall i | i in m ensures i in g && Into(m, g[i].0) && Into(m, g[i].1) {
      var k :| 0 <= k < |ws| && Reaches(g, ws[k], i);
      var p :| WhitePath(g, {}, ws[k], p) && p[|p| - 1] == i;
      PathInCells(g, {}, ws[k], p);
      WhiteChild(g, {}, ws[k], p, g[i].0);
      WhiteChild(g, {}, ws[k], p, g[i].1);
      assert forall j :: j in WhiteSet(g, {}, ws[k]) ==> Reaches(g, ws[k], j);
    }
    forall k | 0 <= k < |ws| ensures Into(m, ws[k]) {
      if IsPointer(ws[k]) {
        WhiteSelf(g, {}, ws[k]);
        assert Reaches(g, ws[k], PtrIdx(ws[k]));
      }
    }
  }

  /** The part of the heap that survives when only `live` is kept. */
  function Restrict(g: Cells, live: set<int>): (r: Cells)
  {
    map i | i in g && i in live :: g[i]
  }

  /** Keeping what the roots reach leaves no dangling word. */
  lemma RestrictClosed(g: Cells, ws: seq<int>)
    requires Closed(g) && AllOk(g, ws)
    ensures Closed(Restrict(g, ReachSet(g, ws))) && AllOk(Restrict(g, ReachSet(g, ws)), ws)
  {
    ReachSetExpanded(g, ws);
  }

  /** `kept` is a part of `g` that still holds all that `roots` need. */
  ghost predicate Keeps(g: Cells, roots: seq<int>, kept: Cells) {
    && (forall i :: i in kept ==> i in g && kept[i] == g[i])
    && Closed(kept)
    && AllOk(kept, roots)
  }

  /** The cells of `g` hold in `raw` what they hold in `g`. */
  ghost predicate Part(g: Cells, raw: Cells) { forall i :: i in g ==> i in raw && g[i] == raw[i] }

  /** When the cdr of one cell, and no other word, leads out of the heap, the roots lie in a
      part that no word leads out of exactly if they do not reach that cell. */
  lemma ClosedPart(raw: Cells, ws: seq<int>, out: int)
    requires forall i :: i in raw ==> WordOk(raw, raw[i].0) && (WordOk(raw, raw[i].1) <==> i != out)
    requires AllOk(raw, ws) && out in raw
    ensures (exists g :: Part(g, raw) && Closed(g) && AllOk(g, ws)) <==> out !in ReachSet(raw, ws)
  {
    var m := ReachSet(raw, ws);
    if out !in m {
      var g := Restrict(raw, m);
      forall i | i in g ensures WordOk(g, g[i].0) && WordOk(g, g[i].1) {
        var k :| 0 <= k < |ws| && Reaches(raw, ws[k], i);
        var p :| WhitePath(raw, {}, ws[k], p) && p[|p| - 1] == i;
        WhiteChild(raw, {}, ws[k], p, raw[i].0);
        WhiteChild(raw, {}, ws[k], p, raw[i].1);
        assert forall j :: j in WhiteSet(raw, {}, ws[k]) ==> Reaches(raw, ws[k], j);
      }
      forall k | 0 <= k < |ws| ensures WordOk(g, ws[k]) {
        if IsPointer(ws[k]) {
          WhiteSelf(raw, {}, ws[k]);
          assert Reaches(raw, ws[k], PtrIdx(ws[k]));
        }
      }
      assert Part(g, raw) && Closed(g) && AllOk(g, ws);
    } else if exists g :: Part(g, raw) && Closed(g) && AllOk(g, ws) {
      var g :| Part(g, raw) && Closed(g) && AllOk(g, ws);
      var k :| 0 <= k < |ws| && Reaches(raw, ws[k], out);
      var p :| WhitePath(raw, {}, ws[k], p) && p[|p| - 1] == out;
      assert WordOk(g, ws[k]);
      ExpandedCovers(raw, {}, g.Keys, ws[k], p);
      assert false;
    }
  }

  /** A word that names no cell leads no further, so nil in its place changes no path. */
  lemma {:induction false} StoppedPath(raw: Cells, out: int, black: set<int>, w: int, p: seq<int>)
    requires out in raw && !WordOk(raw, raw[out].1)
    ensures WhitePath(raw[out := (raw[out].0, NIL_VAL)], black, w, p) <==> WhitePath(raw, black, w, p)
    decreases |p|
  {
    if p != [] && p[0] in raw {
      StoppedPath(raw, out, black, raw[p[0]].0, p[1..]);
      StoppedPath(raw, out, black, raw[p[0]].1, p[1..]);
      StoppedPath(raw, out, black, NIL_VAL, p[1..]);
    }
  }

  lemma StoppedReach(raw: Cells, out: int, ws: seq<int>)
    requires out in raw && !WordOk(raw, raw[out].1)
    ensures ReachSet(raw[out := (raw[out].0, NIL_VAL)], ws) == ReachSet(raw, ws)
  {
    var g := raw[out := (raw[out].0, NIL_VAL)];
    forall k, i | 0 <= k < |ws| ensures Reaches(g, ws[k], i) <==> Reaches(raw, ws[k], i) {
      forall p ensures WhitePath(g, {}, ws[k], p) <==> WhitePath(raw, {}, ws[k], p) {
        StoppedPath(raw, out, {}, ws[k], p);
      }
    }
    forall i ensures i in ReachSet(g, ws) <==> i in ReachSet(raw, ws) {
      assert ReachedFrom(g, ws, i) <==> ReachedFrom(raw, ws, i);
    }
  }
}
