/** Tagged words of Tiny Macro Lisp (tml.h).

    A value is one COR24 word; it is modelled by its signed reading.  The two
    low bits are the tag, the rest is the payload, so `w % 4` (Euclidean, hence
    the two's complement bits even for negative words) is the tag and the
    arithmetic shift `w >> 2` is `w / 4` (floored for a positive divisor). */
module Tml {
  const HEAP_SIZE: nat := 32768
  const MAX_GC_ROOTS: nat := 256

  const NIL_VAL: int := 2
  const T_VAL: int := 6

  predicate IsCons(w: int) { w % 4 == 1 }

  predicate IsSymbol(w: int) { w % 4 == 2 }

  predicate IsExtended(w: int) { w % 4 == 3 }

  /** The word has a heap cell index as its payload. */
  predicate IsPointer(w: int) { IsCons(w) || IsExtended(w) }

  function PtrIdx(w: int): int { w / 4 }

  function MakeFixnum(n: int): int { 4 * n }

  function MakeCons(idx: int): int { 4 * idx + 1 }

  function MakeSymbol(idx: int): int { 4 * idx + 2 }

  function MakeExtended(idx: int): int { 4 * idx + 3 }

  /** Word `w` is a pointer to cell `i`. */
  predicate Names(w: int, i: int) { IsPointer(w) && PtrIdx(w) == i }
}
