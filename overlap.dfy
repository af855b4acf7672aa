/**
 * The overlap checker (`check_overlap`): rectangles (x1, y1, x2, y2) whose
 * right and bottom edges are exclusive, so rectangles that only touch do not
 * overlap.
 */
module Overlap {

  datatype Rect = Rect(x1: int, y1: int, x2: int, y2: int)

  /** The test `check_overlap` applies to the new area and one placed area. */
  predicate Overlaps(newArea: Rect, area: Rect)
  {
    !(newArea.x2 <= area.x1 || newArea.x1 >= area.x2 || newArea.y2 <= area.y1 || newArea.y1 >= area.y2)
  }

  /** The pixel (px, py) lies in `r`. */
  predicate Covers(r: Rect, px: int, py: int)
  {
    r.x1 <= px < r.x2 && r.y1 <= py < r.y2
  }

  predicate NonEmpty(r: Rect)
  {
    r.x1 < r.x2 && r.y1 < r.y2
  }

  /** `check_overlap(new_area, existing_areas)`: scans the placed areas and stops at the first that overlaps. */
  function CheckOverlap(newArea: Rect, existing: seq<Rect>): (r: bool)
    ensures r <==> exists i :: 0 <= i < |existing| && Overlaps(newArea, existing[i])
    ensures existing == [] ==> !r
  {
    if existing == [] then false
    else if Overlaps(newArea, existing[0]) then true
    else
      var rest := CheckOverlap(newArea, existing[1..]);
      assert forall i :: 1 <= i < |existing| ==> existing[i] == existing[1..][i - 1];
      rest
  }

  /** No two rectangles of the list overlap. */
  predicate PairwiseDisjoint(rs: seq<Rect>)
  {
    forall i, j :: 0 <= i < |rs| && 0 <= j < |rs| && i != j ==> !Overlaps(rs[i], rs[j])
  }

  lemma OverlapsSymmetric(a: Rect, b: Rect)
    ensures Overlaps(a, b) == Overlaps(b, a)
  {
  }

  /** Sharing only an edge is not overlapping. */
  lemma TouchingEdgesDoNotOverlap(a: Rect, b: Rect)
    requires a.x2 == b.x1 || a.y2 == b.y1
    ensures !Overlaps(a, b) && !Overlaps(b, a)
  {
  }

  /** The test agrees with geometry: two non-empty rectangles overlap exactly when some pixel lies in both. */
  lemma OverlapsIffSharedPixel(a: Rect, b: Rect)
    requires NonEmpty(a) && NonEmpty(b)
    ensures Overlaps(a, b) <==> exists px, py :: Covers(a, px, py) && Covers(b, px, py)
  {
    if Overlaps(a, b) {
      var px := if a.x1 < b.x1 then b.x1 else a.x1;
      var py := if a.y1 < b.y1 then b.y1 else a.y1;
      assert Covers(a, px, py) && Covers(b, px, py);
    }
  }

  /** Appending an area that overlaps none of the list keeps the list pairwise disjoint. */
  lemma AppendKeepsDisjoint(rs: seq<Rect>, r: Rect)
    requires PairwiseDisjoint(rs)
    requires !CheckOverlap(r, rs)
    ensures PairwiseDisjoint(rs + [r])
  {
    var rs' := rs + [r];
    forall i, j | 0 <= i < |rs'| && 0 <= j < |rs'| && i != j
      ensures !Overlaps(rs'[i], rs'[j])
    {
      if j == |rs| {
        assert !Overlaps(r, rs[i]);
        OverlapsSymmetric(r, rs[i]);
      } else if i == |rs| {
        assert !Overlaps(r, rs[j]);
      } else {
        assert rs'[i] == rs[i] && rs'[j] == rs[j];
      }
    }
  }
}
