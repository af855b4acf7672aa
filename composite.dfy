/**
 * One image of `paste_signs_on_background`: clamp the sign count to the
 * signs found, sample that many, and place them on a fresh canvas.
 */
module Composite {
  import opened Results
  import opened Rand
  import opened Selection
  import opened Placement

  /** An entry that holds for one list of signs holds for any list containing all of them. */
  lemma ConsistentForLargerPool(bgW: nat, bgH: nat, signs: seq<Sign>, pool: seq<Sign>,
                                pasted: seq<Overlap.Rect>, notes: seq<Annotation>, pastes: seq<PasteEvent>)
    requires forall s :: s in signs ==> s in pool
    requires Consistent(bgW, bgH, signs, pasted, notes, pastes)
    ensures Consistent(bgW, bgH, pool, pasted, notes, pastes)
  {
    forall k | 0 <= k < |pasted|
      ensures EntryOk(bgW, bgH, pool, pasted, notes, pastes, k)
    {
      assert EntryOk(bgW, bgH, signs, pasted, notes, pastes, k);
    }
  }

  /**
   * Lines 35-82 for one image: `sign_count` is clamped (and keeps its
   * clamped value for the next image), the signs are sampled, then placed.
   * `random.sample` raises for a negative count, which ends the run.
   */
  method ComposeImage(canvas: Canvas, signCount: int, allSigns: seq<Sign>, tape: Tape, cursor: nat)
    returns (clamped: int, r: Pass)
    modifies canvas
    ensures clamped == Clamp(signCount, |allSigns|)
    ensures clamped < 0 ==> r == Aborted(BadSampleSize) && canvas.pastes == old(canvas.pastes)
    ensures 0 <= clamped ==>
              var selected := Sample(allSigns, clamped, tape, cursor);
              selected.Success? && |selected.value| == clamped &&
              r == PlaceAll(canvas.width, canvas.height, selected.value, tape, cursor + clamped)
    ensures r.Placed? ==> canvas.pastes == old(canvas.pastes) + r.pastes
    ensures r.Placed? ==> |r.pasted| <= clamped && Consistent(canvas.width, canvas.height, allSigns, r.pasted, r.notes, r.pastes)
  {
    ghost var bgW, bgH := canvas.width, canvas.height;
    clamped := Clamp(signCount, |allSigns|);
    var selected := Sample(allSigns, clamped, tape, cursor);
    if selected.Failure? {
      return clamped, Aborted(selected.error);
    }
    var signs := selected.value;
    r := PlaceSigns(canvas, signs, tape, cursor + clamped);
    assert r == PlaceAll(bgW, bgH, signs, tape, cursor + clamped);
    if r.Placed? {
      SampleDrawsFromPool(allSigns, clamped, tape, cursor);
      ConsistentForLargerPool(bgW, bgH, signs, allSigns, r.pasted, r.notes, r.pastes);
    }
  }
}
