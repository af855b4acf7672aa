/**
 * The placement engine: the per-sign loop of `paste_signs_on_background`.
 * For each selected sign it resizes the sign and tries up to 100 random
 * top-left corners; the first corner whose rectangle overlaps none of the
 * rectangles placed so far is accepted, the sign is pasted there and an
 * annotation record is appended. A sign for which every attempt overlaps is
 * dropped. A sign that does not fit the canvas makes `random.randint` raise,
 * which ends the run.
 */
module Placement {
  import opened Results
  import opened Rand
  import opened Overlap
  import opened Sizing
  import opened Paths
  import opened Labels

  const MaxAttempts: nat := 100

  /** A sign file as opened: its path and its pixel size. */
  datatype Sign = Sign(path: string, width: nat, height: nat)

  /** One record of the annotation file. */
  datatype Annotation = Annotation(
    signName: string,
    category: string,
    topLeft: (int, int),
    bottomRight: (int, int),
    size: string)

  /** "The canvas gets `sign`, resized, over the rectangle `at`." */
  datatype PasteEvent = PasteEvent(sign: Sign, at: Rect)

  /** The working copy of the background: its size and what has been pasted onto it, in order. */
  class Canvas {
    const width: nat
    const height: nat
    var pastes: seq<PasteEvent>

    constructor (width: nat, height: nat)
      ensures this.width == width && this.height == height && pastes == []
    {
      this.width := width;
      this.height := height;
      pastes := [];
    }

    /** `background.paste(sign_image, (x, y), sign_image)`. */
    method Paste(e: PasteEvent)
      modifies this
      ensures pastes == old(pastes) + [e]
    {
      pastes := pastes + [e];
    }
  }

  predicate Inside(bgW: nat, bgH: nat, r: Rect)
  {
    0 <= r.x1 && r.x2 <= bgW && 0 <= r.y1 && r.y2 <= bgH
  }

  function LongerSide(r: Rect): int
  {
    if r.x2 - r.x1 > r.y2 - r.y1 then r.x2 - r.x1 else r.y2 - r.y1
  }

  /** The rectangle tried at attempt `a`: `random_x` and then `random_y` are drawn from the tape. */
  function Candidate(bgW: nat, bgH: nat, w: int, h: int, tape: Tape, cursor: nat, a: nat): (r: Result<Rect>)
    ensures r.Failure? <==> w > bgW || h > bgH
    ensures r.Failure? ==> r.error == EmptyRandRange
    ensures r.Success? ==> Inside(bgW, bgH, r.value) && r.value.x2 - r.value.x1 == w && r.value.y2 - r.value.y1 == h
  {
    match RandInt(0, bgW - w, tape(cursor + 2 * a))
    case Failure(f) => Failure(f)
    case Success(x) =>
      match RandInt(0, bgH - h, tape(cursor + 2 * a + 1))
      case Failure(f) => Failure(f)
      case Success(y) => Success(Rect(x, y, x + w, y + h))
  }

  /** Attempt `b` drew a rectangle that overlaps one already placed. */
  predicate Blocked(bgW: nat, bgH: nat, w: int, h: int, pasted: seq<Rect>, tape: Tape, cursor: nat, b: nat)
  {
    var c := Candidate(bgW, bgH, w, h, tape, cursor, b);
    c.Success? && CheckOverlap(c.value, pasted)
  }

  datatype Search = Found(rect: Rect, attempt: nat) | Exhausted | Raised(fault: Fault)

  /** The attempts `a`, `a + 1`, ..., 99 of the `for _ in range(max_attempts)` loop. */
  function SearchFrom(bgW: nat, bgH: nat, w: int, h: int, pasted: seq<Rect>, tape: Tape, cursor: nat, a: nat): (r: Search)
    requires a <= MaxAttempts
    ensures r.Raised? <==> a < MaxAttempts && (w > bgW || h > bgH)
    ensures r.Found? ==>
              a <= r.attempt < MaxAttempts &&
              Candidate(bgW, bgH, w, h, tape, cursor, r.attempt) == Success(r.rect) &&
              !CheckOverlap(r.rect, pasted) &&
              forall b :: a <= b < r.attempt ==> Blocked(bgW, bgH, w, h, pasted, tape, cursor, b)
    ensures r.Exhausted? ==> forall b :: a <= b < MaxAttempts ==> Blocked(bgW, bgH, w, h, pasted, tape, cursor, b)
    decreases MaxAttempts - a
  {
    if a == MaxAttempts then Exhausted
    else match Candidate(bgW, bgH, w, h, tape, cursor, a)
      case Failure(f) => Raised(f)
      case Success(area) =>
        if !CheckOverlap(area, pasted) then Found(area, a)
        else SearchFrom(bgW, bgH, w, h, pasted, tape, cursor, a + 1)
  }

  /** The record `json_data` receives for a sign placed over `rect`, with target length `size`. */
  function Annotate(sign: Sign, rect: Rect, size: nat): Annotation
  {
    Annotation(BaseName(sign.path), BaseName(DirName(sign.path)), (rect.x1, rect.y1), (rect.x2, rect.y2), SizeLabel(size))
  }

  /** The sign can be resized and its resized rectangle fits the canvas, so placing it cannot raise. */
  predicate Fits(bgW: nat, bgH: nat, sign: Sign, u: nat)
  {
    var rs := ResizeSign(sign.width, sign.height, u);
    rs.Success? && rs.value.dims.width <= bgW && rs.value.dims.height <= bgH
  }

  /** The outcome of one sign, with the tape position after it. */
  datatype Step = Abort(fault: Fault) | Dropped(next: nat) | Accepted(rect: Rect, note: Annotation, attempt: nat, next: nat)

  /** The size the sign is resized to with the size draw `u` (0 x 0 when the resize raises). */
  function ResizedDims(sign: Sign, u: nat): Dims
  {
    match ResizeSign(sign.width, sign.height, u)
    case Success(rs) => rs.dims
    case Failure(_) => Dims(0, 0)
  }

  /** The first `n` attempts all drew a rectangle that overlaps one already placed. */
  predicate AllBlocked(bgW: nat, bgH: nat, d: Dims, pasted: seq<Rect>, tape: Tape, cursor: nat, n: nat)
  {
    forall b :: 0 <= b < n ==> Blocked(bgW, bgH, d.width, d.height, pasted, tape, cursor, b)
  }

  /** One pass of the body of `for sign_file in selected_signs`: resize, then up to 100 attempts. */
  function PlaceOne(bgW: nat, bgH: nat, sign: Sign, pasted: seq<Rect>, tape: Tape, cursor: nat): Step
  {
    match ResizeSign(sign.width, sign.height, tape(cursor))
    case Failure(f) => Abort(f)
    case Success(rs) =>
      match SearchFrom(bgW, bgH, rs.dims.width, rs.dims.height, pasted, tape, cursor + 1, 0)
      case Raised(f) => Abort(f)
      case Exhausted => Dropped(cursor + 1 + 2 * MaxAttempts)
      case Found(rect, a) => Accepted(rect, Annotate(sign, rect, rs.size), a, cursor + 1 + 2 * (a + 1))
  }

  /**
   * What one sign does: it raises exactly when it cannot be resized or does
   * not fit the canvas; it is dropped exactly when it fits and all 100
   * attempts overlap, leaving the tape 201 draws further on; an accepted
   * rectangle overlaps nothing, lies in the canvas, and its record gives its
   * corners and its longer side as size.
   */
  lemma PlaceOneOutcome(bgW: nat, bgH: nat, sign: Sign, pasted: seq<Rect>, tape: Tape, cursor: nat)
    ensures var r := PlaceOne(bgW, bgH, sign, pasted, tape, cursor);
            (r.Abort? <==> !Fits(bgW, bgH, sign, tape(cursor))) &&
            (r.Dropped? <==>
               Fits(bgW, bgH, sign, tape(cursor)) &&
               AllBlocked(bgW, bgH, ResizedDims(sign, tape(cursor)), pasted, tape, cursor + 1, MaxAttempts)) &&
            (r.Dropped? ==> r.next == cursor + 1 + 2 * MaxAttempts) &&
            (r.Accepted? ==>
               !CheckOverlap(r.rect, pasted) && Inside(bgW, bgH, r.rect) && NonEmpty(r.rect) &&
               MinSize <= LongerSide(r.rect) <= MaxSize &&
               r.note == Annotate(sign, r.rect, LongerSide(r.rect)))
  {
    match ResizeSign(sign.width, sign.height, tape(cursor))
    case Failure(f) =>
    case Success(rs) =>
      var d := rs.dims;
      assert ResizedDims(sign, tape(cursor)) == d;
      var search := SearchFrom(bgW, bgH, d.width, d.height, pasted, tape, cursor + 1, 0);
      match search
      case Raised(f) =>
      case Exhausted =>
      case Found(rect, a) =>
        assert !Blocked(bgW, bgH, d.width, d.height, pasted, tape, cursor + 1, a);
        assert rect.x2 - rect.x1 == d.width && rect.y2 - rect.y1 == d.height;
        assert LongerSide(rect) == rs.size;
  }

  /**
   * Accepted at attempt `a`: the rectangle is that attempt's draw, every
   * earlier attempt overlapped, and the tape has moved past the draws of
   * attempts 0 to `a`.
   */
  lemma PlaceOneTakesFirstFree(bgW: nat, bgH: nat, sign: Sign, pasted: seq<Rect>, tape: Tape, cursor: nat)
    requires PlaceOne(bgW, bgH, sign, pasted, tape, cursor).Accepted?
    ensures var r := PlaceOne(bgW, bgH, sign, pasted, tape, cursor);
            var d := ResizedDims(sign, tape(cursor));
            r.attempt < MaxAttempts && r.next == cursor + 1 + 2 * (r.attempt + 1) &&
            Candidate(bgW, bgH, d.width, d.height, tape, cursor + 1, r.attempt) == Success(r.rect) &&
            AllBlocked(bgW, bgH, d, pasted, tape, cursor + 1, r.attempt)
  {
    var rs := ResizeSign(sign.width, sign.height, tape(cursor)).value;
    assert ResizedDims(sign, tape(cursor)) == rs.dims;
    var search := SearchFrom(bgW, bgH, rs.dims.width, rs.dims.height, pasted, tape, cursor + 1, 0);
    assert search.Found?;
  }

  /** The outcome of the placement loop for one image. */
  datatype Pass =
    | Aborted(fault: Fault)
    | Placed(pasted: seq<Rect>, notes: seq<Annotation>, pastes: seq<PasteEvent>, cursor: nat)

  /** The signs `signs[i..]` placed after `pasted`, `notes` and `pastes` have been built up. */
  function PlaceFrom(bgW: nat, bgH: nat, signs: seq<Sign>, i: nat,
                     pasted: seq<Rect>, notes: seq<Annotation>, pastes: seq<PasteEvent>,
                     tape: Tape, cursor: nat): Pass
    requires i <= |signs|
    decreases |signs| - i
  {
    if i == |signs| then Placed(pasted, notes, pastes, cursor)
    else match PlaceOne(bgW, bgH, signs[i], pasted, tape, cursor)
      case Abort(f) => Aborted(f)
      case Dropped(next) => PlaceFrom(bgW, bgH, signs, i + 1, pasted, notes, pastes, tape, next)
      case Accepted(rect, note, _, next) =>
        PlaceFrom(bgW, bgH, signs, i + 1, pasted + [rect], notes + [note], pastes + [PasteEvent(signs[i], rect)], tape, next)
  }

  /** Every sign of `signs` placed onto an empty canvas. */
  function PlaceAll(bgW: nat, bgH: nat, signs: seq<Sign>, tape: Tape, cursor: nat): Pass
  {
    PlaceFrom(bgW, bgH, signs, 0, [], [], [], tape, cursor)
  }

  /**
   * Entry k of `pasted`, of `json_data` and of the canvas's pastes describe
   * the same placed sign: a non-empty rectangle inside the canvas, pasted
   * from one of `signs`, whose record gives its corners, its name, its
   * category, and as size the longer side, between 42 and 300.
   */
  predicate EntryOk(bgW: nat, bgH: nat, signs: seq<Sign>,
                    pasted: seq<Rect>, notes: seq<Annotation>, pastes: seq<PasteEvent>, k: int)
  {
    0 <= k < |pasted| && k < |notes| && k < |pastes| &&
    var rect := pasted[k];
    Inside(bgW, bgH, rect) && NonEmpty(rect) &&
    pastes[k].at == rect && pastes[k].sign in signs &&
    MinSize <= LongerSide(rect) <= MaxSize &&
    notes[k] == Annotate(pastes[k].sign, rect, LongerSide(rect))
  }

  /** The state the placement loop keeps: equal lengths, matching entries, no two rectangles overlapping. */
  predicate Consistent(bgW: nat, bgH: nat, signs: seq<Sign>,
                       pasted: seq<Rect>, notes: seq<Annotation>, pastes: seq<PasteEvent>)
  {
    |pasted| == |notes| == |pastes| &&
    PairwiseDisjoint(pasted) &&
    forall k :: 0 <= k < |pasted| ==> EntryOk(bgW, bgH, signs, pasted, notes, pastes, k)
  }

  /** Accepting one sign keeps the loop's state consistent. */
  lemma AcceptKeepsConsistent(bgW: nat, bgH: nat, signs: seq<Sign>, i: nat,
                              pasted: seq<Rect>, notes: seq<Annotation>, pastes: seq<PasteEvent>,
                              tape: Tape, cursor: nat)
    requires i < |signs|
    requires Consistent(bgW, bgH, signs, pasted, notes, pastes)
    requires PlaceOne(bgW, bgH, signs[i], pasted, tape, cursor).Accepted?
    ensures var s := PlaceOne(bgW, bgH, signs[i], pasted, tape, cursor);
            Consistent(bgW, bgH, signs, pasted + [s.rect], notes + [s.note], pastes + [PasteEvent(signs[i], s.rect)])
  {
    var s := PlaceOne(bgW, bgH, signs[i], pasted, tape, cursor);
    PlaceOneOutcome(bgW, bgH, signs[i], pasted, tape, cursor);
    AppendKeepsDisjoint(pasted, s.rect);
    var p', n', e' := pasted + [s.rect], notes + [s.note], pastes + [PasteEvent(signs[i], s.rect)];
    forall k | 0 <= k < |p'|
      ensures EntryOk(bgW, bgH, signs, p', n', e', k)
    {
      if k < |pasted| {
        assert EntryOk(bgW, bgH, signs, pasted, notes, pastes, k);
        assert p'[k] == pasted[k] && n'[k] == notes[k] && e'[k] == pastes[k];
      } else {
        assert p'[k] == s.rect && n'[k] == s.note && e'[k] == PasteEvent(signs[i], s.rect);
      }
    }
  }

  /**
   * The placement loop's invariant: from a consistent state, the loop ends in
   * a consistent state that extends it, with at most one new entry per sign.
   */
  lemma {:induction false} PlaceFromKeepsConsistent(bgW: nat, bgH: nat, signs: seq<Sign>, i: nat,
                                                    pasted: seq<Rect>, notes: seq<Annotation>, pastes: seq<PasteEvent>,
                                                    tape: Tape, cursor: nat)
    requires i <= |signs|
    requires Consistent(bgW, bgH, signs, pasted, notes, pastes)
    ensures var r := PlaceFrom(bgW, bgH, signs, i, pasted, notes, pastes, tape, cursor);
            r.Placed? ==>
              Consistent(bgW, bgH, signs, r.pasted, r.notes, r.pastes) &&
              pasted <= r.pasted && notes <= r.notes && pastes <= r.pastes &&
              |r.pasted| <= |pasted| + (|signs| - i)
    decreases |signs| - i
  {
    if i < |signs| {
      var r := PlaceFrom(bgW, bgH, signs, i, pasted, notes, pastes, tape, cursor);
      match PlaceOne(bgW, bgH, signs[i], pasted, tape, cursor)
      case Abort(f) =>
        assert r.Aborted?;
      case Dropped(next) =>
        assert r == PlaceFrom(bgW, bgH, signs, i + 1, pasted, notes, pastes, tape, next);
        PlaceFromKeepsConsistent(bgW, bgH, signs, i + 1, pasted, notes, pastes, tape, next);
      case Accepted(rect, note, _, next) =>
        var p', n', e' := pasted + [rect], notes + [note], pastes + [PasteEvent(signs[i], rect)];
        assert r == PlaceFrom(bgW, bgH, signs, i + 1, p', n', e', tape, next);
        AcceptKeepsConsistent(bgW, bgH, signs, i, pasted, notes, pastes, tape, cursor);
        PlaceFromKeepsConsistent(bgW, bgH, signs, i + 1, p', n', e', tape, next);
        if r.Placed? {
          assert pasted <= p' <= r.pasted;
          assert notes <= n' <= r.notes;
          assert pastes <= e' <= r.pastes;
        }
    }
  }

  /** A finished placement for one image: pairwise non-overlapping, in the canvas, records matching rectangles. */
  lemma PlaceAllIsConsistent(bgW: nat, bgH: nat, signs: seq<Sign>, tape: Tape, cursor: nat)
    ensures var r := PlaceAll(bgW, bgH, signs, tape, cursor);
            r.Placed? ==> Consistent(bgW, bgH, signs, r.pasted, r.notes, r.pastes) && |r.pasted| <= |signs|
  {
    PlaceFromKeepsConsistent(bgW, bgH, signs, 0, [], [], [], tape, cursor);
  }

  /** At least 42 pixels on each side, the smallest a square sign is resized to. */
  predicate Large(r: Rect)
  {
    r.x2 - r.x1 >= MinSize && r.y2 - r.y1 >= MinSize
  }

  /**
   * On a canvas narrower and lower than two minimum-size signs, a placed
   * image holds at most one rectangle that is at least 42 pixels on each
   * side: every later such sign overlaps it on all 100 attempts.
   */
  lemma SmallCanvasHoldsOneLargeSign(bgW: nat, bgH: nat, signs: seq<Sign>, tape: Tape, cursor: nat)
    requires bgW < 2 * MinSize && bgH < 2 * MinSize
    ensures var r := PlaceAll(bgW, bgH, signs, tape, cursor);
            r.Placed? ==> forall i, j :: 0 <= i < j < |r.pasted| ==> !(Large(r.pasted[i]) && Large(r.pasted[j]))
  {
    var r := PlaceAll(bgW, bgH, signs, tape, cursor);
    if r.Placed? {
      PlaceAllIsConsistent(bgW, bgH, signs, tape, cursor);
      forall i, j | 0 <= i < j < |r.pasted|
        ensures !(Large(r.pasted[i]) && Large(r.pasted[j]))
      {
        assert EntryOk(bgW, bgH, signs, r.pasted, r.notes, r.pastes, i);
        assert EntryOk(bgW, bgH, signs, r.pasted, r.notes, r.pastes, j);
        if Large(r.pasted[i]) && Large(r.pasted[j]) {
          LargeSignsOverlap(bgW, bgH, r.pasted[i], r.pasted[j]);
          assert false;
        }
      }
    }
  }

  /** Two such rectangles in such a canvas both cover the pixel at column 41, row 41. */
  lemma LargeSignsOverlap(bgW: nat, bgH: nat, a: Rect, b: Rect)
    requires bgW < 2 * MinSize && bgH < 2 * MinSize
    requires Inside(bgW, bgH, a) && Large(a)
    requires Inside(bgW, bgH, b) && Large(b)
    ensures Overlaps(a, b)
  {
  }

  /**
   * The tape position sign `k` starts reading at, given the one sign `i` starts
   * at; it is only meaningful while no earlier sign aborts.
   */
  function CursorAt(bgW: nat, bgH: nat, signs: seq<Sign>, i: nat, k: nat, pasted: seq<Rect>, tape: Tape, cursor: nat): nat
    requires i <= k <= |signs|
    decreases k - i
  {
    if i == k then cursor
    else match PlaceOne(bgW, bgH, signs[i], pasted, tape, cursor)
      case Abort(_) => cursor
      case Dropped(next) => CursorAt(bgW, bgH, signs, i + 1, k, pasted, tape, next)
      case Accepted(rect, _, _, next) => CursorAt(bgW, bgH, signs, i + 1, k, pasted + [rect], tape, next)
  }

  /** The loop aborts exactly when it reaches a sign that cannot be resized or does not fit the canvas. */
  lemma {:induction false} PlaceFromAbortsIffMisfit(bgW: nat, bgH: nat, signs: seq<Sign>, i: nat,
                                                    pasted: seq<Rect>, notes: seq<Annotation>, pastes: seq<PasteEvent>,
                                                    tape: Tape, cursor: nat)
    requires i <= |signs|
    ensures PlaceFrom(bgW, bgH, signs, i, pasted, notes, pastes, tape, cursor).Aborted? <==>
            exists k :: i <= k < |signs| &&
              !Fits(bgW, bgH, signs[k], tape(CursorAt(bgW, bgH, signs, i, k, pasted, tape, cursor)))
    decreases |signs| - i
  {
    if i < |signs| {
      match PlaceOne(bgW, bgH, signs[i], pasted, tape, cursor)
      case Abort(f) =>
        assert CursorAt(bgW, bgH, signs, i, i, pasted, tape, cursor) == cursor;
      case Dropped(next) =>
        PlaceFromAbortsIffMisfit(bgW, bgH, signs, i + 1, pasted, notes, pastes, tape, next);
        forall k | i < k < |signs|
          ensures CursorAt(bgW, bgH, signs, i, k, pasted, tape, cursor) == CursorAt(bgW, bgH, signs, i + 1, k, pasted, tape, next)
        {
        }
      case Accepted(rect, note, _, next) =>
        PlaceFromAbortsIffMisfit(bgW, bgH, signs, i + 1, pasted + [rect], notes + [note],
                                 pastes + [PasteEvent(signs[i], rect)], tape, next);
        forall k | i < k < |signs|
          ensures CursorAt(bgW, bgH, signs, i, k, pasted, tape, cursor) == CursorAt(bgW, bgH, signs, i + 1, k, pasted + [rect], tape, next)
        {
        }
    }
  }

  /** The two draws of one attempt give the rectangle `Candidate` describes. */
  lemma CandidateFromDraws(bgW: nat, bgH: nat, w: int, h: int, tape: Tape, cursor: nat, a: nat, x: int, y: int)
    requires RandInt(0, bgW - w, tape(cursor + 2 * a)) == Success(x)
    requires RandInt(0, bgH - h, tape(cursor + 2 * a + 1)) == Success(y)
    ensures Candidate(bgW, bgH, w, h, tape, cursor, a) == Success(Rect(x, y, x + w, y + h))
  {
  }

  /**
   * The `for _ in range(max_attempts)` loop: draws corners until one gives a
   * rectangle overlapping nothing in `pasted`; raises when the sign does not
   * fit the canvas.
   */
  method FindFreeCorner(bgW: nat, bgH: nat, w: int, h: int, pasted: seq<Rect>, tape: Tape, cursor: nat)
    returns (r: Search)
    ensures r == SearchFrom(bgW, bgH, w, h, pasted, tape, cursor, 0)
    ensures r.Found? ==> !CheckOverlap(r.rect, pasted) && Inside(bgW, bgH, r.rect)
    ensures r.Raised? <==> w > bgW || h > bgH
  {
    var cur := cursor;
    for attempt := 0 to MaxAttempts
      invariant cur == cursor + 2 * attempt
      invariant SearchFrom(bgW, bgH, w, h, pasted, tape, cursor, 0) == SearchFrom(bgW, bgH, w, h, pasted, tape, cursor, attempt)
    {
      var x := RandInt(0, bgW - w, tape(cur));
      if x.Failure? {
        return Raised(x.error);
      }
      var y := RandInt(0, bgH - h, tape(cur + 1));
      if y.Failure? {
        return Raised(y.error);
      }
      var area := Rect(x.value, y.value, x.value + w, y.value + h);
      CandidateFromDraws(bgW, bgH, w, h, tape, cursor, attempt, x.value, y.value);
      cur := cur + 2;
      if !CheckOverlap(area, pasted) {
        return Found(area, attempt);
      }
    }
    return Exhausted;
  }

  /**
   * The body of the loop over the selected signs: resize the sign, look for
   * a free corner, and paste the sign there if one was found.
   */
  method PlaceSign(canvas: Canvas, sign: Sign, pasted: seq<Rect>, tape: Tape, cursor: nat) returns (step: Step)
    modifies canvas
    ensures step == PlaceOne(canvas.width, canvas.height, sign, pasted, tape, cursor)
    ensures canvas.pastes == old(canvas.pastes) + (if step.Accepted? then [PasteEvent(sign, step.rect)] else [])
  {
    var bgW, bgH := canvas.width, canvas.height;
    var resized := ResizeSign(sign.width, sign.height, tape(cursor));
    if resized.Failure? {
      return Abort(resized.error);
    }
    var signSize := resized.value.size;
    var search := FindFreeCorner(bgW, bgH, resized.value.dims.width, resized.value.dims.height,
                                 pasted, tape, cursor + 1);
    match search
    case Raised(f) =>
      step := Abort(f);
    case Exhausted =>
      step := Dropped(cursor + 1 + 2 * MaxAttempts);
    case Found(area, a) =>
      step := Accepted(area, Annotate(sign, area, signSize), a, cursor + 1 + 2 * (a + 1));
    assert step == PlaceOne(bgW, bgH, sign, pasted, tape, cursor);
    if step.Accepted? {
      canvas.Paste(PasteEvent(sign, step.rect));
    }
  }

  /**
   * The placement loop of `paste_signs_on_background` for one image: builds
   * `pasted_signs` and `json_data` and pastes onto the canvas, one sign at a
   * time.
   */
  method PlaceSigns(canvas: Canvas, signs: seq<Sign>, tape: Tape, cursor: nat) returns (r: Pass)
    modifies canvas
    ensures r == PlaceAll(canvas.width, canvas.height, signs, tape, cursor)
    ensures r.Placed? ==> canvas.pastes == old(canvas.pastes) + r.pastes
    ensures r.Placed? ==> Consistent(canvas.width, canvas.height, signs, r.pasted, r.notes, r.pastes)
    ensures r.Placed? ==> |r.pasted| <= |signs|
  {
    var pastedSigns: seq<Rect> := [];
    var jsonData: seq<Annotation> := [];
    var pasteLog: seq<PasteEvent> := [];
    var cur := cursor;
    for i := 0 to |signs|
      invariant canvas.pastes == old(canvas.pastes) + pasteLog
      invariant PlaceFrom(canvas.width, canvas.height, signs, i, pastedSigns, jsonData, pasteLog, tape, cur) ==
                PlaceAll(canvas.width, canvas.height, signs, tape, cursor)
    {
      var step := PlaceSign(canvas, signs[i], pastedSigns, tape, cur);
      match step
      case Abort(f) =>
        return Aborted(f);
      case Dropped(next) =>
        cur := next;
      case Accepted(area, note, _, next) =>
        pastedSigns := pastedSigns + [area];
        jsonData := jsonData + [note];
        pasteLog := pasteLog + [PasteEvent(signs[i], area)];
        cur := next;
    }
    r := Placed(pastedSigns, jsonData, pasteLog, cur);
    PlaceAllIsConsistent(canvas.width, canvas.height, signs, tape, cursor);
  }
}
