# Sign placement for synthetic detection images — a Dafny model

`webicon.py` builds training images for object detection. It pastes randomly
chosen "sign" cutouts onto a background and writes one annotation record per
pasted sign. This project models the placement core of that script and proves
properties of it:

- **Overlap checker** (`check_overlap`): axis-aligned rectangles
  `(x1, y1, x2, y2)` with exclusive right and bottom edges.
- **Size randomizer** (`resize_sign`): a target length `T` is drawn in
  [42, 300]. The longer side becomes `T`; a square counts as "height is
  longer". The other side is scaled by the same ratio and truncated. `T`
  itself is what gets recorded.
- **Background keyer** (`remove_background`): a per-pixel map over RGBA pixels.
  In `white` mode, pixels whose three colour channels are all above 200 become
  (255, 255, 255, 0). In `black` mode, pixels whose channels are all below 50
  become (0, 0, 0, 0). All other pixels are kept.
- **Selection** (lines 35-38): the count is clamped to
  `min(sign_count, len(all_signs))`, then signs are drawn without replacement.
- **Placement loop** (lines 40-82): for each sign, resize it, then try up to 100
  random corners. The first corner whose rectangle overlaps nothing placed so
  far wins: the sign is pasted there, the rectangle goes into `pasted_signs`,
  and a record goes into `json_data`. If all 100 attempts overlap, the sign is
  dropped.

Randomness is a caller-supplied tape of raw draws (`Rand.Tape`), read in the
order the script calls the random module:

1. one draw per pick of `random.sample`;
2. then, for each sign, one draw for the target length;
3. then two draws (x, then y) for each attempt.

`random.randint(lo, hi)` on draw `u` gives `lo + u % (hi - lo + 1)`. Every value
in the range comes out of some draw (`Rand.RandIntReachesEveryValue`), so a
property proved for every tape holds for every outcome of the random module.

Exceptions are modelled as `Results.Fault`. Any fault ends the image (and, in
the script, the whole run). The faults are:

- `random.randint` with an empty range, when a resized sign is wider or taller
  than the background;
- `random.sample` with a negative count;
- division by zero for a 0 x 0 image;
- the imaging library refusing a resize to a side of 0 pixels. This happens for
  very thin signs: e.g. a 1000 x 1 image with `T` = 42 truncates to a height
  of 0.

Placement is specified by functions (`Placement.SearchFrom`,
`Placement.PlaceOne`, `Placement.PlaceFrom`). The imperative loops
(`Placement.FindFreeCorner`, `Placement.PlaceSigns`, `Keyer.RemoveBackground`)
and the per-sign step `Placement.PlaceSign` are proved equal to those
functions. The canvas is a
class (`Placement.Canvas`) whose paste events accumulate in order.

Behaviour of the code that is easy to miss:

- The colour mode is any string. `remove_background` leaves every pixel
  unchanged for a mode other than `white` or `black`, just as `none` does.
- A negative sign count is not rejected up front. It reaches `random.sample`,
  which raises.
- `sign_count` is reassigned by the clamp and carries over to the next image.
  With the same pool this changes nothing (`Selection.ClampIsIdempotent`). If
  the pool grows between images, the count stays at the earlier, smaller value.

## Model

| member | source | states |
|---|---|---|
| `Overlap.CheckOverlap` | webicon.py:164-178 | true exactly when some placed area overlaps the new one under the strict test; false for an empty list |
| `Overlap.OverlapsSymmetric` | webicon.py:176 | the overlap test gives the same answer with its arguments swapped |
| `Overlap.TouchingEdgesDoNotOverlap` | webicon.py:176 | rectangles that share only a vertical or horizontal edge do not overlap, in either order |
| `Overlap.OverlapsIffSharedPixel` | webicon.py:176 | for non-empty rectangles the test holds exactly when some pixel lies in both (independent geometric definition) |
| `Overlap.AppendKeepsDisjoint` | webicon.py:67-69 | appending an area that `check_overlap` clears keeps the list pairwise non-overlapping |
| `Rand.RandInt` | webicon.py:62-63 | `randint(lo, hi)` raises exactly when hi < lo; otherwise the value lies in [lo, hi] |
| `Rand.RandIntReachesEveryValue` | webicon.py:150 | every value of the range is produced by some draw, so no random outcome is excluded |
| `Sizing.TargetDims` | webicon.py:153-158 | wider-than-high: width is the target and height is the largest value keeping the ratio (floor); otherwise (square included) height is the target and width is scaled the same way; both sides at most the target; raises only for a 0 x 0 image |
| `Sizing.ResizeSign` | webicon.py:147-162 | the recorded size lies in [42, 300] and equals the longer new side; the new dimensions are exactly those `TargetDims` gives for that size, so the shorter side is the ratio-keeping floor; both new sides are between 1 and the size; fails exactly for a 0 x 0 image or when the shorter side truncates to 0 |
| `Sizing.ResizeExample` | webicon.py:153-155 | a 100 x 50 sign with target 200 becomes exactly 200 x 100 |
| `Sizing.SquareKeepsSquare` | webicon.py:156-158 | a square sign becomes target x target |
| `Keyer.RemoveBackground` | webicon.py:118-132 | same pixel count; white-mode background pixels become (255,255,255,0), black-mode ones (0,0,0,0), every other pixel unchanged |
| `Keyer.OtherModeIsIdentity` | webicon.py:48-51 | a mode other than `white`/`black` (such as `none`) leaves the pixel data unchanged |
| `Keyer.KeyingIsIdempotent` | webicon.py:123-129 | keying an already keyed image changes nothing |
| `Paths.AfterLastSepIsLast` | webicon.py:72 | the index found follows the last separator of the path |
| `Paths.BaseNameIsLastComponent` | webicon.py:72 | the sign name is the separator-free suffix after the last separator |
| `Paths.RStripRemovesTrailingSeps` | webicon.py:45 | stripping leaves a prefix not ending in a separator and removes only separators |
| `Paths.JoinSplits` | webicon.py:29-32 | for a path built by `os.path.join(root, file)`, the base name is the file name and the directory name is the root |
| `Paths.CategoryIsFolderName` | webicon.py:45 | a sign's category is the name of the folder that holds it |
| `Labels.Decimal` | webicon.py:80 | the size is written as digits only, without a leading zero |
| `Labels.DecimalRoundTrip` | webicon.py:80 | reading the written digits back gives the size |
| `Labels.SizeLabelReadsBack` | webicon.py:80 | the label is `T*T`: both halves read back as the size and the `*` separates them |
| `Selection.Clamp` | webicon.py:35 | the count is the smaller of the request and the number of signs found |
| `Selection.ClampIsIdempotent` | webicon.py:22-35 | clamping the carried-over count again against the same pool changes nothing |
| `Selection.Sample` | webicon.py:38 | raises exactly when the count is negative or above the pool size; otherwise returns that many signs, drawn without replacement (a sub-multiset of the pool) |
| `Selection.SampleReachesEverySelection` | webicon.py:38 | a tape holding the right draws makes the sample any chosen selection of pool entries without reuse, in its order |
| `Selection.EverySelectionIsSampled` | webicon.py:38 | every selection without reuse, in every order, is the sample of some tape |
| `Selection.SampleIsDistinctMembers` | webicon.py:38 | from a pool without repeats the sample has no repeats and only members of the pool |
| `Placement.Candidate` | webicon.py:62-64 | an attempt raises exactly when the sign is wider or taller than the canvas; otherwise its rectangle lies in the canvas with the sign's width and height |
| `Placement.SearchFrom` | webicon.py:59-67 | raises exactly when the sign does not fit; a found rectangle is the first attempt that overlaps nothing, with all earlier attempts overlapping; exhausted only when all 100 attempts overlap |
| `Placement.FindFreeCorner` | webicon.py:59-67 | the attempt loop computes `SearchFrom` from the first attempt: a found rectangle overlaps nothing and lies in the canvas |
| `Placement.PlaceOneOutcome` | webicon.py:43-82 | a sign raises exactly when it cannot be resized or does not fit; it is dropped (lists unchanged, tape 201 draws on) exactly when it fits and all 100 attempts overlap; an accepted rectangle overlaps nothing, lies in the canvas, is non-empty, and its record holds its corners, name, category and its longer side (in [42, 300]) as size |
| `Placement.PlaceOneTakesFirstFree` | webicon.py:59-82 | an accepted rectangle is the draw of its attempt, every earlier attempt overlapped, and the tape moves past exactly the draws of the attempts made |
| `Placement.AcceptKeepsConsistent` | webicon.py:67-81 | appending an accepted rectangle, its record and its paste keeps the lists equal in length, matching entry by entry, and pairwise non-overlapping |
| `Placement.PlaceFromKeepsConsistent` | webicon.py:43-82 | the sign loop keeps that invariant, only appends to the lists, and adds at most one entry per sign |
| `Placement.PlaceAllIsConsistent` | webicon.py:40-82 | after one image the placed rectangles are pairwise non-overlapping and inside the canvas, with at most one per sign, and record k matches rectangle k |
| `Placement.PlaceFromAbortsIffMisfit` | webicon.py:54-64 | the loop raises exactly when it reaches a sign that cannot be resized or does not fit the canvas |
| `Placement.SmallCanvasHoldsOneLargeSign` | webicon.py:40-82 | on a canvas under 84 x 84, a placed image holds at most one rectangle that is at least 42 pixels on each side |
| `Placement.Canvas.constructor` | webicon.py:24-25 | a fresh canvas has the background's size and no pastes |
| `Placement.Canvas.Paste` | webicon.py:68 | a paste appends exactly one event to the canvas |
| `Placement.PlaceSign` | webicon.py:43-82 | one sign's pass equals `PlaceOne`; the canvas gains a paste exactly when the sign is accepted |
| `Placement.PlaceSigns` | webicon.py:40-82 | the loop equals `PlaceAll`; the canvas receives exactly the recorded pastes; the result satisfies the placement invariant |
| `Composite.ComposeImage` | webicon.py:35-82 | the carried count is the clamp; a negative count raises; otherwise exactly that many sampled signs are placed, and every placed sign comes from the pool |

## Left out

- Image I/O: opening the background and the signs, the conversion to RGBA, saving the image, and flattening to RGB for `.jpg` output. Foreign library calls.
- Pixel compositing of `background.paste`: only the paste event is recorded.
- LANCZOS resampling: only the target dimensions are modelled.
- Sizing.TargetDims: computes the exact `floor(T * other / longer)`. The script multiplies floats (`(T / longer) * other`), and rounding can rarely make that product one less than the exact floor.
- The imaging library's refusal of a zero-sized resize is taken from its documented behaviour. The library is not part of this model.
- The quality and distribution of the random number generator. `random.sample`'s own algorithm is replaced by "remove the picked element from the pool"; every selection order is still reachable (`Selection.EverySelectionIsSampled`).
- Signs are discovered with `os.walk` and an extension filter; that discovery is not modelled. The model starts from the list of signs found, each with its path and pixel size.
- Output directory creation, output file naming, `json.dump` and `print`.
- The `input()` prompt and the hard-coded configuration (webicon.py:180-190).
- The outer loop over `num_images` (webicon.py:22-98) is modelled only through `Composite.ComposeImage`, one image at a time. The catch-all handler (webicon.py:100-101) appears only as the `Aborted` outcome, which ends the run.
