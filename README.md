# resizeImage, modelled and proved in Dafny

This project models the core of the browser image resizer: `resizeImage` in
`services/imageService.ts`. The function takes a decoded picture and
produces a JPEG that meets two conditions:

- it is strictly larger than 2880 × 2304 pixels;
- it weighs at most 5 MiB (5 × 1024 × 1024 bytes).

It works in two stages.

- **Dimension planner** (`dimension_planner.dfy`, module `DimensionPlanner`).
  - It computes two factors, `(2880 + 1) / W` and `(2304 + 1) / H`, and keeps the larger one.
  - It scales both axes by that factor and rounds each axis up on its own.
  - The model uses exact rationals (`real`) with `Ceil(x) = -floor(-x)`.
  - It is also given an integer closed form: the axis whose factor is larger lands exactly on its target + 1, and the other axis is an integer ceiling division.
- **Quality search** (`quality_search.dfy`, module `QualitySearch`).
  - It first encodes at quality 1.
  - If that blob is over the ceiling, it bisects the quality on `[0, 1]` exactly ten times. A blob that fits raises `low` and is kept; a blob that does not fit lowers `high`.
  - If no blob was kept, it makes a last attempt at quality 0.5, and rejects the call if that blob is still too large.
  - A missing blob (the encoder's callback delivers `null`) rejects the call at once.
  - Each quality the search can ask for is a multiple of 1/1024, so a quality is written as its numerator over `Scale = 1024`. These values are also exact in double precision, so the exact model computes the same qualities as the browser.
  - The encoder is an oracle `Encoder = nat -> Option<nat>`: it maps a quality numerator to the byte size of the blob, or to `None`.
  - The search is specified twice:
    - by the functions `Rounds`/`Probed` (the state after each round, and the qualities asked for), and `Search`/`SearchProbes` (the whole search);
    - by the methods `Bisect` (the ten-round `for` loop, which updates `low`, `high` and `best` in place) and `SearchQuality` (quality 1, the loop, then the fallback).
  - Each method is proved equal to its specification functions, and the properties are proved as lemmas about those functions.
  - The methods carry a ghost sequence of the qualities probed, which is how call counts and call order are stated.
- **Service** (`image_service.dfy`, module `ImageService`).
  - `ResizeImage` puts the pieces together: planned dimensions, a possibly missing 2d context, the search, and the resulting record.
  - The record is `Types.ImageFile`, which mirrors `types.ts`.
  - The page's 16:9 guard in `App.tsx` is stated as the predicate `AspectAccepted`.

`types.dfy` (module `Types`) holds the shared values:

- `Option`, for the nullable blob;
- `Result`, for the settled promise;
- the three ways a resize is rejected;
- the `ImageFile` record.

A consequence of the code as written, proved as `FallbackAlwaysRejects`: the first bisection probe is quality 0.5, and the fallback encodes at 0.5 again. With a deterministic encoder, reaching the fallback therefore means 0.5 was already over the ceiling, so the fallback always rejects. The model keeps the fallback exactly as the code has it.

Three facts about the code as written, which the model keeps (the planner's in exact arithmetic, see "## Left out" for doubles):

- **No input check.** The code has no check on zero or negative dimensions and no separate invalid-input rejection. Dimensions are natural numbers here. A picture with a zero side gets no plan: its factors divide by zero, the canvas gets no pixels, and the first encode delivers no blob. `ResizeImage` models that path as an EncodeFailed rejection after one call at quality 1.
- **The driving axis lands on target + 1, in exact arithmetic.** `PlanUltraHd` plans 3840 × 2160 at 4098 × 2305. The height factor drives the scale, so the height is exactly 2304 + 1; double-precision arithmetic gives the same plan for this picture, but not for every picture.
- **The compression rejection carries only the ceiling.** Its message reports the ceiling in MiB, modelled as `CompressionFailed(MaxMiB)`, and nothing else.

## Model

| member | source | states |
|---|---|---|
| DimensionPlanner.Ceil | services/imageService.ts:38-39 | Math.ceil: the result is the least integer not below x (c − 1 < x ≤ c) |
| DimensionPlanner.Plan | services/imageService.ts:34-39 | for any positive W and H, the planned width exceeds 2880 and the planned height exceeds 2304 |
| DimensionPlanner.FactorOrder | services/imageService.ts:34-36 | the width factor 2881/W is the larger exactly when 2881·H ≥ 2305·W (both directions) |
| DimensionPlanner.CeilOfQuotient | services/imageService.ts:38-39 | rounding up an exact quotient a/b is integer ceiling division |
| DimensionPlanner.PlanWidthDriven | services/imageService.ts:34-39 | when 2881·H ≥ 2305·W (the width factor is the larger), the width is exactly 2881 and the height is ⌈2881·H/W⌉ |
| DimensionPlanner.PlanHeightDriven | services/imageService.ts:34-39 | when 2881·H ≤ 2305·W (the height factor is at least as large), the height is exactly 2305 and the width is ⌈2305·W/H⌉; a tie gives the same plan |
| DimensionPlanner.PlanClosedForm | services/imageService.ts:34-39 | when the width factor is the larger, the width is exactly 2881 and the height is ⌈2881·H/W⌉; when the height factor is the larger, the height is exactly 2305 and the width is ⌈2305·W/H⌉; on a tie both forms agree |
| DimensionPlanner.PlanUltraHd | services/imageService.ts:34-39 | a 3840 × 2160 picture is planned at 4098 × 2305 |
| QualitySearch.StartInvariant | services/imageService.ts:53-55 | once quality 1 was over, the start state (low 0, high 1, nothing kept) satisfies the bisection invariant, with high − low = 1 = 2^-0 |
| QualitySearch.MidInside | services/imageService.ts:64 | before each of the ten rounds the midpoint lies strictly between low and high and is exactly their mean |
| QualitySearch.NarrowKeepsInvariant | services/imageService.ts:63-72 | one round keeps 0 ≤ low < high ≤ 1, halves high − low, keeps high a quality whose blob was over, and keeps low the quality of the kept blob that fitted (or 0 with nothing kept) |
| QualitySearch.RoundsKeepInvariant | services/imageService.ts:63-72 | every state the rounds reach keeps the invariant above; after i rounds high − low = 2^-i |
| QualitySearch.ProbedShape | services/imageService.ts:63-65 | quality 1 is the first call and each round makes exactly one call; after a missing blob the calls stop, that call is the last one, all earlier calls delivered a blob, and the rejection is EncodeFailed |
| QualitySearch.FailureStops | services/imageService.ts:92-94 | after a rejection no later round changes the outcome or makes another call |
| QualitySearch.FirstProbeIsHalf | services/imageService.ts:63-65 | the first bisection probe is quality 0.5 |
| QualitySearch.RoundsKeepHighestFit | services/imageService.ts:63-72 | every bisection probe is strictly inside (0, 1); every probe that fitted is at most low; the kept blob is one of the probes; with nothing kept, every probe was over |
| QualitySearch.BisectionOutcome | services/imageService.ts:63-72 | after ten rounds the interval is [low, low + 1/1024] and the facts above hold of the final state |
| QualitySearch.SearchWithinBudget | services/imageService.ts:57-82 | a resolved search keeps a blob the encoder produced at one of the probed qualities in (0, 1], and that blob is within 5 MiB |
| QualitySearch.SearchShortCircuit | services/imageService.ts:58-60 | if the quality-1 blob fits, it is the result and quality 1 is the only call |
| QualitySearch.HalfWasOver | services/imageService.ts:63-65 | when the ten rounds kept nothing, the blob at quality 0.5 was already over the ceiling |
| QualitySearch.FallbackAlwaysRejects | services/imageService.ts:76-81 | when the ten rounds kept nothing, the search rejects with CompressionFailed(5) |
| QualitySearch.SearchCallCount | services/imageService.ts:57-78 | between 1 and 12 encoder calls; quality 1 is first; when quality 1 is over, quality 0.5 is second |
| QualitySearch.SearchCallCountExact | services/imageService.ts:57-81 | once quality 1 was over: a resolved search made exactly 11 calls, and a CompressionFailed rejection made exactly 12 |
| QualitySearch.SearchErrorKinds | services/imageService.ts:76-81 | a rejected search is either EncodeFailed or CompressionFailed(5) |
| QualitySearch.SearchAbortsOnMissingBlob | services/imageService.ts:12-16 | the search rejects with EncodeFailed exactly when its last call delivered no blob, and every earlier call delivered one |
| QualitySearch.SearchOptimalWhenMonotone | services/imageService.ts:63-72 | when blob size never falls as quality rises: no multiple of 1/1024 above the kept quality fits, and a CompressionFailed rejection means no multiple of 1/1024 from 1/1024 to 1 fits |
| QualitySearch.SearchLinearEncoder | services/imageService.ts:53-90 | with blobs of quality × 10,000,000 bytes, the search keeps quality 536/1024 at 5,234,375 bytes |
| QualitySearch.Bisect | services/imageService.ts:63-72 | the in-place loop over low, high and best reaches the state and makes the calls of the ten specified rounds, and its final state keeps the invariant (interval width 1/1024) |
| QualitySearch.SearchQuality | services/imageService.ts:53-82 | the imperative search returns the specified outcome and makes the specified calls: at most 12; on success a blob the encoder produced within 5 MiB; EncodeFailed exactly when the last call delivered no blob |
| ImageService.AspectAcceptedInIntegers | App.tsx:31-33 | for all W and H, in exact arithmetic, the 16:9 guard (rejecting only when abs(W/H − 16/9) > 0.01) accepts exactly when 1591·H ≤ 900·W ≤ 1609·H; with H = 0 this lets only 0 × 0 through, as NaN does |
| ImageService.AcceptedPlan | services/imageService.ts:34-39 | in exact arithmetic, every picture the 16:9 guard accepts is driven by its height: the canvas is 2305 high and between 4075 and 4121 wide |
| ImageService.ResizeImage | services/imageService.ts:32-90 | with no 2d context it rejects before any encoder call; for a picture with a zero side it rejects with EncodeFailed after one call at quality 1; otherwise it makes the search's calls and resolves exactly when the search does, with the file name, the planned width and height (over 2880 and 2304) and the kept blob's size (at most 5 MiB), and it rejects with the search's error when the search rejects |

## Left out

- Reading the file and decoding it (FileReader, Image, their error callbacks at services/imageService.ts:96-98) is left out. The model starts from the decoded width and height.
- The object URL in the resolved record (services/imageService.ts:85) is left out; `ImageFile` keeps the name, the dimensions and the size.
- Canvas creation and drawImage (services/imageService.ts:41-49) are left out. Only the getContext null check is kept, as the `contextAvailable` parameter. The encoder parameter stands for the canvas after drawing.
- The JPEG encoder inside canvas.toBlob is an oracle. It is assumed deterministic: the same quality gives the same blob, which is what makes two identical calls give identical results.
- IEEE-754 rounding is not modelled in the planner's divisions and Math.ceil, nor in the 16:9 guard's division; both use exact rationals here. The qualities of the search are dyadic, so they are exact in both.
  - In doubles the driven axis can land one pixel higher. For 465 × 263, `263 * (2305 / 263)` is 2305.0000000000005, so the canvas is 4076 × 2306. `PlanWidthDriven`, `PlanHeightDriven`, `PlanClosedForm` and `AcceptedPlan` state the exact-arithmetic plan. The bounds of `Plan` (over 2880 and over 2304) are likewise stated in exact arithmetic.
  - In doubles the guard rejects the exact boundary ratios 1591:900 and 1609:900 (and their multiples), because `Math.abs(1591/900 - 16/9)` and `Math.abs(1609/900 - 16/9)` come out as 0.010000000000000009. `AspectAccepted` and `AspectAcceptedInIntegers` accept them.
- The promise and async scheduling are left out: each encoder call is answered before the next is made, so the search is modelled as a sequential loop.
- The rejection messages are not modelled as strings; they are the three `Error` cases. The catch at services/imageService.ts:92-94 passes the encoder's own error through, and the model calls that error EncodeFailed.
- The page's MIME check, React state and error display (App.tsx), the drag-and-drop upload (components/FileUpload.tsx) and the rendering with its floating-point byte formatting (components/ImageCard.tsx) are UI, and are not part of this model.
- DimensionPlanner.Plan: a picture with a zero side is excluded by a precondition, because the browser would divide by zero and get Infinity and NaN dimensions. `ResizeImage` handles that picture without a plan: it goes straight to the empty canvas.
- ImageService.ResizeImage: for a picture with a zero side, the model does not compute the NaN or Infinity canvas sizes. It also does not ask the encoder oracle: a canvas without pixels delivers no blob, whatever the quality.
