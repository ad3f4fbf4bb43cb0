# ImageAreaSelectorView: the constrained selection rectangle

`ImageAreaSelectorView` is a UIKit view. It keeps a selection rectangle
inside its own bounds, and three kinds of input change that rectangle:

- a pinch scales the selection about its centre;
- a touch in the middle third of the selection moves it;
- a touch anywhere else drags a vertex.

Every handler computes a candidate rectangle. It commits the candidate only
when `isValidFrame` accepts it, meaning:

- all four vertices lie inside the container;
- the candidate is not both wider and taller than the container;
- it is not both narrower and shorter than 50.

This project models that engine in Dafny over exact reals and proves its
contracts. The model is organised in these modules:

- `Geometry`: points, sizes and rectangles. The accessors are standardized
  as CoreGraphics does. The module also holds the centre, `createRect`,
  `getFrameAfterScale`, `insetBy`/`contains` and the clamp.
- `Validation`: `isValidFrame` and its three checks.
- `Transforms`: `isInMoveMode`, `minScale`/`maxScale`, the pinch's branch
  order, the move clamp `getSelectAreaOriginPoint` and the resize anchor
  `getNearestVertex`.
- `AreaSelector`: the view's mutable fields as a `State`, and the four
  callbacks as pure step functions. Sequences of events run through `Run`.
- `Scenarios`: concrete runs in the 300 x 300 container that the demo
  controller creates.
- `Optional`: the `Option` type used for an absent touch.

The main result is `AreaSelector.RunPreservesInvariant`. Every sequence of
pinch and touch events keeps the committed selection valid and keeps its
stored size non-negative. A selection that starts with positive sides keeps
them too, so `minScale` never divides by zero on a reachable state.

## Behaviour the model follows from the code

Four behaviours of the code are easy to misread, and the model keeps each
of them as written.

- **The resize anchor is not frozen at touch-down.** `touchesMoved` looks up
  the nearest vertex again on every sample, from the current touch and the
  current frame (ImageAreaSelectorView.swift lines 118-120). `startPoint` is
  written at touch-down but never read. `Scenarios.ResizeAnchorFollowsTouch`
  shows one drag whose anchor moves from the top-left vertex to the
  top-right one. `AreaSelector.ResizeIgnoresStartPoint` shows that the
  touch-down point plays no part in a resize.
- **The oversize check never decides anything.** A rectangle wider than the
  container cannot fit inside it by being shifted: every frame that passes the vertex
  check is already no wider and no taller than the container
  (`Validation.OversizeCheckSubsumed`). So acceptance is exactly "corners
  inside, and one stored side of at least 50"
  (`Validation.IsValidFrameCharacterized`).
- **`minScale` brings both sides to at least 50, not just one.** It is the
  larger of the two per-axis ratios, so both scaled sides reach 50 and one
  equals it (`Transforms.MinScale`).
- **The move clamp's margins are not symmetric.** On the x axis the low bound
  is `lineWidth / 2` and the high bound is `W - (w + lineWidth)`. On the y
  axis the bounds are `0` and `H - (h + lineWidth)`.

The undersize check reads the stored `frame.size`. The other checks read the
standardized `width`, `minX` and so on. The model keeps that distinction.

## Model

| member | source | states |
|---|---|---|
| Geometry.Center | ImageAreaSelectorView/ImageAreaSelectorView.swift:156-160 | The centre is equally far from both vertical and both horizontal edges, and equals origin plus half the stored size whatever the sign of the size |
| Geometry.CreateRect | ImageAreaSelectorView/ImageAreaSelectorView.swift:207-212 | The spanned rectangle has a non-negative size and has the two points as diagonally opposite corners |
| Geometry.CreateRectSymmetric | ImageAreaSelectorView/ImageAreaSelectorView.swift:207-212 | Swapping the two points gives the same rectangle |
| Geometry.CreateRectUnique | ImageAreaSelectorView/ImageAreaSelectorView.swift:207-212 | Any standardized rectangle with the two points as opposite corners is the one `createRect` returns |
| Geometry.InsetBy | ImageAreaSelectorView/ImageAreaSelectorView.swift:150-152 | Insetting by at most half of each side moves the left and top edges in by dx and dy and shrinks the width by 2dx and the height by 2dy, keeping the centre and staying inside the original rectangle |
| Geometry.Contains | ImageAreaSelectorView/ImageAreaSelectorView.swift:153 | `contains` holds only for a rectangle with positive sides, and never for the right or bottom corners, which the half-open test excludes |
| Geometry.ScaleAround | ImageAreaSelectorView/ImageAreaSelectorView.swift:162-168 | The result has the size multiplied by the scale, and a non-negative size when scale and size are non-negative |
| Geometry.ScaleAroundIsCentred | ImageAreaSelectorView/ImageAreaSelectorView.swift:162-168 | The scaled rectangle is centred exactly on the given centre, for every scale and size |
| Geometry.ScaleAroundOwnCenterByOne | ImageAreaSelectorView/ImageAreaSelectorView.swift:156-168 | Scaling any rectangle by 1 about its own centre returns it unchanged, whatever the sign of its stored size |
| Geometry.ScaleAroundCompose | ImageAreaSelectorView/ImageAreaSelectorView.swift:162-168 | Scaling by s and then by t about the same centre equals scaling once by s*t |
| Geometry.ClampHighWins | ImageAreaSelectorView/ImageAreaSelectorView.swift:176-182 | `min(max(lo, v), hi)` never exceeds hi, is at least lo when the bounds do not cross, returns v when v is in range, and returns hi when the bounds cross |
| Geometry.ClampIsNearest | ImageAreaSelectorView/ImageAreaSelectorView.swift:176-182 | When the bounds do not cross, the clamped value is the point of [lo, hi] nearest to v |
| Validation.VertexOutOfBound | ImageAreaSelectorView/ImageAreaSelectorView.swift:224-233 | The min/max test reports "in bounds" exactly when all four corners lie in [0, W] x [0, H] |
| Validation.LargerThanViewSize | ImageAreaSelectorView/ImageAreaSelectorView.swift:235-239 | A frame wider and taller than the container always has a vertex outside it too |
| Validation.SmallerThanMinSize | ImageAreaSelectorView/ImageAreaSelectorView.swift:241-245 | The undersize check fires exactly when the longer of the two stored sides is below 50 |
| Validation.IsValidFrame | ImageAreaSelectorView/ImageAreaSelectorView.swift:215-222 | An accepted frame has every corner inside the container, fits in W x H, and has one side of at least 50 |
| Validation.IsValidFrameCharacterized | ImageAreaSelectorView/ImageAreaSelectorView.swift:215-245 | Acceptance holds if and only if all corners are inside the container and one stored side is at least 50 |
| Validation.OversizeCheckSubsumed | ImageAreaSelectorView/ImageAreaSelectorView.swift:224-239 | A frame that passes the vertex check is never reported as larger than the view |
| Validation.OversizeNeedsBothAxes | ImageAreaSelectorView/ImageAreaSelectorView.swift:235-239 | The oversize check fires only when width > W and height > H; exceeding one axis alone passes it |
| Validation.UndersizeNeedsBothAxes | ImageAreaSelectorView/ImageAreaSelectorView.swift:241-245 | The undersize check fires only when both stored sides are below 50; one short side alone passes it |
| Validation.ThinStripIsValid | ImageAreaSelectorView/ImageAreaSelectorView.swift:241-245 | A 10 x 300 strip in a 300 x 300 container is accepted |
| Transforms.InMoveMode | ImageAreaSelectorView/ImageAreaSelectorView.swift:149-154 | A touch starts a move exactly when it lies in the middle third of the frame on both axes; such a touch is inside the frame, and a frame with a zero side never starts a move |
| Transforms.MinScale | ImageAreaSelectorView/ImageAreaSelectorView.swift:33-37 | `minScale` is infinite exactly when a side is 0; otherwise it is positive, brings both sides to at least 50, and brings one of them to exactly 50 |
| Transforms.MaxScale | ImageAreaSelectorView/ImageAreaSelectorView.swift:247-251 | `maxScale` keeps both scaled sides within the container and makes one of them equal to the container's |
| Transforms.ChooseScale | ImageAreaSelectorView/ImageAreaSelectorView.swift:76-82 | The chosen scale is lo, hi or the gesture's factor; it lies in [lo, hi] when lo <= hi; it is lo at or below lo, hi at or above hi when the factor is above lo, and the factor strictly between |
| Transforms.ChooseScaleNotMonotoneWhenCrossed | ImageAreaSelectorView/ImageAreaSelectorView.swift:76-82 | When minScale exceeds maxScale, a larger pinch can yield a smaller scale |
| Transforms.SelectAreaOrigin | ImageAreaSelectorView/ImageAreaSelectorView.swift:170-185 | Per axis, with the asymmetric margins: the origin never passes the high bound and is at least the low bound when the bounds do not cross; it centres the selection on the touch when that is in range, is the low bound when the centred origin falls below it, and is the high bound when the centred origin exceeds it or the bounds cross |
| Transforms.Vertices | ImageAreaSelectorView/ImageAreaSelectorView.swift:188-193 | The four listed vertices are the frame's corners in TL, TR, BL, BR order when its size is non-negative |
| Transforms.DiagonalOpposites | ImageAreaSelectorView/ImageAreaSelectorView.swift:194 | The opposite list holds, at each index i, vertex 3 - i |
| Transforms.FirstNearestFrom | ImageAreaSelectorView/ImageAreaSelectorView.swift:196-199 | The `min(by:)` scan returns the first index of least Manhattan distance |
| Transforms.FirstNearestUnique | ImageAreaSelectorView/ImageAreaSelectorView.swift:196-199 | At most one index is the first nearest, so the scan's result is determined |
| Transforms.FirstIndexOf | ImageAreaSelectorView/ImageAreaSelectorView.swift:201 | `firstIndex(of:)` returns a position holding the point with no earlier occurrence |
| Transforms.NearestVertex | ImageAreaSelectorView/ImageAreaSelectorView.swift:187-205 | The anchor is the vertex listed opposite the first nearest vertex, and is one of the frame's corners |
| Transforms.NearestVertexIndex | ImageAreaSelectorView/ImageAreaSelectorView.swift:196-202 | The index found is the first nearest, and the anchor is the vertex opposite it |
| Transforms.NearestVertexIsOpposite | ImageAreaSelectorView/ImageAreaSelectorView.swift:187-205 | The nearest vertex and the anchor are diagonally opposite corners of the frame |
| Transforms.OppositeOfNearestIsFar | ImageAreaSelectorView/ImageAreaSelectorView.swift:187-205 | For any box, the vertex opposite one no farther than its row and column neighbours is at least half a side away from the touch on each axis |
| Transforms.AnchorFarFromTouch | ImageAreaSelectorView/ImageAreaSelectorView.swift:187-205 | The anchor is at least half the frame's width from the touch horizontally and half its height vertically |
| AreaSelector.Configure | ImageAreaSelectorView/ImageAreaSelectorView.swift:43-45 | A view starts at scale 1, not moving, with no touch seen; a first selection is accepted exactly when it is standardized, valid and has positive sides |
| AreaSelector.Commit | ImageAreaSelectorView/ImageAreaSelectorView.swift:87-89 | The frame becomes the candidate exactly when the candidate is valid (or already equal); nothing else changes |
| AreaSelector.PinchScale | ImageAreaSelectorView/ImageAreaSelectorView.swift:75-82 | The stored scale is infinite exactly when minScale is; otherwise it is minScale at or below it, maxScale at or above it, the gesture's factor in between, within [minScale, maxScale] when they do not cross, and positive on a valid frame |
| AreaSelector.ScaleStep | ImageAreaSelectorView/ImageAreaSelectorView.swift:75-90 | The `changed`/`ended` branch stores the chosen scale and commits the frame scaled about the old centre exactly when it is valid, keeping the invariant and positive sides |
| AreaSelector.Pinch | ImageAreaSelectorView/ImageAreaSelectorView.swift:71-96 | `began` and ignored phases change nothing; `cancelled`/`failed` reset the scale only; `changed`/`ended` commit the scaled frame when it is valid and otherwise keep the frame, with the centre kept; a zero side leaves the frame unchanged |
| AreaSelector.TouchesBegan | ImageAreaSelectorView/ImageAreaSelectorView.swift:99-104 | The touch is recorded and the mode is "move" exactly when it is in the middle third on both axes; the frame and scale do not change; no touch changes nothing |
| AreaSelector.MoveCandidate | ImageAreaSelectorView/ImageAreaSelectorView.swift:110-113 | The move candidate keeps the selection's size |
| AreaSelector.ResizeCandidate | ImageAreaSelectorView/ImageAreaSelectorView.swift:118-120 | The resize candidate is standardized and has the anchor and the touch as opposite corners |
| AreaSelector.ResizeKeepsHalf | ImageAreaSelectorView/ImageAreaSelectorView.swift:118-120 | A resize candidate keeps at least half of each side of the frame |
| AreaSelector.MoveStep | ImageAreaSelectorView/ImageAreaSelectorView.swift:109-116 | A move changes only the frame, keeps its size, and commits the clamped candidate exactly when it is valid |
| AreaSelector.ResizeStep | ImageAreaSelectorView/ImageAreaSelectorView.swift:117-125 | A resize changes only the frame, commits the candidate spanned by the anchor and the touch exactly when it is valid, and keeps positive sides |
| AreaSelector.TouchesMoved | ImageAreaSelectorView/ImageAreaSelectorView.swift:106-126 | No touch changes nothing; the frame changes only to a valid frame; a valid move or resize candidate is always committed; a move keeps the size; a resize commits a frame with the anchor and the touch as opposite corners |
| AreaSelector.TouchesEnded | ImageAreaSelectorView/ImageAreaSelectorView.swift:128-132 | Lifting reclassifies the mode from the lift point and changes nothing else |
| AreaSelector.Step | ImageAreaSelectorView/ImageAreaSelectorView.swift:71-132 | Every callback leaves the frame unchanged or replaces it with a valid one, and keeps the invariant and positive sides |
| AreaSelector.RunPreservesInvariant | ImageAreaSelectorView/ImageAreaSelectorView.swift:71-132 | Any sequence of events keeps the selection valid and standardized, and keeps positive sides if it started with them |
| AreaSelector.ReachableStatesAreValid | ImageAreaSelectorView/ImageAreaSelectorView.swift:33-37 | Every state reached from a configured view is valid and has a finite minScale |
| AreaSelector.MoveAlwaysCommits | ImageAreaSelectorView/ImageAreaSelectorView.swift:109-116 | From a valid state a move always commits, with the origin in [0, W - w] x [0, H - h], centred on the touch on each axis where that is in range, and pinned to 0 or to W - w (H - h) when dragged past that edge |
| AreaSelector.ResizeIgnoresStartPoint | ImageAreaSelectorView/ImageAreaSelectorView.swift:99-123 | The frame after a drag, move or resize, does not depend on the recorded touch-down point |
| Scenarios.MoveClampAtCorners | ImageAreaSelectorView/ImageAreaSelectorView.swift:170-185 | Dragging a 100 x 100 selection far past either corner pins it to that corner of the container |
| Scenarios.PinchThenMove | ImageAreaSelectorView/ImageAreaSelectorView.swift:71-116 | A 100 x 100 selection pinched by 2 grows to 200 x 200 about its centre; a central touch then moves it, clamped to the bottom-right corner |
| Scenarios.ResizeAnchorFollowsTouch | ImageAreaSelectorView/ImageAreaSelectorView.swift:117-123 | Within one drag, two samples use different anchors although the touch-down point is the same |
| Scenarios.RepeatedPinchCompounds | ImageAreaSelectorView/ImageAreaSelectorView.swift:75-90 | Two `changed` reports of factor 1.1 apply it twice to the current frame, giving side 121, not 110 |
| Scenarios.NarrowStripReachable | ImageAreaSelectorView/ImageAreaSelectorView.swift:241-245 | Two vertex drags turn a 100 x 100 selection into an accepted 25 x 100 strip |

## Left out

- Rendering and UIKit wiring are not modelled. This covers `maskBorderLayer`, `customMaskView`, the `didSet` observer, `setTargetImage` (a log line), `layoutSubviews` and `setupEvent`. They only draw or log the frame.
- `getPointInView` reads UIKit's predicted touches. The touch point is an input of each event instead. `touches.first` becomes an optional point.
- The `.zero` initial frame is not modelled. `Configure` starts from a given selection with positive sides, because `minScale` and `maxScale` divide by the selection's sides.
- Floating point is not modelled. Arithmetic is exact, with no rounding. The only IEEE effect modelled is `50 / 0`: it becomes `ScaleFactor.Unbounded`, a candidate that is never accepted. `Configure` and `ReachableStatesAreValid` show this case cannot arise from a configured view. NaN gesture scales are not modelled.
- The container is given by its size, used as stored. UIKit's `self.frame` has a non-negative size, so its standardization is not modelled.
- `ViewController.swift` only places the view at 300 x 300 in a window. It appears only as the container size of `Scenarios`.
- The unused field `selectAreaSize` is left out.
- Geometry.InsetBy: models only the case where the inset does not exceed half of each side. The null rectangle CoreGraphics returns otherwise is never produced at the one call site, which insets by a third.
- Geometry.Contains: taken half-open, including the left and top edges and excluding the right and bottom ones. CoreGraphics is not part of this model.
- Transforms.MaxScale: requires positive sides. With a zero side the pinch always takes the `minScale` branch first, so `maxScale` is never evaluated there.
- Transforms.NearestVertex: omits the `?? origin` and `return origin` fallbacks. The vertex list is never empty, and the minimum is always found in it.
- Transforms.FirstIndexOf: requires that the point occurs in the list, as it always does at the call site.
