# Folio page-flip book: a verified model of its navigation and flip logic

Folio shows a list of documentation pages as a 3D book. Almost all of it is
rendering, but two small state machines make its decisions, and this project
models both in Dafny and proves what they promise.

- **The navigation cursor of `BookViewer`** (module `Viewer`, `book_viewer.dfy`).
  `currentPage` ranges over `0..n`, where `n` is the number of pages and `n`
  itself means "past the last page". The "next" and "previous" buttons and the
  index tabs move it. Each handler silently ignores a move out of range and
  otherwise reports the new page to `onPageChange`. The class
  `Viewer.BookViewer` holds the cursor and a log of reported pages (`emitted`)
  that stands in for the callback. Its three handlers are proved against the
  specification function `Viewer.Step`, and the lemmas about `Step` and `Run`
  carry the properties. The section label, the disabled flags of the two
  buttons and the tab text, active state and opacity are functions of the
  cursor.
- **The per-page flip bookkeeping of `BookModel` / `Page3D`** (module `Model`,
  `book_model.dfy`). It covers:
  - which pages are flipped (`index < currentPage`);
  - the click dispatch to the forward or backward callback;
  - face page numbers;
  - the two stacking heights, computed exactly with `real`;
  - the edge-triggered half-way switch of the shown face, as the class
    `Model.Page3D` specified by `Model.FrameStep`;
  - the vertex loop that curls a page mesh, as the class `Model.PageGeometry`.
    Its cache of undeformed heights is filled lazily and never overwritten.
- `types.dfy` (module `Types`) holds the `PageContent` record.

The flip progress, which a spring animation drives in `BookModel.tsx`, is an
input here. The component reads it in two ways: the face switch reads the live
spring value on every frame, while the curl uses the value sampled when
`Page3D` last rendered, on every frame until it renders again. The model keeps
the two apart: `Model.Page3D.OnFrame` takes the live value, and
`Model.PageGeometry.BendFrame` takes the bend amount of the render-time sample. The two sines in the curl are function parameters:
`amount(progress)` is `sin(progress·π)·0.3`, and `curve(normalizedX)` is
`sin(normalizedX·π·0.8)`.

Some behaviours of the code are made explicit here:

- The initial page is not clamped. The range invariant therefore assumes a
  start inside the book (`Viewer.RunKeepsConsistent`, `Viewer.InitialStateConsistent`).
- A start beyond the end leaves "next" enabled but inert
  (`Viewer.StartBeyondEnd`).
- A negative start makes the label read "Untitled", because `pages[-1]` is
  undefined in the component.
- The tab of the current page is accepted by `goToPage`. It reports the page
  again without moving the cursor (`Viewer.GoToCurrentPageEmitsWithoutMoving`).
  So "reported exactly when the cursor changes" holds for "next" and
  "previous" only.
- From the first of three pages, "next" three times and then "previous"
  shows the third page's title: the cursor goes from 3 back to 2
  (`Viewer.ThreePageTour`).
- A page click moves the cursor by one page, not to the clicked page
  (`Viewer.ClickUnflippedPageTurnsOnePage`).

## Model

| member | source | states |
|---|---|---|
| `Viewer.Target` | src/components/BookViewer.tsx:38-67 | next is accepted iff the cursor is below n and moves to +1; prev is accepted iff it is above 0 and moves to −1; goToPage(i) is accepted iff 0 ≤ i ≤ n and moves to i; an accepted move from inside the book stays inside it |
| `Viewer.Step` | src/components/BookViewer.tsx:38-67 | a handler call either changes nothing or moves the cursor and appends exactly the new page to the callback log; it changes something iff the handler accepts, and then the cursor lands on the page `Target` names; for next/prev the log grows iff the cursor changes |
| `Viewer.BookViewer.constructor` | src/components/BookViewer.tsx:32-33 | the cursor starts at the initial page, unclamped, with nothing reported; the viewer is consistent iff the initial page lies in 0..n |
| `Viewer.BookViewer.HandleNext` | src/components/BookViewer.tsx:38-44 | the new cursor and log are `Step(n, old, Next)`; consistency is preserved |
| `Viewer.BookViewer.HandlePrev` | src/components/BookViewer.tsx:49-55 | the new cursor and log are `Step(n, old, Prev)`; consistency is preserved |
| `Viewer.BookViewer.GoToPage` | src/components/BookViewer.tsx:62-67 | the new cursor and log are `Step(n, old, GoTo(i))`; consistency is preserved |
| `Viewer.RunKeepsConsistent` | src/components/BookViewer.tsx:32-67 | from a start in 0..n, every sequence of next/prev/goToPage keeps the cursor in 0..n; only pages in 0..n are reported; the log only grows; its last entry is the current page |
| `Viewer.InitialStateConsistent` | src/components/BookViewer.tsx:32 | the mounted state is consistent exactly when the initial page is in 0..n, which is why the range invariant needs that start |
| `Viewer.PrevOnFirstPageIsInert` | src/components/BookViewer.tsx:49-55 | any number of "previous" presses on page 0 leave cursor and log unchanged |
| `Viewer.NextAtEndIsInert` | src/components/BookViewer.tsx:38-44 | any number of "next" presses at n leave cursor and log unchanged |
| `Viewer.NextThenPrev` | src/components/BookViewer.tsx:38-55 | below n, "next" then "previous" returns to the same page and reports the two pages passed through |
| `Viewer.PrevThenNext` | src/components/BookViewer.tsx:38-55 | above 0, "previous" then "next" returns to the same page and reports the two pages passed through |
| `Viewer.TabClickNavigates` | src/components/BookViewer.tsx:139-143 | the tab of any existing page always moves the cursor to that page and reports it |
| `Viewer.GoToCurrentPageEmitsWithoutMoving` | src/components/BookViewer.tsx:62-67 | goToPage with the current page keeps the cursor and still reports it once |
| `Viewer.PageClick` | src/components/BookViewer.tsx:91-96 | a click on a flipped page's mesh acts as the "previous" handler and a click on an unflipped one as the "next" handler |
| `Viewer.SectionLabel` | src/components/BookViewer.tsx:119-123 | the label is the current page's title below n, "End" at or past n, and "Untitled" when the cursor is negative |
| `Viewer.LabelAroundEnd` | src/components/BookViewer.tsx:119-123 | from the last page, "next" shows "End" and a following "previous" shows the last page's title again |
| `Viewer.PrevDisabled` | src/components/BookViewer.tsx:108 | from a cursor that is not negative, "Previous" is disabled exactly when no page is flipped |
| `Viewer.NextDisabled` | src/components/BookViewer.tsx:129 | inside the book, "Next" is disabled exactly when every page is flipped (or there are none) |
| `Viewer.DisabledExactlyWhenInert` | src/components/BookViewer.tsx:105-130 | inside the book, "Previous" is disabled iff the cursor is 0 iff prev is a no-op; "Next" is disabled iff the cursor is n iff next is a no-op |
| `Viewer.StartBeyondEnd` | src/components/BookViewer.tsx:32-55 | with an unclamped cursor beyond n, "Next" is enabled but does nothing, and "previous" moves to cursor−1 |
| `Viewer.TabText` | src/components/BookViewer.tsx:157 | the tab shows its label when the label is present and non-empty, and the page id otherwise |
| `Viewer.TabActive` | src/components/BookViewer.tsx:148 | a tab is active exactly when its page is unflipped and one more "next" would flip it, i.e. its page is on top of the right-hand stack |
| `Viewer.TabOpacity` | src/components/BookViewer.tsx:154 | a tab is either fully opaque (1) or faded (0.6) |
| `Viewer.ActiveTabIsCurrentPage` | src/components/BookViewer.tsx:148-151 | inside the book, exactly the current page's tab is active; at n no tab is |
| `Viewer.OpaqueTabsAreFlippedOrCurrent` | src/components/BookViewer.tsx:154 | a tab is fully opaque iff its page is flipped or is the current page |
| `Viewer.CallbackCommand` | src/components/BookViewer.tsx:91-96 | the book's forward callback is the "next" handler and its backward callback is the "previous" handler |
| `Viewer.ClickUnflippedPageTurnsOnePage` | src/components/BookModel.tsx:162-171 | clicking any unflipped page advances the cursor by exactly one and reports it; the flipped set gains only the page at the old cursor |
| `Viewer.ClickFlippedPageTurnsBackOnePage` | src/components/BookModel.tsx:162-171 | clicking any flipped page moves the cursor back by exactly one and reports it; the flipped set loses only the page just before the old cursor |
| `Model.IsFlipped` | src/components/BookModel.tsx:310 | a page with a non-negative index is flipped exactly when it is one of pages 0..currentPage−1 |
| `Model.FlippedPagesArePrefix` | src/components/BookModel.tsx:305-311 | the flipped pages are exactly pages 0..min(currentPage, n)−1, and there are min(currentPage, n) of them (none for a negative cursor) |
| `Model.HandleClick` | src/components/BookModel.tsx:162-171 | a page click always stops propagation and calls exactly one callback: backward iff the page is flipped, forward iff it is not |
| `Model.ContentClick` | src/components/BookModel.tsx:194-226 | in reading mode the content overlay has no click handler; otherwise the front turns forward and the back turns backward |
| `Model.MountedContentClickIsInert` | src/components/BookModel.tsx:288 | with the reading mode left at its default, as `BookViewer` mounts the book (BookViewer.tsx:92-97), a click on the content of either face does nothing |
| `Model.FrontPageNumber` | src/components/BookModel.tsx:203 | front numbers are odd and start at 1 |
| `Model.BackPageNumber` | src/components/BookModel.tsx:223 | back numbers are even and follow the front number by one |
| `Model.PageNumbersCoverRange` | src/components/BookModel.tsx:203-223 | the face numbers of an n-page book are exactly 1..2n, and there are 2n distinct ones |
| `Model.PageNumbersDistinct` | src/components/BookModel.tsx:203-223 | no front number equals a back number, and distinct pages have distinct numbers |
| `Model.RightSideZ` | src/components/BookModel.tsx:101-105 | an unflipped page's height is positive and above the back cover |
| `Model.RightStackDescends` | src/components/BookModel.tsx:103-105 | the right-stack height strictly decreases with the index, so page 0 is on top |
| `Model.LeftSideZ` | src/components/BookModel.tsx:107-110 | a flipped page's height is above the front cover's height |
| `Model.LeftStackAscends` | src/components/BookModel.tsx:107-110 | the left-stack height strictly increases with the index, so the page flipped last is on top |
| `Model.CoverZ` | src/components/BookModel.tsx:252 | the front cover sits at the spine radius and the back cover below zero |
| `Model.FrameStep` | src/components/BookModel.tsx:131-140 | after a frame, the last-acted side equals `progress > 0.5`; without a crossing nothing changes; with a crossing all three flags are set to the new side |
| `Model.FrameStepIdempotent` | src/components/BookModel.tsx:133-139 | two frames at the same progress have the effect of one |
| `Model.FrameStepKeepsSynced` | src/components/BookModel.tsx:126-139 | the three flags stay equal to each other across a frame |
| `Model.VisibleFace` | src/components/BookModel.tsx:194-209 | while the flags agree, the rendered face is the back exactly when the frame callback last acted on the back side |
| `Model.ZPos` | src/components/BookModel.tsx:143 | the page is drawn at one of its two stack heights, and an existing page is always above the cover of the side it lies on |
| `Model.ZPosFollowsFace` | src/components/BookModel.tsx:142-143 | with equal flags, the page uses the left-stack height when it shows its back and the right-stack height when it shows its front |
| `Model.FramesSettle` | src/components/BookModel.tsx:131-140 | after any non-empty run of frames from equal flags, all three flags equal `last progress > 0.5` |
| `Model.NoSwitchOnOneSide` | src/components/BookModel.tsx:135 | frames that stay on the last-acted side update nothing |
| `Model.ForwardTurnSwitchesOnce` | src/components/BookModel.tsx:131-140 | a forward turn with non-decreasing progress, starting on the front, updates the flags once if it passes half-way and never otherwise |
| `Model.BackwardTurnSwitchesOnce` | src/components/BookModel.tsx:131-140 | a backward turn with non-increasing progress, starting on the back, updates the flags once if it falls to half-way and never otherwise |
| `Model.Page3D.constructor` | src/components/BookModel.tsx:126-128 | on mount, all three flags equal the page's flipped flag |
| `Model.Page3D.Rerender` | src/components/BookModel.tsx:88-97 | a new flipped flag from the parent replaces the prop; the hook state is left as it was |
| `Model.Page3D.OnFrame` | src/components/BookModel.tsx:131-140 | the flags after the frame callback are `FrameStep(old flags, progress)`; equal flags stay equal |
| `Model.Bend` | src/components/BookModel.tsx:62-65 | a vertex is not displaced when the bend amount is zero, nor at the spine where the curve is zero |
| `Model.FillCache` | src/components/BookModel.tsx:67-74 | an existing cache entry is never overwritten; every vertex gets an entry; a new entry holds the vertex's height before the frame; no other keys appear |
| `Model.FillCacheExtend` | src/components/BookModel.tsx:71-73 | caching vertex i fills its slot only if the slot was empty |
| `Model.CacheSettles` | src/components/BookModel.tsx:71-73 | once every vertex is cached, later frames leave the cache unchanged whatever the heights are then |
| `Model.NoAccumulation` | src/components/BookModel.tsx:59-77 | the heights after a second frame depend only on the heights before the first frame and the second frame's bend, so displacement does not accumulate |
| `Model.FlatAtRest` | src/components/BookModel.tsx:56-77 | a first frame with zero bend amount leaves the heights as they were |
| `Model.FrozenBendIsStable` | src/components/BookModel.tsx:48-77 | frames between two renders reuse one sampled bend amount: a second frame leaves the cache and the heights exactly as the first left them, so the page holds that curl |
| `Model.PageGeometry.constructor` | src/components/BookModel.tsx:149-159 | a new mesh holds the given vertex coordinates and an empty cache |
| `Model.PageGeometry.BendFrame` | src/components/BookModel.tsx:44-80 | after a frame the cache is `FillCache(old cache, old heights)` and covers every vertex; each height is its cached original plus the curve at its normalised x times the bend amount; x is untouched |
| `Model.PageGeometry.BendVertex` | src/components/BookModel.tsx:59-77 | one pass of the vertex loop caches vertex i's height only if its slot is empty, then sets it to the cached height plus its bend; every other vertex is unchanged |

## Left out

- Scene construction is not modelled, because it is rendering through Three.js and react-three-fiber. This covers the canvas, camera, lights, meshes, materials, overlay placement and the shadow plane.
- Spring dynamics are not modelled: mass, tension, friction, clamping, and the rotation angle that the spring drives. The live flip progress is an input to `Model.Page3D.OnFrame`, and the bend amount of the render-time sample is an input to `Model.PageGeometry.BendFrame`.
- Model.PageGeometry.BendFrame: does not model when `Page3D` re-renders. `useBendGeometry` receives `flipProgress.get()` sampled at render time (BookModel.tsx:145), and its frame callback reuses that number until the next render. The half-way switch triggers a render (BookModel.tsx:137-138), so the sampled amount freezes near its largest value, and the page can stay curled after the spring settles until something else re-renders it. `Model.FrozenBendIsStable` states that a frozen amount holds its curl. `Model.FlatAtRest` only says that a zero amount is flat; it does not claim that a settled page is flat.
- The two sines of the curl are not modelled. They are the uninterpreted parameters `amount` and `curve`, so `Model.FlatAtRest` takes the zero bend amount as its hypothesis.
- Floating-point rounding is not modelled. Heights are exact reals, so `0.004` and `0.1` are the exact rationals rather than their nearest doubles.
- Only integer page numbers are modelled. A non-integer `number`, such as `goToPage(1.5)`, is outside the model.
- `BookCover` and `BookSpine` are left out because they are static decoration. Only the cover heights enter, through `Model.CoverZ`.
- The reading/explore mode toggle is left out because this version of `BookViewer` does not implement it. `BookModel` falls back to reading mode (`Model.DEFAULT_READING_MODE`), and `Model.ContentClick` takes the mode as a parameter.
- `cameraControls`, `ambientLight`, `showShadows`, `className`, the tab colours and all CSS strings are left out because they only feed rendering.
- `useBendGeometry` returns early when no mesh is mounted or it has no position attribute. Those two early returns do nothing and are not modelled.
- The lazily created cache array is modelled as a map that starts empty.
- The `?? 0` fallback after filling a slot can never be taken, so it is absent.
- The loop body is factored into `Model.PageGeometry.BendVertex` to keep each proof small.
- `Model.Page3D.OnFrame` updates the face flags immediately. In the component, `showBackContent` and `useLeftZ` are React state and take effect at the next render, while `lastShowBack` is a ref and changes at once.
- The pages array is fixed for the life of a `Viewer.BookViewer` (`const pages`). In the component, `currentPage` is React state and survives re-renders, while `totalPages` is recomputed from the `pages` prop at every render (BookViewer.tsx:32-33). If the parent shrinks `pages` below the cursor, the cursor lies outside 0..n. `Viewer.RunKeepsConsistent` holds only while the pages stay the same.
- `onPageChange` is optional. The log `emitted` records the calls that would be delivered when it is present.
- The front and back content of a page (React nodes) are not modelled, because no decision depends on them.
- The vertex layout that `PlaneGeometry` produces is not modelled: the mesh constructor takes the coordinates as given.
- src/main.tsx, src/index.ts, tests/setup.ts and vitest.config.ts are not part of this model. They hold sample content, re-exports, test mocks and tooling.
