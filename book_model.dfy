/** The book itself: which pages are turned, how a page click is dispatched,
    how pages are numbered and stacked, when a turning page swaps the face it
    shows, and how its mesh is curled while it turns. */
module Model {
  import opened Types

  const PAGE_WIDTH: real := 2.5
  const SPINE_RADIUS: real := 0.12
  /** Distance between two neighbouring pages of a stack. */
  const STACK_OFFSET: real := 0.004
  /** BookModel is mounted without an explicit reading mode, so it reads this default. */
  const DEFAULT_READING_MODE: bool := true

  // ---------------------------------------------------------------------------
  // Which pages are flipped

  /** A page lies on the left (flipped) side once the cursor has moved past it. */
  function IsFlipped(index: int, currentPage: int): (flipped: bool)
    ensures 0 <= index ==> (flipped <==> index in Range(0, currentPage))
  {
    InRange(0, currentPage, index);
    index < currentPage
  }

  function FlippedPages(totalPages: nat, currentPage: int): set<int> {
    set i | 0 <= i < totalPages && IsFlipped(i, currentPage)
  }

  /** The integers from lo up to, not including, hi. */
  function Range(lo: int, hi: int): set<int>
    decreases hi - lo
  {
    if hi <= lo then {} else Range(lo, hi - 1) + {hi - 1}
  }

  lemma {:induction false} InRange(lo: int, hi: int, i: int)
    ensures i in Range(lo, hi) <==> lo <= i < hi
    decreases hi - lo
  {
    if lo < hi {
      InRange(lo, hi - 1, i);
    }
  }

  lemma AllInRange(lo: int, hi: int)
    ensures forall i :: i in Range(lo, hi) <==> lo <= i < hi
  {
    forall i ensures i in Range(lo, hi) <==> lo <= i < hi {
      InRange(lo, hi, i);
    }
  }

  function Clamp(k: int, n: nat): (c: nat)
    ensures c <= n
    ensures 0 <= k <= n ==> c == k
  {
    if k < 0 then 0 else if k > n then n else k
  }

  lemma {:induction false} RangeSize(lo: int, hi: int)
    requires lo <= hi
    ensures |Range(lo, hi)| == hi - lo
    decreases hi - lo
  {
    if lo < hi {
      InRange(lo, hi - 1, hi - 1);
      RangeSize(lo, hi - 1);
    }
  }

  /** The flipped pages are exactly the first min(currentPage, totalPages) pages. */
  lemma FlippedPagesArePrefix(totalPages: nat, currentPage: int)
    ensures FlippedPages(totalPages, currentPage) == Range(0, Clamp(currentPage, totalPages))
    ensures |FlippedPages(totalPages, currentPage)| == Clamp(currentPage, totalPages)
  {
    AllInRange(0, Clamp(currentPage, totalPages));
    RangeSize(0, Clamp(currentPage, totalPages));
  }

  // ---------------------------------------------------------------------------
  // Click dispatch

  /** The two callbacks a page receives from the book. */
  datatype Callback = FlipForward | FlipBackward

  /** What a click on a page mesh does: whether the event stops there, and the
      one callback it calls. */
  datatype Click = Click(stopsPropagation: bool, callback: Callback)

  function HandleClick(isFlipped: bool): (c: Click)
    ensures c.stopsPropagation
    ensures c.callback == FlipBackward <==> isFlipped
    ensures c.callback == FlipForward <==> !isFlipped
  {
    Click(true, if isFlipped then FlipBackward else FlipForward)
  }

  datatype Face = Front | Back

  /** A click on the content overlay of the shown face: in reading mode the
      overlay has no handler; otherwise the front turns forward and the back
      turns backward. */
  function ContentClick(isReadingMode: bool, face: Face): (c: Option<Callback>)
    ensures c == None <==> isReadingMode
    ensures c == Some(FlipForward) <==> !isReadingMode && face == Front
    ensures c == Some(FlipBackward) <==> !isReadingMode && face == Back
  {
    if isReadingMode then None
    else match face
      case Front => Some(FlipForward)
      case Back => Some(FlipBackward)
  }

  /** As the viewer mounts the book, without a reading mode, clicking the
      content of either face does nothing; only the page mesh turns pages. */
  lemma MountedContentClickIsInert(face: Face)
    ensures ContentClick(DEFAULT_READING_MODE, face) == None
  {
  }

  // ---------------------------------------------------------------------------
  // Page numbers

  function FrontPageNumber(index: int): (k: int)
    ensures k % 2 == 1
    ensures 0 <= index ==> 1 <= k
  {
    index * 2 + 1
  }

  function BackPageNumber(index: int): (k: int)
    ensures k % 2 == 0
    ensures k == FrontPageNumber(index) + 1
  {
    index * 2 + 2
  }

  function PageNumbers(totalPages: nat): set<int> {
    (set i | 0 <= i < totalPages :: FrontPageNumber(i)) +
    (set i | 0 <= i < totalPages :: BackPageNumber(i))
  }

  /** The 2n face numbers of an n-page book are 1..2n, each used once. */
  lemma PageNumbersCoverRange(totalPages: nat)
    ensures PageNumbers(totalPages) == Range(1, 2 * totalPages + 1)
    ensures |PageNumbers(totalPages)| == 2 * totalPages
  {
    var numbers := PageNumbers(totalPages);
    forall k | 1 <= k < 2 * totalPages + 1
      ensures k in numbers
    {
      var i := (k - 1) / 2;
      if k % 2 == 1 {
        assert FrontPageNumber(i) == k;
      } else {
        assert BackPageNumber(i) == k;
      }
    }
    AllInRange(1, 2 * totalPages + 1);
    assert numbers == Range(1, 2 * totalPages + 1);
    RangeSize(1, 2 * totalPages + 1);
  }

  /** No two faces of a book carry the same number. */
  lemma PageNumbersDistinct(i: int, j: int)
    ensures FrontPageNumber(i) != BackPageNumber(j)
    ensures i != j ==> FrontPageNumber(i) != FrontPageNumber(j)
    ensures i != j ==> BackPageNumber(i) != BackPageNumber(j)
  {
  }

  // ---------------------------------------------------------------------------
  // Stacking heights

  /** Height of an unflipped page in the right-hand stack; page 0 is on top. */
  function RightSideZ(totalPages: int, index: int): (z: real)
    ensures index < totalPages ==> z > 0.0
    ensures index < totalPages ==> z > CoverZ(true)
  {
    (totalPages - index) as real * STACK_OFFSET
  }

  /** Height of a flipped page in the left-hand stack, above the open front cover;
      the page flipped last is on top. */
  function LeftSideZ(index: int): (z: real)
    ensures 0 <= index ==> z > CoverZ(false)
  {
    SPINE_RADIUS + 0.1 + index as real * STACK_OFFSET
  }

  /** Height of the front cover, or of the back cover. */
  function CoverZ(isBack: bool): (z: real)
    ensures isBack ==> z < 0.0
    ensures !isBack ==> z == SPINE_RADIUS
  {
    if isBack then -SPINE_RADIUS else SPINE_RADIUS
  }

  lemma RightStackDescends(totalPages: int, i: int, j: int)
    requires i < j
    ensures RightSideZ(totalPages, i) > RightSideZ(totalPages, j)
  {
  }

  lemma LeftStackAscends(i: int, j: int)
    requires i < j
    ensures LeftSideZ(i) < LeftSideZ(j)
  {
  }

  // ---------------------------------------------------------------------------
  // Switching the shown face at half-way

  /** The three per-page flags the frame callback keeps: the last side it
      acted on, which face is rendered, and which stack height is used. */
  datatype FaceState = FaceState(lastShowBack: bool, showBackContent: bool, useLeftZ: bool)

  predicate Synced(v: FaceState) {
    v.showBackContent == v.lastShowBack && v.useLeftZ == v.lastShowBack
  }

  predicate ShowsBack(progress: real) {
    progress > 0.5
  }

  /** True when the frame at `progress` crosses the half-way mark relative to
      the side last acted on. */
  predicate Crosses(v: FaceState, progress: real) {
    ShowsBack(progress) != v.lastShowBack
  }

  /** One frame of the edge-triggered switch. */
  function FrameStep(v: FaceState, progress: real): (r: FaceState)
    ensures r.lastShowBack == ShowsBack(progress)
    ensures !Crosses(v, progress) ==> r == v
    ensures Crosses(v, progress) ==> Synced(r) && r != v
  {
    var shouldShowBack := progress > 0.5;
    if shouldShowBack != v.lastShowBack then
      FaceState(shouldShowBack, shouldShowBack, shouldShowBack)
    else
      v
  }

  /** Two frames at the same progress act like one. */
  lemma FrameStepIdempotent(v: FaceState, progress: real)
    ensures FrameStep(FrameStep(v, progress), progress) == FrameStep(v, progress)
  {
  }

  lemma FrameStepKeepsSynced(v: FaceState, progress: real)
    requires Synced(v)
    ensures Synced(FrameStep(v, progress))
  {
  }

  /** The face whose content is rendered; while the flags agree, it is the
      side the frame callback last acted on. */
  function VisibleFace(v: FaceState): (face: Face)
    ensures Synced(v) ==> (face == Back <==> v.lastShowBack)
  {
    if v.showBackContent then Back else Front
  }

  /** The height the page is drawn at: one of its two stack heights, and for
      an existing page always above the cover of the side it lies on. */
  function ZPos(v: FaceState, index: int, totalPages: int): (z: real)
    ensures z == LeftSideZ(index) || z == RightSideZ(totalPages, index)
    ensures 0 <= index < totalPages && v.useLeftZ ==> z > CoverZ(false)
    ensures 0 <= index < totalPages && !v.useLeftZ ==> z > CoverZ(true)
  {
    if v.useLeftZ then LeftSideZ(index) else RightSideZ(totalPages, index)
  }

  /** While the flags agree, the page sits in the left stack exactly when it
      shows its back face. */
  lemma ZPosFollowsFace(v: FaceState, index: int, totalPages: int)
    requires Synced(v)
    ensures VisibleFace(v) == Back ==> ZPos(v, index, totalPages) == LeftSideZ(index)
    ensures VisibleFace(v) == Front ==> ZPos(v, index, totalPages) == RightSideZ(totalPages, index)
  {
  }

  /** The flags after a run of frames. */
  function Frames(v: FaceState, ps: seq<real>): FaceState
    decreases |ps|
  {
    if ps == [] then v else Frames(FrameStep(v, ps[0]), ps[1..])
  }

  /** How many of those frames update the flags. */
  function Switches(v: FaceState, ps: seq<real>): nat
    decreases |ps|
  {
    if ps == [] then 0
    else (if Crosses(v, ps[0]) then 1 else 0) + Switches(FrameStep(v, ps[0]), ps[1..])
  }

  /** After any non-empty run of frames from agreeing flags, the flags agree
      and show the side of the last frame's progress. */
  lemma {:induction false} FramesSettle(v: FaceState, ps: seq<real>)
    requires Synced(v) && ps != []
    ensures Frames(v, ps) == FaceState(ShowsBack(ps[|ps| - 1]), ShowsBack(ps[|ps| - 1]), ShowsBack(ps[|ps| - 1]))
    decreases |ps|
  {
    var w := FrameStep(v, ps[0]);
    if |ps| > 1 {
      FramesSettle(w, ps[1..]);
      assert ps[1..][|ps[1..]| - 1] == ps[|ps| - 1];
    }
  }

  predicate Ascending(ps: seq<real>) {
    forall i, j :: 0 <= i < j < |ps| ==> ps[i] <= ps[j]
  }

  predicate Descending(ps: seq<real>) {
    forall i, j :: 0 <= i < j < |ps| ==> ps[i] >= ps[j]
  }

  lemma {:induction false} NoSwitchOnOneSide(v: FaceState, ps: seq<real>)
    requires forall k :: 0 <= k < |ps| ==> ShowsBack(ps[k]) == v.lastShowBack
    ensures Switches(v, ps) == 0
    ensures Frames(v, ps) == v
    decreases |ps|
  {
    if ps != [] {
      NoSwitchOnOneSide(v, ps[1..]);
    }
  }

  /** A forward turn (progress never decreasing) from the front face updates
      the flags once if it passes half-way, and never otherwise. */
  lemma {:induction false} ForwardTurnSwitchesOnce(v: FaceState, ps: seq<real>)
    requires !v.lastShowBack && Ascending(ps) && ps != []
    ensures Switches(v, ps) == if ShowsBack(ps[|ps| - 1]) then 1 else 0
    decreases |ps|
  {
    var w := FrameStep(v, ps[0]);
    if ShowsBack(ps[0]) {
      NoSwitchOnOneSide(w, ps[1..]);
    } else if |ps| > 1 {
      ForwardTurnSwitchesOnce(w, ps[1..]);
      assert ps[1..][|ps[1..]| - 1] == ps[|ps| - 1];
    }
  }

  /** A backward turn (progress never increasing) from the back face updates
      the flags once if it falls to half-way or below, and never otherwise. */
  lemma {:induction false} BackwardTurnSwitchesOnce(v: FaceState, ps: seq<real>)
    requires v.lastShowBack && Descending(ps) && ps != []
    ensures Switches(v, ps) == if ShowsBack(ps[|ps| - 1]) then 0 else 1
    decreases |ps|
  {
    var w := FrameStep(v, ps[0]);
    if !ShowsBack(ps[0]) {
      NoSwitchOnOneSide(w, ps[1..]);
    } else if |ps| > 1 {
      BackwardTurnSwitchesOnce(w, ps[1..]);
      assert ps[1..][|ps[1..]| - 1] == ps[|ps| - 1];
    }
  }

  /** The per-page state of a mounted page: the flipped flag it receives from
      the book, and the face flags its frame callback updates. */
  class Page3D {
    const index: int
    const totalPages: int
    var isFlipped: bool
    var lastShowBack: bool
    var showBackContent: bool
    var useLeftZ: bool

    function Faces(): FaceState
      reads this
    {
      FaceState(lastShowBack, showBackContent, useLeftZ)
    }

    /** On mount, all three flags start from the flipped flag. */
    constructor (index: int, totalPages: int, isFlipped: bool)
      ensures this.index == index && this.totalPages == totalPages
      ensures this.isFlipped == isFlipped
      ensures Faces() == FaceState(isFlipped, isFlipped, isFlipped)
      ensures Synced(Faces())
    {
      this.index := index;
      this.totalPages := totalPages;
      this.isFlipped := isFlipped;
      lastShowBack := isFlipped;
      showBackContent := isFlipped;
      useLeftZ := isFlipped;
    }

    /** A re-render with a new flipped flag: the hook state is kept. */
    method Rerender(isFlipped: bool)
      modifies this`isFlipped
      ensures this.isFlipped == isFlipped
    {
      this.isFlipped := isFlipped;
    }

    /** The frame callback, given the spring's current flip progress. */
    method OnFrame(progress: real)
      modifies this`lastShowBack, this`showBackContent, this`useLeftZ
      ensures Faces() == FrameStep(old(Faces()), progress)
      ensures old(Synced(Faces())) ==> Synced(Faces())
    {
      var shouldShowBack := progress > 0.5;
      if shouldShowBack != lastShowBack {
        lastShowBack := shouldShowBack;
        showBackContent := shouldShowBack;
        useLeftZ := shouldShowBack;
      }
    }
  }

  // ---------------------------------------------------------------------------
  // Curling the page mesh

  /** Out-of-plane displacement of a vertex at `x`, given the bend amount of the
      frame and the curve along the page (a sine in the source). */
  /** The displacement of a vertex at `x`: none without a bend amount, and
      none at the spine, where the curve (a sine) is zero. */
  function Bend(x: real, bendAmount: real, curve: real -> real): (b: real)
    ensures bendAmount == 0.0 ==> b == 0.0
    ensures x == 0.0 && curve(0.0) == 0.0 ==> b == 0.0
  {
    curve(x / PAGE_WIDTH) * bendAmount
  }

  /** The cache of undeformed heights after a frame over vertex heights `zs`:
      every vertex without an entry gets the height it had before the frame. */
  function FillCache(cache: map<int, real>, zs: seq<real>): (c: map<int, real>)
    ensures forall i :: i in cache ==> i in c && c[i] == cache[i]
    ensures forall i :: 0 <= i < |zs| ==> i in c
    ensures forall i :: 0 <= i < |zs| && i !in cache ==> c[i] == zs[i]
    ensures forall i :: i in c ==> i in cache || 0 <= i < |zs|
  {
    AllInRange(0, |zs|);
    map i | i in cache.Keys + Range(0, |zs|) :: if i in cache then cache[i] else zs[i]
  }

  /** Caching one more vertex: the slot is filled only if it was empty. */
  lemma FillCacheExtend(cache: map<int, real>, zs: seq<real>, i: int)
    requires 0 <= i < |zs|
    ensures i in FillCache(cache, zs[..i]) <==> i in cache
    ensures FillCache(cache, zs[..i + 1]) ==
            if i in cache then FillCache(cache, zs[..i])
            else FillCache(cache, zs[..i])[i := zs[i]]
  {
  }

  /** Vertex heights after a frame: each cached height plus its bend. */
  function Bent(cache: map<int, real>, xs: seq<real>, bendAmount: real, curve: real -> real): seq<real>
    requires forall i :: 0 <= i < |xs| ==> i in cache
  {
    seq(|xs|, i requires 0 <= i < |xs| => cache[i] + Bend(xs[i], bendAmount, curve))
  }

  /** Once every vertex is cached, later frames leave the cache alone. */
  lemma CacheSettles(cache: map<int, real>, zs: seq<real>, later: seq<real>)
    requires |later| == |zs|
    ensures FillCache(FillCache(cache, zs), later) == FillCache(cache, zs)
  {
  }

  /** Curling does not accumulate: the heights after a second frame depend on
      the heights before the first frame and the second frame's bend only. */
  lemma NoAccumulation(cache: map<int, real>, xs: seq<real>, zs: seq<real>,
                       amount1: real, amount2: real, curve: real -> real)
    requires |xs| == |zs|
    ensures var c1 := FillCache(cache, zs);
            var z1 := Bent(c1, xs, amount1, curve);
            FillCache(c1, z1) == c1 &&
            Bent(FillCache(c1, z1), xs, amount2, curve) == Bent(c1, xs, amount2, curve)
  {
  }

  /** A first frame with no bend leaves a fresh page's heights as they were. */
  lemma FlatAtRest(xs: seq<real>, zs: seq<real>, curve: real -> real)
    requires |xs| == |zs|
    ensures Bent(FillCache(map[], zs), xs, 0.0, curve) == zs
  {
  }

  /** The bend amount is sampled when the page renders, and every frame until
      the next render reuses it: a second frame over the heights the first one
      left produces the same heights, so the page holds that curl. */
  lemma FrozenBendIsStable(cache: map<int, real>, xs: seq<real>, zs: seq<real>,
                           bendAmount: real, curve: real -> real)
    requires |xs| == |zs|
    ensures var c := FillCache(cache, zs);
            var first := Bent(c, xs, bendAmount, curve);
            FillCache(c, first) == c && Bent(FillCache(c, first), xs, bendAmount, curve) == first
  {
  }

  /** A page mesh: x and z coordinates of its vertices and the cache of their
      undeformed heights, which starts out empty. */
  class PageGeometry {
    const x: array<real>
    const z: array<real>
    var originalZ: map<int, real>

    ghost predicate Valid()
      reads this
    {
      x.Length == z.Length && x != z
    }

    constructor (xs: seq<real>, zs: seq<real>)
      requires |xs| == |zs|
      ensures Valid() && fresh(x) && fresh(z)
      ensures x[..] == xs && z[..] == zs && originalZ == map[]
    {
      x := new real[|xs|](i requires 0 <= i < |xs| => xs[i]);
      z := new real[|zs|](i requires 0 <= i < |zs| => zs[i]);
      originalZ := map[];
    }

    /** One frame of the curl: the bend amount comes from the flip progress
        (a sine of it in the source), the shape along the page from `curve`. */
    method BendFrame(flipProgress: real, amount: real -> real, curve: real -> real)
      requires Valid()
      modifies this`originalZ, z
      ensures Valid() && x[..] == old(x[..])
      ensures originalZ == FillCache(old(originalZ), old(z[..]))
      ensures forall i :: 0 <= i < x.Length ==> i in originalZ
      ensures z[..] == Bent(originalZ, x[..], amount(flipProgress), curve)
    {
      ghost var cache0, z0 := originalZ, z[..];
      ghost var filled := FillCache(cache0, z0);
      var bendAmount := amount(flipProgress);
      ghost var target := Bent(filled, x[..], bendAmount, curve);
      var i := 0;
      while i < z.Length
        invariant 0 <= i <= z.Length
        invariant originalZ == FillCache(cache0, z0[..i])
        invariant forall j :: 0 <= j < i ==> z[j] == target[j]
        invariant forall j :: i <= j < z.Length ==> z[j] == z0[j]
      {
        FillCacheExtend(cache0, z0, i);
        BendVertex(i, bendAmount, curve);
        assert originalZ[i] == filled[i];
        i := i + 1;
      }
      assert z0[..i] == z0;
      assert z[..] == target;
    }

    /** The body of the vertex loop for vertex i: cache its height if the slot
        is empty, then set it to the cached height plus its bend. */
    method BendVertex(i: int, bendAmount: real, curve: real -> real)
      requires Valid() && 0 <= i < z.Length
      modifies this`originalZ, z
      ensures originalZ == if i in old(originalZ) then old(originalZ) else old(originalZ)[i := old(z[i])]
      ensures z[i] == originalZ[i] + Bend(x[i], bendAmount, curve)
      ensures forall j :: 0 <= j < z.Length && j != i ==> z[j] == old(z[j])
    {
      var normalizedX := x[i] / PAGE_WIDTH;
      var bend := curve(normalizedX) * bendAmount;
      if i !in originalZ {
        originalZ := originalZ[i := z[i]];
      }
      z[i] := originalZ[i] + bend;
    }
  }
}
