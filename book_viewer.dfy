/** The book viewer: the navigation cursor over the pages, the handlers that
    move it and report each move, and what the controls show for it. */
module Viewer {
  import opened Types
  import Model

  // ---------------------------------------------------------------------------
  // Navigation, as a specification

  /** The three ways the cursor is moved: the two buttons and an index tab. */
  datatype Command = Next | Prev | GoTo(index: int)

  /** The cursor, and every page number reported to the page-change callback
      so far, oldest first. */
  datatype Nav = Nav(currentPage: int, emitted: seq<int>)

  /** Positions of the cursor: a page, or `totalPages` for past the last page. */
  predicate InBook(totalPages: nat, page: int) {
    0 <= page <= totalPages
  }

  /** The page a handler moves to, or None when it silently does nothing. */
  function Target(totalPages: nat, currentPage: int, c: Command): (r: Option<int>)
    ensures c.Next? ==> (r.Some? <==> currentPage < totalPages)
    ensures c.Prev? ==> (r.Some? <==> currentPage > 0)
    ensures c.GoTo? ==> (r.Some? <==> InBook(totalPages, c.index))
    ensures r.Some? && c.Next? ==> r.value == currentPage + 1
    ensures r.Some? && c.Prev? ==> r.value == currentPage - 1
    ensures r.Some? && c.GoTo? ==> r.value == c.index
    ensures r.Some? && InBook(totalPages, currentPage) ==> InBook(totalPages, r.value)
  {
    match c
    case Next => if currentPage < totalPages then Some(currentPage + 1) else None
    case Prev => if currentPage > 0 then Some(currentPage - 1) else None
    case GoTo(index) => if index >= 0 && index <= totalPages then Some(index) else None
  }

  /** One handler call: either nothing happens, or the cursor moves and the new
      page is reported once. */
  function Step(totalPages: nat, s: Nav, c: Command): (r: Nav)
    ensures r == s || r.emitted == s.emitted + [r.currentPage]
    ensures r != s <==> Target(totalPages, s.currentPage, c).Some?
    ensures !c.GoTo? ==> (r.currentPage != s.currentPage <==> r.emitted != s.emitted)
    ensures Target(totalPages, s.currentPage, c).Some? ==>
              r.currentPage == Target(totalPages, s.currentPage, c).value
  {
    match Target(totalPages, s.currentPage, c)
    case None => s
    case Some(page) => Nav(page, s.emitted + [page])
  }

  /** A sequence of handler calls. */
  function Run(totalPages: nat, s: Nav, cs: seq<Command>): Nav
    decreases |cs|
  {
    if cs == [] then s else Run(totalPages, Step(totalPages, s, cs[0]), cs[1..])
  }

  /** The cursor is in the book, every reported page is in the book, and the
      last report names the current page. */
  predicate Consistent(totalPages: nat, s: Nav) {
    && InBook(totalPages, s.currentPage)
    && (forall k :: 0 <= k < |s.emitted| ==> InBook(totalPages, s.emitted[k]))
    && (s.emitted != [] ==> s.emitted[|s.emitted| - 1] == s.currentPage)
  }

  /** From a start inside the book, no sequence of next, previous and tab
      clicks takes the cursor out of it or reports a page outside it; the
      reports only grow, and the last one is always the current page. */
  lemma {:induction false} RunKeepsConsistent(totalPages: nat, s: Nav, cs: seq<Command>)
    requires Consistent(totalPages, s)
    ensures Consistent(totalPages, Run(totalPages, s, cs))
    ensures s.emitted <= Run(totalPages, s, cs).emitted
    decreases |cs|
  {
    if cs != [] {
      var t := Step(totalPages, s, cs[0]);
      assert Consistent(totalPages, t);
      RunKeepsConsistent(totalPages, t, cs[1..]);
    }
  }

  /** A freshly mounted viewer starts consistent exactly when its initial page
      lies in the book. */
  lemma InitialStateConsistent(totalPages: nat, initialPage: int)
    ensures Consistent(totalPages, Nav(initialPage, [])) <==> InBook(totalPages, initialPage)
  {
  }

  function Repeat(c: Command, k: nat): (cs: seq<Command>)
    ensures |cs| == k
  {
    seq(k, _ => c)
  }

  /** Pressing "previous" any number of times on the first page changes nothing. */
  lemma {:induction false} PrevOnFirstPageIsInert(totalPages: nat, emitted: seq<int>, k: nat)
    ensures Run(totalPages, Nav(0, emitted), Repeat(Prev, k)) == Nav(0, emitted)
  {
    if k > 0 {
      assert Repeat(Prev, k)[1..] == Repeat(Prev, k - 1);
      PrevOnFirstPageIsInert(totalPages, emitted, k - 1);
    }
  }

  /** Pressing "next" any number of times past the last page changes nothing. */
  lemma {:induction false} NextAtEndIsInert(totalPages: nat, emitted: seq<int>, k: nat)
    ensures Run(totalPages, Nav(totalPages, emitted), Repeat(Next, k)) == Nav(totalPages, emitted)
  {
    if k > 0 {
      assert Repeat(Next, k)[1..] == Repeat(Next, k - 1);
      NextAtEndIsInert(totalPages, emitted, k - 1);
    }
  }

  /** "Previous" undoes "next" wherever "next" acts; both moves are reported. */
  lemma NextThenPrev(totalPages: nat, s: Nav)
    requires 0 <= s.currentPage < totalPages
    ensures Step(totalPages, Step(totalPages, s, Next), Prev)
            == Nav(s.currentPage, s.emitted + [s.currentPage + 1, s.currentPage])
  {
  }

  /** "Next" undoes "previous" wherever "previous" acts; both moves are reported. */
  lemma PrevThenNext(totalPages: nat, s: Nav)
    requires 0 < s.currentPage <= totalPages
    ensures Step(totalPages, Step(totalPages, s, Prev), Next)
            == Nav(s.currentPage, s.emitted + [s.currentPage - 1, s.currentPage])
  {
  }

  /** An index tab always moves the cursor to its page and reports it. */
  lemma TabClickNavigates(totalPages: nat, s: Nav, index: int)
    requires 0 <= index < totalPages
    ensures Step(totalPages, s, GoTo(index)) == Nav(index, s.emitted + [index])
  {
  }

  /** The tab of the current page is not a no-op: it leaves the cursor where it
      is and still reports the page. */
  lemma GoToCurrentPageEmitsWithoutMoving(totalPages: nat, s: Nav)
    requires InBook(totalPages, s.currentPage)
    ensures Step(totalPages, s, GoTo(s.currentPage)).currentPage == s.currentPage
    ensures Step(totalPages, s, GoTo(s.currentPage)).emitted == s.emitted + [s.currentPage]
  {
  }

  // ---------------------------------------------------------------------------
  // What the controls show

  /** The "current section" label: the page's title, "End" past the last page,
      and "Untitled" where the cursor names no page (a negative initial page). */
  function SectionLabel(pages: seq<PageContent>, currentPage: int): (caption: string)
    ensures currentPage >= |pages| ==> caption == "End"
    ensures 0 <= currentPage < |pages| ==> caption == pages[currentPage].title
    ensures currentPage < 0 ==> caption == "Untitled"
  {
    if currentPage < |pages| then
      if 0 <= currentPage then pages[currentPage].title else "Untitled"
    else
      "End"
  }

  /** Going one page forward from the last page shows "End", and coming back
      shows that page's title again. */
  lemma LabelAroundEnd(pages: seq<PageContent>, s: Nav)
    requires |pages| > 0 && s.currentPage == |pages| - 1
    ensures SectionLabel(pages, Step(|pages|, s, Next).currentPage) == "End"
    ensures SectionLabel(pages, Step(|pages|, Step(|pages|, s, Next), Prev).currentPage)
            == pages[|pages| - 1].title
  {
  }

  /** "Previous" is disabled on the first page: from a cursor that is not
      negative, exactly when no page lies in the left-hand stack. */
  function PrevDisabled(currentPage: int): (disabled: bool)
    ensures currentPage >= 0 ==> (disabled <==> !Model.IsFlipped(0, currentPage))
  {
    currentPage == 0
  }

  /** "Next" is disabled past the last page: inside the book, exactly when
      every page lies in the left-hand stack. */
  function NextDisabled(totalPages: nat, currentPage: int): (disabled: bool)
    ensures InBook(totalPages, currentPage) ==>
              (disabled <==> totalPages == 0 || Model.IsFlipped(totalPages - 1, currentPage))
  {
    currentPage == totalPages
  }

  /** Inside the book, a button is disabled exactly when its handler would do nothing. */
  lemma DisabledExactlyWhenInert(totalPages: nat, currentPage: int)
    requires InBook(totalPages, currentPage)
    ensures PrevDisabled(currentPage) <==> Target(totalPages, currentPage, Prev) == None
    ensures NextDisabled(totalPages, currentPage) <==> Target(totalPages, currentPage, Next) == None
  {
  }

  /** An initial page beyond the end is not clamped: "next" is then enabled yet
      does nothing, and "previous" reports a page that does not exist. */
  lemma StartBeyondEnd(totalPages: nat, currentPage: int)
    requires currentPage > totalPages
    ensures !NextDisabled(totalPages, currentPage)
    ensures Target(totalPages, currentPage, Next) == None
    ensures Target(totalPages, currentPage, Prev) == Some(currentPage - 1)
    ensures !InBook(totalPages, currentPage - 1) || currentPage - 1 == totalPages
  {
  }

  /** The text on a page's index tab: its label when one is given and not
      empty, its id otherwise. */
  function TabText(page: PageContent): (text: string)
    ensures page.tabLabel.Some? && page.tabLabel.value != "" ==> text == page.tabLabel.value
    ensures page.tabLabel == None || page.tabLabel == Some("") ==> text == page.id
  {
    match page.tabLabel
    case Some(tabLabel) => if tabLabel != "" then tabLabel else page.id
    case None => page.id
  }

  /** The active tab is the one of the page on top of the right-hand stack:
      unflipped now, and flipped by one more "next". */
  function TabActive(index: int, currentPage: int): (active: bool)
    ensures active <==> !Model.IsFlipped(index, currentPage) && Model.IsFlipped(index, currentPage + 1)
  {
    index == currentPage
  }

  function TabOpacity(index: int, currentPage: int): (opacity: real)
    ensures opacity == 1.0 || opacity == 0.6
  {
    if index <= currentPage then 1.0 else 0.6
  }

  function ActiveTabs(totalPages: nat, currentPage: int): set<int> {
    set i | 0 <= i < totalPages && TabActive(i, currentPage)
  }

  /** Exactly the current page's tab is active; past the last page, none is. */
  lemma ActiveTabIsCurrentPage(totalPages: nat, currentPage: int)
    requires InBook(totalPages, currentPage)
    ensures ActiveTabs(totalPages, currentPage) == if currentPage < totalPages then {currentPage} else {}
  {
  }

  /** A tab is fully opaque exactly when its page is flipped or current. */
  lemma OpaqueTabsAreFlippedOrCurrent(index: int, currentPage: int)
    ensures TabOpacity(index, currentPage) == 1.0
            <==> Model.IsFlipped(index, currentPage) || TabActive(index, currentPage)
  {
  }

  // ---------------------------------------------------------------------------
  // Page clicks, wired to the buttons' handlers

  /** The book's forward callback is the "next" handler, its backward callback
      the "previous" handler. */
  function CallbackCommand(cb: Model.Callback): (c: Command)
    ensures c == Next <==> cb == Model.FlipForward
    ensures c == Prev <==> cb == Model.FlipBackward
  {
    match cb
    case FlipForward => Next
    case FlipBackward => Prev
  }

  /** The effect of clicking the mesh of page `index`. */
  function PageClick(totalPages: nat, s: Nav, index: int): (r: Nav)
    ensures Model.IsFlipped(index, s.currentPage) ==> r == Step(totalPages, s, Prev)
    ensures !Model.IsFlipped(index, s.currentPage) ==> r == Step(totalPages, s, Next)
  {
    var click := Model.HandleClick(Model.IsFlipped(index, s.currentPage));
    Step(totalPages, s, CallbackCommand(click.callback))
  }

  /** Clicking any unflipped page turns exactly one page, the top one of the
      right-hand stack, whichever page was clicked. */
  lemma ClickUnflippedPageTurnsOnePage(totalPages: nat, s: Nav, index: int)
    requires InBook(totalPages, s.currentPage) && 0 <= index < totalPages
    requires !Model.IsFlipped(index, s.currentPage)
    ensures PageClick(totalPages, s, index) == Nav(s.currentPage + 1, s.emitted + [s.currentPage + 1])
    ensures Model.FlippedPages(totalPages, s.currentPage + 1)
            == Model.FlippedPages(totalPages, s.currentPage) + {s.currentPage}
  {
  }

  /** Clicking any flipped page turns back exactly one page, the top one of the
      left-hand stack, whichever page was clicked. */
  lemma ClickFlippedPageTurnsBackOnePage(totalPages: nat, s: Nav, index: int)
    requires InBook(totalPages, s.currentPage) && 0 <= index < totalPages
    requires Model.IsFlipped(index, s.currentPage)
    ensures PageClick(totalPages, s, index) == Nav(s.currentPage - 1, s.emitted + [s.currentPage - 1])
    ensures Model.FlippedPages(totalPages, s.currentPage - 1)
            == Model.FlippedPages(totalPages, s.currentPage) - {s.currentPage - 1}
  {
  }

  // ---------------------------------------------------------------------------
  // The stateful viewer

  /** A mounted viewer: its pages, its cursor, and the pages reported to the
      page-change callback. */
  class BookViewer {
    const pages: seq<PageContent>
    var currentPage: int
    var emitted: seq<int>

    function State(): Nav
      reads this
    {
      Nav(currentPage, emitted)
    }

    ghost predicate Valid()
      reads this
    {
      Consistent(|pages|, State())
    }

    /** The initial page is taken as given, without clamping. */
    constructor (pages: seq<PageContent>, initialPage: int)
      ensures this.pages == pages
      ensures State() == Nav(initialPage, [])
      ensures Valid() <==> InBook(|pages|, initialPage)
    {
      this.pages := pages;
      currentPage := initialPage;
      emitted := [];
    }

    method HandleNext()
      modifies this
      ensures State() == Step(|pages|, old(State()), Next)
      ensures old(Valid()) ==> Valid()
    {
      if currentPage < |pages| {
        var newPage := currentPage + 1;
        currentPage := newPage;
        emitted := emitted + [newPage];
      }
    }

    method HandlePrev()
      modifies this
      ensures State() == Step(|pages|, old(State()), Prev)
      ensures old(Valid()) ==> Valid()
    {
      if currentPage > 0 {
        var newPage := currentPage - 1;
        currentPage := newPage;
        emitted := emitted + [newPage];
      }
    }

    method GoToPage(index: int)
      modifies this
      ensures State() == Step(|pages|, old(State()), GoTo(index))
      ensures old(Valid()) ==> Valid()
    {
      if index >= 0 && index <= |pages| {
        currentPage := index;
        emitted := emitted + [index];
      }
    }
  }

  /** Three pages, starting on the first: next shows the second title, two more
      show "End", previous shows the last title again; the tab of the third
      page jumps there directly. */
  method ThreePageTour() {
    var pages := [
      PageContent("page1", "Page 1", None, None, Some("P1")),
      PageContent("page2", "Page 2", None, None, Some("P2")),
      PageContent("page3", "Page 3", None, None, Some("P3"))];
    var viewer := new BookViewer(pages, 0);
    assert SectionLabel(pages, viewer.currentPage) == "Page 1";
    assert PrevDisabled(viewer.currentPage);
    viewer.HandleNext();
    assert viewer.currentPage == 1;
    assert SectionLabel(pages, viewer.currentPage) == "Page 2";
    viewer.HandleNext();
    viewer.HandleNext();
    assert viewer.currentPage == 3;
    assert SectionLabel(pages, viewer.currentPage) == "End";
    assert NextDisabled(|pages|, viewer.currentPage);
    viewer.HandlePrev();
    assert viewer.currentPage == 2;
    assert SectionLabel(pages, viewer.currentPage) == "Page 3";
    assert viewer.emitted == [1, 2, 3, 2];

    var other := new BookViewer(pages, 0);
    other.GoToPage(2);
    assert other.currentPage == 2 && other.emitted == [2];
    assert SectionLabel(pages, other.currentPage) == "Page 3";
  }
}
