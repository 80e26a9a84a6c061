/**
 * The browser-side controller of the software list page (app/static/js/app.js).
 * Three variables of view state (list or grid view, current page, page size) are
 * changed by event handlers, and every reload is recorded as the request it issues
 * with the state of that moment. When a response arrives, two render steps rebuild
 * the card container and the page buttons of the pagination bar. The DOM is
 * abstracted to sequences of nodes: a card per item, and page buttons with their
 * number and highlight flag next to the per-page selector.
 */
module Client {
  import opened Arith

  // ---------------------------------------------------------------------------
  // Data (app/static/js/app.js:10-22)
  // ---------------------------------------------------------------------------

  /** The page sizes the per-page selector offers. */
  const PerPageOptions: set<int> := {6, 9, 12, 24}

  /** One software record of a response. */
  datatype Item = Item(name: string, version: string, category: string, size: string, relativePath: string)

  /** A rendered card: the item it shows, and whether it has the list-row layout or the grid-tile one. */
  datatype Card = Card(item: Item, listStyle: bool)

  /** The card container's layout: one column in list view, a grid with the selected column count otherwise. */
  datatype Layout = Column | Grid(columns: string)

  /** A child of the pagination bar: a numbered page button, or the per-page selector. */
  datatype PagerNode = PageButton(number: int, isCurrent: bool) | PerPageSelect

  /** The query a reload sends: page, page size, search text and category. */
  datatype Request = Request(page: int, perPage: int, search: string, category: string)

  /** The view state, with the current values of the search box and the two selectors. */
  datatype ViewState = ViewState(isListView: bool, currentPage: int, perPage: int,
                                 search: string, category: string, columns: string)

  /** What the user can do on the page. */
  datatype Event =
    | PerPageChanged(value: int)
    | CategoryChanged(category: string)
    | SearchInput(search: string)
    | SearchCleared
    | GridClicked
    | ListClicked
    | ColumnsChanged(columns: string)
    | PageClicked(page: int)

  // ---------------------------------------------------------------------------
  // Transitions (app/static/js/app.js:24-28, 86, 92-97)
  // ---------------------------------------------------------------------------

  /** Grid view, the first page, 9 per page. */
  function Initial(search: string, category: string, columns: string): (s: ViewState)
    ensures !s.isListView && s.currentPage == 1 && s.perPage == 9
    ensures s.search == search && s.category == category && s.columns == columns
  {
    ViewState(false, 1, 9, search, category, columns)
  }

  /** A page number of at least 1 and one of the offered page sizes. */
  predicate ValidState(s: ViewState) {
    s.currentPage >= 1 && s.perPage in PerPageOptions
  }

  /** The events the page can produce: a page size the selector offers, a page button's number. */
  predicate Possible(e: Event) {
    && (e.PerPageChanged? ==> e.value in PerPageOptions)
    && (e.PageClicked? ==> e.page >= 1)
  }

  /**
   * The state after a handler has run. Choosing a page size, a category or typing a
   * search goes back to the first page; clearing the search, switching the view and
   * changing the column count keep the page; a page button sets the page and nothing
   * else. The grid and list buttons set the view mode whatever it was.
   */
  function Step(s: ViewState, e: Event): (r: ViewState)
    ensures (e.PerPageChanged? || e.CategoryChanged? || e.SearchInput?) ==> r.currentPage == 1
    ensures (e.SearchCleared? || e.GridClicked? || e.ListClicked? || e.ColumnsChanged?) ==>
              r.currentPage == s.currentPage
    ensures e.PageClicked? ==> r == s.(currentPage := e.page)
    ensures e.GridClicked? ==> !r.isListView
    ensures e.ListClicked? ==> r.isListView
    ensures !e.GridClicked? && !e.ListClicked? ==> r.isListView == s.isListView
    ensures r.perPage == (if e.PerPageChanged? then e.value else s.perPage)
    ensures r.search == (if e.SearchInput? then e.search else if e.SearchCleared? then "" else s.search)
    ensures r.category == (if e.CategoryChanged? then e.category else s.category)
    ensures r.columns == (if e.ColumnsChanged? then e.columns else s.columns)
    ensures ValidState(s) && Possible(e) ==> ValidState(r)
  {
    match e
    case PerPageChanged(v) => s.(perPage := v, currentPage := 1)
    case CategoryChanged(c) => s.(category := c, currentPage := 1)
    case SearchInput(q) => s.(search := q, currentPage := 1)
    case SearchCleared => s.(search := "")
    case GridClicked => s.(isListView := false)
    case ListClicked => s.(isListView := true)
    case ColumnsChanged(c) => s.(columns := c)
    case PageClicked(i) => s.(currentPage := i)
  }

  /** Every handler reloads, except a column change in list view. */
  predicate Reloads(s: ViewState, e: Event) {
    !(e.ColumnsChanged? && s.isListView)
  }

  /** The request `loadSoftwares` sends from a state. */
  function RequestOf(s: ViewState): (q: Request)
    ensures q.page == s.currentPage && q.perPage == s.perPage
    ensures q.search == s.search && q.category == s.category
  {
    Request(s.currentPage, s.perPage, s.search, s.category)
  }

  // ---------------------------------------------------------------------------
  // Page buttons (app/static/js/app.js:78-88)
  // ---------------------------------------------------------------------------

  /** `Math.ceil(a / b)` for a positive `b`, on exact integers. */
  function CeilDiv(a: int, b: int): (r: int)
    requires b > 0
    ensures (r - 1) * b < a <= r * b
    ensures a <= 0 ==> r <= 0
    ensures a > 0 ==> r >= 1
  {
    var r := (a + b - 1) / b;
    assert (r - 1) * b == r * b - b;
    ProductBounds(r - 1, b);
    ProductBounds(r, b);
    r
  }

  /** The buttons for pages 1 to `n`, the one numbered `page` highlighted. */
  function Buttons(n: int, page: int): (bs: seq<PagerNode>)
    ensures |bs| == if n > 0 then n else 0
    ensures forall k :: 0 <= k < |bs| ==> bs[k] == PageButton(k + 1, k + 1 == page)
    decreases n
  {
    if n <= 0 then [] else Buttons(n - 1, page) + [PageButton(n, n == page)]
  }

  /** The buttons `renderPagination(total, page, perPage)` creates, in order. */
  function PageButtons(total: int, page: int, perPage: int): seq<PagerNode>
    requires perPage > 0
  {
    Buttons(CeilDiv(total, perPage), page)
  }

  /**
   * As many buttons as pages, `ceil(total / perPage)`, numbered 1, 2, ... in order, so
   * none at all when there are no rows.
   */
  lemma PageButtonsSpec(total: int, page: int, perPage: int)
    requires perPage > 0
    ensures var bs := PageButtons(total, page, perPage);
            && (total > 0 ==> |bs| == CeilDiv(total, perPage) && (|bs| - 1) * perPage < total <= |bs| * perPage)
            && (total <= 0 ==> bs == [])
            && (forall k :: 0 <= k < |bs| ==> bs[k].PageButton? && bs[k].number == k + 1)
  {
  }

  /**
   * At most one button is highlighted; one is exactly when `page` is among the numbers,
   * and its number is `page`.
   */
  lemma SingleHighlight(n: int, page: int)
    ensures var bs := Buttons(n, page);
            && (forall i, j :: 0 <= i < j < |bs| ==> !(bs[i].isCurrent && bs[j].isCurrent))
            && (forall k :: 0 <= k < |bs| && bs[k].isCurrent ==> bs[k].number == page)
            && ((exists k :: 0 <= k < |bs| && bs[k].isCurrent) <==> 1 <= page <= n)
  {
    if 1 <= page <= n {
      assert Buttons(n, page)[page - 1].isCurrent;
    }
  }

  /** 25 rows at 9 per page, on page 2: three buttons, the second one highlighted. */
  lemma PageButtonsExample()
    ensures PageButtons(25, 2, 9) == [PageButton(1, false), PageButton(2, true), PageButton(3, false)]
  {
    assert CeilDiv(25, 9) == 3;
  }

  /** The nodes of `p` that are page buttons (`buttons`) or that are not (`!buttons`), in order. */
  function OfKind(p: seq<PagerNode>, buttons: bool): (r: seq<PagerNode>)
    ensures forall x :: x in r <==> x in p && x.PageButton? == buttons
    decreases |p|
  {
    if |p| == 0 then []
    else
      var last := p[|p| - 1];
      assert forall x :: x in p <==> x in p[..|p| - 1] || x == last by {
        assert p == p[..|p| - 1] + [last];
      }
      OfKind(p[..|p| - 1], buttons) + (if last.PageButton? == buttons then [last] else [])
  }

  lemma {:induction false} OfKindConcat(a: seq<PagerNode>, b: seq<PagerNode>, buttons: bool)
    ensures OfKind(a + b, buttons) == OfKind(a, buttons) + OfKind(b, buttons)
    decreases |b|
  {
    if |b| == 0 {
      assert a + b == a;
    } else {
      assert (a + b)[..|a + b| - 1] == a + b[..|b| - 1];
      OfKindConcat(a, b[..|b| - 1], buttons);
    }
  }

  lemma {:induction false} OfKindAll(p: seq<PagerNode>, buttons: bool)
    requires forall k :: 0 <= k < |p| ==> p[k].PageButton? == buttons
    ensures OfKind(p, buttons) == p
    ensures OfKind(p, !buttons) == []
    decreases |p|
  {
    if |p| > 0 {
      var init, last := p[..|p| - 1], p[|p| - 1];
      assert forall k :: 0 <= k < |init| ==> init[k] == p[k];
      OfKindAll(init, buttons);
      assert last.PageButton? == buttons;
      assert OfKind(p, buttons) == OfKind(init, buttons) + [last];
      assert OfKind(p, !buttons) == OfKind(init, !buttons);
      assert p == init + [last];
    }
  }

  /** The position of the (first) per-page selector. */
  function SelectorIndex(p: seq<PagerNode>): (r: nat)
    requires PerPageSelect in p
    ensures r < |p| && p[r] == PerPageSelect
    ensures forall k :: 0 <= k < r ==> p[k] != PerPageSelect
    decreases |p|
  {
    if p[0] == PerPageSelect then 0 else 1 + SelectorIndex(p[1..])
  }

  lemma SelectorIndexUnique(p: seq<PagerNode>, r: nat)
    requires r < |p| && p[r] == PerPageSelect
    requires forall k :: 0 <= k < r ==> p[k] != PerPageSelect
    ensures SelectorIndex(p) == r
  {
  }

  /** `bs` inserted just before the per-page selector. */
  function Place(base: seq<PagerNode>, bs: seq<PagerNode>): seq<PagerNode>
    requires PerPageSelect in base
  {
    var s := SelectorIndex(base);
    base[..s] + bs + base[s..]
  }

  /** Placing adds exactly the new nodes, and the selector follows them. */
  lemma PlaceContents(base: seq<PagerNode>, bs: seq<PagerNode>)
    requires PerPageSelect in base
    ensures |Place(base, bs)| == |base| + |bs|
    ensures multiset(Place(base, bs)) == multiset(base) + multiset(bs)
    ensures Place(base, bs)[SelectorIndex(base) + |bs|] == PerPageSelect
  {
    var s := SelectorIndex(base);
    var pre, post := base[..s], base[s..];
    assert base == pre + post;
    assert Place(base, bs) == pre + bs + post;
    assert multiset(pre + bs + post) == multiset(pre) + multiset(bs) + multiset(post);
    assert multiset(base) == multiset(pre) + multiset(post);
    assert (pre + bs + post)[|pre| + |bs|] == post[0];
  }

  /** Inserting one more button before the selector appends it to the buttons already there. */
  lemma PlaceAppend(base: seq<PagerNode>, bs: seq<PagerNode>, b: PagerNode)
    requires PerPageSelect in base
    requires forall k :: 0 <= k < |bs| ==> bs[k].PageButton?
    ensures var p := Place(base, bs);
            PerPageSelect in p &&
            var s := SelectorIndex(p);
            p[..s] + [b] + p[s..] == Place(base, bs + [b])
  {
    var s0 := SelectorIndex(base);
    var pre, post := base[..s0], base[s0..];
    assert forall k :: 0 <= k < |pre| ==> pre[k] != PerPageSelect;
    SelectorAfter(pre, bs, post);
    var p := pre + bs + post;
    assert p[..|pre| + |bs|] == pre + bs;
    assert p[|pre| + |bs|..] == post;
  }

  /** The selector of `pre + bs + post` is the head of `post` when `pre` and `bs` hold none. */
  lemma SelectorAfter(pre: seq<PagerNode>, bs: seq<PagerNode>, post: seq<PagerNode>)
    requires forall k :: 0 <= k < |pre| ==> pre[k] != PerPageSelect
    requires forall k :: 0 <= k < |bs| ==> bs[k].PageButton?
    requires |post| > 0 && post[0] == PerPageSelect
    ensures PerPageSelect in pre + bs + post
    ensures SelectorIndex(pre + bs + post) == |pre| + |bs|
  {
    var p := pre + bs + post;
    assert p[|pre| + |bs|] == PerPageSelect;
    assert forall k :: 0 <= k < |pre| + |bs| ==> p[k] == (pre + bs)[k];
    SelectorIndexUnique(p, |pre| + |bs|);
  }

  /** The pagination bar after `renderPagination(total, page, perPage)`. */
  function Paginated(p: seq<PagerNode>, total: int, page: int, perPage: int): seq<PagerNode>
    requires perPage > 0 && PerPageSelect in p
  {
    Place(OfKind(p, false), PageButtons(total, page, perPage))
  }

  /**
   * Rendering keeps every node that is not a page button, the selector included and
   * in its order, and the page buttons afterwards are exactly the new ones.
   */
  lemma PaginatedSpec(p: seq<PagerNode>, total: int, page: int, perPage: int)
    requires perPage > 0 && PerPageSelect in p
    ensures PerPageSelect in Paginated(p, total, page, perPage)
    ensures OfKind(Paginated(p, total, page, perPage), false) == OfKind(p, false)
    ensures OfKind(Paginated(p, total, page, perPage), true) == PageButtons(total, page, perPage)
  {
    var base := OfKind(p, false);
    assert forall k :: 0 <= k < |base| ==> !base[k].PageButton? by {
      assert forall k :: 0 <= k < |base| ==> base[k] in base;
    }
    OfKindPlace(base, PageButtons(total, page, perPage));
  }

  /** Buttons placed among nodes that are not buttons can be told apart again. */
  lemma OfKindPlace(base: seq<PagerNode>, bs: seq<PagerNode>)
    requires PerPageSelect in base
    requires forall k :: 0 <= k < |base| ==> !base[k].PageButton?
    requires forall k :: 0 <= k < |bs| ==> bs[k].PageButton?
    ensures OfKind(Place(base, bs), false) == base
    ensures OfKind(Place(base, bs), true) == bs
  {
    var s := SelectorIndex(base);
    var front, back := base[..s], base[s..];
    assert base == front + back;
    OfKindAll(front, false);
    OfKindAll(back, false);
    OfKindAll(bs, true);
    OfKindConcat3(front, bs, back, false);
    OfKindConcat3(front, bs, back, true);
  }

  lemma OfKindConcat3(a: seq<PagerNode>, b: seq<PagerNode>, c: seq<PagerNode>, buttons: bool)
    ensures OfKind(a + b + c, buttons) == OfKind(a, buttons) + OfKind(b, buttons) + OfKind(c, buttons)
  {
    OfKindConcat(a + b, c, buttons);
    OfKindConcat(a, b, buttons);
  }

  /** Old buttons are removed first, so rendering twice with the same arguments changes nothing more. */
  lemma PaginatedIdempotent(p: seq<PagerNode>, total: int, page: int, perPage: int)
    requires perPage > 0 && PerPageSelect in p
    ensures PerPageSelect in Paginated(p, total, page, perPage)
    ensures var once := Paginated(p, total, page, perPage);
            Paginated(once, total, page, perPage) == once
  {
    PaginatedSpec(p, total, page, perPage);
  }

  // ---------------------------------------------------------------------------
  // Cards (app/static/js/app.js:41-75)
  // ---------------------------------------------------------------------------

  /** The container's layout: the column count matters only in grid view. */
  function LayoutFor(isListView: bool, columns: string): (l: Layout)
    ensures l.Column? <==> isListView
    ensures l.Grid? ==> l.columns == columns
  {
    if isListView then Column else Grid(columns)
  }

  // ---------------------------------------------------------------------------
  // The controller (app/static/js/app.js:10-100)
  // ---------------------------------------------------------------------------

  class ViewController {
    var isListView: bool
    var currentPage: int
    var perPage: int
    var search: string
    var category: string
    var columns: string
    /** The children of the pagination bar. */
    var pager: seq<PagerNode>
    /** The children of the card container, and its layout. */
    var cards: seq<Card>
    var layout: Layout
    /** Every request sent so far, oldest first. */
    var requests: seq<Request>

    function State(): ViewState
      reads this
    {
      ViewState(isListView, currentPage, perPage, search, category, columns)
    }

    /** A valid state, the selector in the bar, and every page button numbered 1 or more. */
    ghost predicate Valid()
      reads this
    {
      && ValidState(State())
      && PerPageSelect in pager
      && (forall k :: 0 <= k < |pager| && pager[k].PageButton? ==> pager[k].number >= 1)
    }

    /** What a handler for `e` does: the transition, a request when it reloads, and no rendering. */
    twostate predicate Handled(e: Event)
      reads this
    {
      && State() == Step(old(State()), e)
      && requests == old(requests) + (if Reloads(old(State()), e) then [RequestOf(State())] else [])
      && pager == old(pager) && cards == old(cards) && layout == old(layout)
    }

    /**
     * Page set-up: the initial state, the selector as the bar's only child, the
     * container as the markup leaves it, and the initial load sent.
     */
    constructor(search0: string, category0: string, columns0: string, layout0: Layout)
      ensures Valid()
      ensures State() == Initial(search0, category0, columns0)
      ensures pager == [PerPageSelect] && cards == [] && layout == layout0
      ensures requests == [RequestOf(State())]
    {
      isListView, currentPage, perPage := false, 1, 9;
      search, category, columns := search0, category0, columns0;
      pager, cards, layout := [PerPageSelect], [], layout0;
      requests := [RequestOf(Initial(search0, category0, columns0))];
    }

    /** `loadSoftwares()` up to the request: the query built from the current state. */
    method LoadSoftwares()
      modifies this
      ensures requests == old(requests) + [RequestOf(State())]
      ensures State() == old(State())
      ensures pager == old(pager) && cards == old(cards) && layout == old(layout)
    {
      requests := requests + [RequestOf(State())];
    }

    method ChangePerPage(value: int)
      requires Valid() && value in PerPageOptions
      modifies this
      ensures Valid() && Handled(PerPageChanged(value))
    {
      perPage := value;
      currentPage := 1;
      LoadSoftwares();
    }

    method ChangeCategory(value: string)
      requires Valid()
      modifies this
      ensures Valid() && Handled(CategoryChanged(value))
    {
      category := value;
      currentPage := 1;
      LoadSoftwares();
    }

    method InputSearch(value: string)
      requires Valid()
      modifies this
      ensures Valid() && Handled(SearchInput(value))
    {
      search := value;
      currentPage := 1;
      LoadSoftwares();
    }

    method ClearSearch()
      requires Valid()
      modifies this
      ensures Valid() && Handled(SearchCleared)
    {
      search := "";
      LoadSoftwares();
    }

    method ClickGrid()
      requires Valid()
      modifies this
      ensures Valid() && Handled(GridClicked)
    {
      isListView := false;
      LoadSoftwares();
    }

    method ClickList()
      requires Valid()
      modifies this
      ensures Valid() && Handled(ListClicked)
    {
      isListView := true;
      LoadSoftwares();
    }

    method ChangeColumns(value: string)
      requires Valid()
      modifies this
      ensures Valid() && Handled(ColumnsChanged(value))
    {
      columns := value;
      if !isListView {
        LoadSoftwares();
      }
    }

    /** The click handler of the button numbered `i`. */
    method ClickPage(i: int)
      requires Valid() && (PageButton(i, false) in pager || PageButton(i, true) in pager)
      modifies this
      ensures Valid() && Handled(PageClicked(i))
    {
      currentPage := i;
      LoadSoftwares();
    }

    /**
     * `renderSoftwares(list)`: the container emptied, its layout set from the view
     * mode, then one card per item in order, each in the view mode's style.
     */
    method RenderSoftwares(list: seq<Item>)
      modifies this
      ensures |cards| == |list|
      ensures forall k :: 0 <= k < |list| ==> cards[k] == Card(list[k], isListView)
      ensures layout == LayoutFor(isListView, columns)
      ensures State() == old(State()) && pager == old(pager) && requests == old(requests)
    {
      var shown: seq<Card> := [];
      var i := 0;
      while i < |list|
        invariant 0 <= i <= |list|
        invariant |shown| == i
        invariant forall k :: 0 <= k < i ==> shown[k] == Card(list[k], isListView)
      {
        shown := shown + [Card(list[i], isListView)];
        i := i + 1;
      }
      cards := shown;
      layout := LayoutFor(isListView, columns);
    }

    /**
     * `renderPagination(total, page, perPage)`: the old page buttons removed, then the
     * buttons 1 to `ceil(total / perPage)` inserted one by one before the selector.
     */
    method RenderPagination(total: int, page: int, perPage: int)
      requires Valid() && perPage > 0
      modifies this
      ensures Valid()
      ensures pager == Paginated(old(pager), total, page, perPage)
      ensures State() == old(State()) && cards == old(cards) && layout == old(layout)
      ensures requests == old(requests)
    {
      var kept := RemovePageButtons(pager);
      var bar := InsertPageButtons(kept, CeilDiv(total, perPage), page);
      PaginatedLabels(old(pager), total, page, perPage);
      pager := bar;
    }

    /** The handler of a response: the cards, then the page buttons, from the rows and the echoed page data. */
    method OnResponse(items: seq<Item>, total: int, page: int, perPage: int)
      requires Valid() && perPage > 0
      modifies this
      ensures Valid()
      ensures |cards| == |items| && forall k :: 0 <= k < |items| ==> cards[k] == Card(items[k], isListView)
      ensures layout == LayoutFor(isListView, columns)
      ensures pager == Paginated(old(pager), total, page, perPage)
      ensures State() == old(State()) && requests == old(requests)
    {
      RenderSoftwares(items);
      RenderPagination(total, page, perPage);
    }
  }

  /** The removal loop of `renderPagination`: every page button dropped, every other node kept in order. */
  method RemovePageButtons(p: seq<PagerNode>) returns (kept: seq<PagerNode>)
    ensures kept == OfKind(p, false)
  {
    kept := [];
    var j := 0;
    while j < |p|
      invariant 0 <= j <= |p|
      invariant kept == OfKind(p[..j], false)
    {
      assert p[..j + 1][..j] == p[..j];
      if !p[j].PageButton? {
        kept := kept + [p[j]];
      }
      j := j + 1;
    }
    assert p[..|p|] == p;
  }

  /** The insertion loop of `renderPagination`: buttons 1 to `n`, each put just before the selector. */
  method InsertPageButtons(kept: seq<PagerNode>, n: int, page: int) returns (bar: seq<PagerNode>)
    requires PerPageSelect in kept
    ensures bar == Place(kept, Buttons(n, page))
  {
    bar := kept;
    var i := 1;
    while i <= n
      invariant 1 <= i <= (if n > 0 then n + 1 else 1)
      invariant PerPageSelect in bar
      invariant bar == Place(kept, Buttons(i - 1, page))
    {
      PlaceAppend(kept, Buttons(i - 1, page), PageButton(i, i == page));
      var s := SelectorIndex(bar);
      bar := bar[..s] + [PageButton(i, i == page)] + bar[s..];
      i := i + 1;
    }
    assert Buttons(i - 1, page) == Buttons(n, page);
  }

  /** Every page button of a rendered bar is numbered 1 or more. */
  lemma PaginatedLabels(p: seq<PagerNode>, total: int, page: int, perPage: int)
    requires perPage > 0 && PerPageSelect in p
    ensures PerPageSelect in Paginated(p, total, page, perPage)
    ensures var q := Paginated(p, total, page, perPage);
            forall k :: 0 <= k < |q| && q[k].PageButton? ==> q[k].number >= 1
  {
    PaginatedSpec(p, total, page, perPage);
    var q := Paginated(p, total, page, perPage);
    forall k | 0 <= k < |q| && q[k].PageButton? ensures q[k].number >= 1 {
      assert q[k] in OfKind(q, true);
    }
  }
}
