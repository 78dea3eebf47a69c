/**
 * The page-link builder of the directory browser: class `Paginator` of
 * com/yoclabo/filesystem/item/Item.py.
 *
 * `create_list` appends links to a list in four layouts chosen by the
 * number of pages and the position of the current page, then
 * `mark_current` flags the links that point at the current page.  Each
 * builder is specified by a function on values (`Center`, `Layout`,
 * `Marked`, `PageList`); the lemmas state the shapes of the layouts.
 */
module Paginator {
  import opened Strings

  /** One pagination control: the page it leads to, its caption, and whether it is the current page. */
  datatype PageLink = PageLink(page: int, text: string, isCurrent: bool)

  const CaptionPrev: string := "Previous"
  const CaptionNext: string := "Next"
  const CaptionDot: string := "..."

  /** A freshly built link: `is_current` starts out false. */
  function Link(page: int, text: string): PageLink {
    PageLink(page, text, false)
  }

  /** A link captioned with its own page number. */
  function Numbered(p: int): PageLink {
    Link(p, IntToString(p))
  }

  /** `create_first_2`: page 1, then Previous. */
  function First2(prevPage: int): seq<PageLink> {
    [Link(1, "1"), Link(prevPage, CaptionPrev)]
  }

  /** `create_prev_dot`: an ellipsis three pages back. */
  function PrevDot(currentPage: int): seq<PageLink> {
    [Link(currentPage - 3, CaptionDot)]
  }

  /** `create_next_dot`: an ellipsis three pages on from its argument. */
  function NextDot(page: int): seq<PageLink> {
    [Link(page + 3, CaptionDot)]
  }

  /** `create_last_2`: Next, then the last page. */
  function Last2(nextPage: int, maxPage: int): seq<PageLink> {
    [Link(nextPage, CaptionNext), Numbered(maxPage)]
  }

  /** `create_center`'s links: one numbered link for each page of `range(start, end)`. */
  function Center(start: int, end: int): (r: seq<PageLink>)
    ensures |r| == if start < end then end - start else 0
    ensures forall k :: 0 <= k < |r| ==> r[k] == Numbered(start + k)
    decreases end - start
  {
    if start >= end then [] else [Numbered(start)] + Center(start + 1, end)
  }

  /** The links `create_list` appends, before `mark_current`, in each of its four branches. */
  function Layout(currentPage: int, prevPage: int, nextPage: int, maxPage: int): seq<PageLink> {
    if 9 > maxPage then
      First2(prevPage) + Center(2, maxPage) + Last2(nextPage, maxPage)
    else if 1 + 4 > currentPage then
      First2(prevPage) + Center(2, currentPage + 3) + NextDot(currentPage) + Last2(nextPage, maxPage)
    else if maxPage - 4 < currentPage then
      First2(prevPage) + PrevDot(currentPage) + Center(currentPage - 2, maxPage) + Last2(nextPage, maxPage)
    else
      First2(prevPage) + PrevDot(currentPage) + Center(currentPage - 2, currentPage + 3)
        + NextDot(nextPage) + Last2(nextPage, maxPage)
  }

  /** `mark_current`'s effect: a link pointing at the current page gets its flag set; no flag is cleared. */
  function Marked(links: seq<PageLink>, currentPage: int): (r: seq<PageLink>)
    ensures |r| == |links|
  {
    seq(|links|, i requires 0 <= i < |links| =>
      links[i].(isCurrent := links[i].isCurrent || links[i].page == currentPage))
  }

  /** The list `create_list` returns. */
  function PageList(currentPage: int, prevPage: int, nextPage: int, maxPage: int): seq<PageLink> {
    Marked(Layout(currentPage, prevPage, nextPage, maxPage), currentPage)
  }

  /** `create_center`: appends the numbered links of `range(start, end)`. */
  method CreateCenter(pages: seq<PageLink>, start: int, end: int) returns (r: seq<PageLink>)
    ensures r == pages + Center(start, end)
  {
    r := pages;
    var p := start;
    while p < end
      invariant start <= p && (start < end ==> p <= end) && (start >= end ==> p == start)
      invariant |r| == |pages| + (p - start)
      invariant r[..|pages|] == pages
      invariant forall i :: |pages| <= i < |r| ==> r[i] == Numbered(start + i - |pages|)
    {
      r := r + [Numbered(p)];
      p := p + 1;
    }
    ghost var c := Center(start, end);
    assert |r| == |pages + c|;
    forall i | 0 <= i < |r|
      ensures r[i] == (pages + c)[i]
    {
      if i < |pages| {
        assert r[i] == r[..|pages|][i];
      }
    }
  }

  /** `mark_current`: sets the flag of every link whose page is the current page. */
  method MarkCurrent(pages: seq<PageLink>, currentPage: int) returns (r: seq<PageLink>)
    ensures r == Marked(pages, currentPage)
  {
    r := pages;
    var i := 0;
    while i < |r|
      invariant 0 <= i <= |r| == |pages|
      invariant forall k :: 0 <= k < i ==> r[k] == Marked(pages, currentPage)[k]
      invariant forall k :: i <= k < |r| ==> r[k] == pages[k]
    {
      if currentPage == r[i].page {
        r := r[i := r[i].(isCurrent := true)];
      }
      i := i + 1;
    }
  }

  /** `create_list`. */
  method CreateList(currentPage: int, prevPage: int, nextPage: int, maxPage: int) returns (pages: seq<PageLink>)
    ensures pages == PageList(currentPage, prevPage, nextPage, maxPage)
  {
    pages := [];
    assert pages + First2(prevPage) == First2(prevPage);
    if 9 > maxPage {
      pages := pages + First2(prevPage);
      pages := CreateCenter(pages, 2, maxPage);
      pages := pages + Last2(nextPage, maxPage);
      assert pages == Layout(currentPage, prevPage, nextPage, maxPage);
      pages := MarkCurrent(pages, currentPage);
      return;
    }
    if 1 + 4 > currentPage {
      pages := pages + First2(prevPage);
      pages := CreateCenter(pages, 2, currentPage + 3);
      pages := pages + NextDot(currentPage);
      pages := pages + Last2(nextPage, maxPage);
      assert pages == Layout(currentPage, prevPage, nextPage, maxPage);
      pages := MarkCurrent(pages, currentPage);
      return;
    }
    if maxPage - 4 < currentPage {
      pages := pages + First2(prevPage);
      pages := pages + PrevDot(currentPage);
      pages := CreateCenter(pages, currentPage - 2, maxPage);
      pages := pages + Last2(nextPage, maxPage);
      assert pages == Layout(currentPage, prevPage, nextPage, maxPage);
      pages := MarkCurrent(pages, currentPage);
      return;
    }
    pages := pages + First2(prevPage);
    pages := pages + PrevDot(currentPage);
    pages := CreateCenter(pages, currentPage - 2, currentPage + 3);
    pages := pages + NextDot(nextPage);
    pages := pages + Last2(nextPage, maxPage);
    assert pages == Layout(currentPage, prevPage, nextPage, maxPage);
    pages := MarkCurrent(pages, currentPage);
  }

  // ---------------------------------------------------------------------
  // Properties of the layouts

  /** No page number is ever rendered as one of the captions. */
  lemma NumberIsNoCaption(p: int)
    ensures IntToString(p) != CaptionDot && IntToString(p) != CaptionPrev && IntToString(p) != CaptionNext
  {
    var s := IntToString(p);
    if p < 0 {
      assert s[0] == '-';
    } else {
      assert IsDigit(s[0]);
    }
  }

  /** `mark_current` changes flags only, and afterwards a link is flagged exactly when it was or when it points at the current page. */
  lemma MarkedFlags(links: seq<PageLink>, currentPage: int)
    ensures forall k :: 0 <= k < |links| ==>
      Marked(links, currentPage)[k].page == links[k].page &&
      Marked(links, currentPage)[k].text == links[k].text &&
      (Marked(links, currentPage)[k].isCurrent <==> links[k].isCurrent || links[k].page == currentPage)
  {
  }

  /** No link of `Center` is flagged. */
  lemma CenterUnflagged(start: int, end: int)
    ensures forall k :: 0 <= k < |Center(start, end)| ==> !Center(start, end)[k].isCurrent
  {
  }

  /** Page 1 and Previous first, Next and the last page last, and no link flagged. */
  predicate FramedList(l: seq<PageLink>, prevPage: int, nextPage: int, maxPage: int) {
    && |l| >= 4
    && l[..2] == First2(prevPage)
    && l[|l| - 2..] == Last2(nextPage, maxPage)
    && forall k :: 0 <= k < |l| ==> !l[k].isCurrent
  }

  /** Unflagged middle links between `First2` and `Last2` make a framed list. */
  lemma FrameAround(prevPage: int, middle: seq<PageLink>, nextPage: int, maxPage: int)
    requires forall k :: 0 <= k < |middle| ==> !middle[k].isCurrent
    ensures FramedList(First2(prevPage) + middle + Last2(nextPage, maxPage), prevPage, nextPage, maxPage)
  {
    var l := First2(prevPage) + middle + Last2(nextPage, maxPage);
    forall k | 0 <= k < |l|
      ensures !l[k].isCurrent
    {
      if 2 <= k < 2 + |middle| {
        assert l[k] == middle[k - 2];
      }
    }
  }

  /** The layout under nine pages is framed. */
  lemma SmallFrame(currentPage: int, prevPage: int, nextPage: int, maxPage: int)
    requires 9 > maxPage
    ensures FramedList(Layout(currentPage, prevPage, nextPage, maxPage), prevPage, nextPage, maxPage)
  {
    CenterUnflagged(2, maxPage);
    FrameAround(prevPage, Center(2, maxPage), nextPage, maxPage);
  }

  /** The layout for a current page below 5 is framed. */
  lemma LowFrame(currentPage: int, prevPage: int, nextPage: int, maxPage: int)
    requires 9 <= maxPage && 1 + 4 > currentPage
    ensures FramedList(Layout(currentPage, prevPage, nextPage, maxPage), prevPage, nextPage, maxPage)
  {
    var middle := Center(2, currentPage + 3) + NextDot(currentPage);
    CenterUnflagged(2, currentPage + 3);
    UnflaggedAppend(Center(2, currentPage + 3), NextDot(currentPage));
    assert Layout(currentPage, prevPage, nextPage, maxPage) == First2(prevPage) + middle + Last2(nextPage, maxPage);
    FrameAround(prevPage, middle, nextPage, maxPage);
  }

  /** The layout for a current page among the last four is framed. */
  lemma HighFrame(currentPage: int, prevPage: int, nextPage: int, maxPage: int)
    requires 9 <= maxPage && 1 + 4 <= currentPage && maxPage - 4 < currentPage
    ensures FramedList(Layout(currentPage, prevPage, nextPage, maxPage), prevPage, nextPage, maxPage)
  {
    var middle := PrevDot(currentPage) + Center(currentPage - 2, maxPage);
    CenterUnflagged(currentPage - 2, maxPage);
    UnflaggedAppend(PrevDot(currentPage), Center(currentPage - 2, maxPage));
    assert Layout(currentPage, prevPage, nextPage, maxPage) == First2(prevPage) + middle + Last2(nextPage, maxPage);
    FrameAround(prevPage, middle, nextPage, maxPage);
  }

  /** The middle layout is framed. */
  lemma MiddleFrame(currentPage: int, prevPage: int, nextPage: int, maxPage: int)
    requires 9 <= maxPage && 1 + 4 <= currentPage && maxPage - 4 >= currentPage
    ensures FramedList(Layout(currentPage, prevPage, nextPage, maxPage), prevPage, nextPage, maxPage)
  {
    var center := Center(currentPage - 2, currentPage + 3);
    var middle := PrevDot(currentPage) + center + NextDot(nextPage);
    CenterUnflagged(currentPage - 2, currentPage + 3);
    UnflaggedAppend(PrevDot(currentPage), center);
    UnflaggedAppend(PrevDot(currentPage) + center, NextDot(nextPage));
    assert Layout(currentPage, prevPage, nextPage, maxPage) == First2(prevPage) + middle + Last2(nextPage, maxPage);
    FrameAround(prevPage, middle, nextPage, maxPage);
  }

  /** Every layout is page 1 and Previous, then some middle links, then Next and the last page, none of them flagged. */
  lemma LayoutFrame(currentPage: int, prevPage: int, nextPage: int, maxPage: int)
    ensures var l := Layout(currentPage, prevPage, nextPage, maxPage);
      && |l| >= 4
      && l[..2] == First2(prevPage)
      && l[|l| - 2..] == Last2(nextPage, maxPage)
      && forall k :: 0 <= k < |l| ==> !l[k].isCurrent
  {
    if 9 > maxPage {
      SmallFrame(currentPage, prevPage, nextPage, maxPage);
    } else if 1 + 4 > currentPage {
      LowFrame(currentPage, prevPage, nextPage, maxPage);
    } else if maxPage - 4 < currentPage {
      HighFrame(currentPage, prevPage, nextPage, maxPage);
    } else {
      MiddleFrame(currentPage, prevPage, nextPage, maxPage);
    }
  }

  /** Joining two runs of unflagged links gives an unflagged run. */
  lemma UnflaggedAppend(a: seq<PageLink>, b: seq<PageLink>)
    requires forall k :: 0 <= k < |a| ==> !a[k].isCurrent
    requires forall k :: 0 <= k < |b| ==> !b[k].isCurrent
    ensures forall k :: 0 <= k < |a + b| ==> !(a + b)[k].isCurrent
  {
  }

  /**
   * Every list starts with page 1 and Previous and ends with Next and the
   * last page; a link is flagged exactly when it points at the current
   * page, whatever its caption.
   */
  lemma PageListFrame(currentPage: int, prevPage: int, nextPage: int, maxPage: int)
    ensures var r := PageList(currentPage, prevPage, nextPage, maxPage);
      && |r| >= 4
      && r[0].page == 1 && r[0].text == "1"
      && r[1].page == prevPage && r[1].text == CaptionPrev
      && r[|r| - 2].page == nextPage && r[|r| - 2].text == CaptionNext
      && r[|r| - 1].page == maxPage && r[|r| - 1].text == IntToString(maxPage)
      && forall k :: 0 <= k < |r| ==> (r[k].isCurrent <==> r[k].page == currentPage)
  {
    var l := Layout(currentPage, prevPage, nextPage, maxPage);
    LayoutFrame(currentPage, prevPage, nextPage, maxPage);
    assert l[0] == l[..2][0] && l[1] == l[..2][1];
    assert l[|l| - 2] == l[|l| - 2..][0] && l[|l| - 1] == l[|l| - 2..][1];
  }

  /**
   * Fewer than nine pages: no ellipsis, and between Previous and Next every
   * page from 2 to the one before the last, in order.
   */
  lemma SmallLayout(currentPage: int, prevPage: int, nextPage: int, maxPage: int)
    requires maxPage < 9
    ensures var r := Layout(currentPage, prevPage, nextPage, maxPage);
      && |r| == (if maxPage >= 2 then maxPage + 2 else 4)
      && (forall k :: 2 <= k < |r| - 2 ==> r[k] == Numbered(k))
      && (forall k :: 0 <= k < |r| ==> r[k].text != CaptionDot)
  {
    var r := Layout(currentPage, prevPage, nextPage, maxPage);
    var c := Center(2, maxPage);
    assert r == First2(prevPage) + c + Last2(nextPage, maxPage);
    forall k | 0 <= k < |r|
      ensures r[k].text != CaptionDot
    {
      if 2 <= k < |r| - 2 {
        assert r[k] == c[k - 2];
        NumberIsNoCaption(k);
      } else if k == |r| - 1 {
        NumberIsNoCaption(maxPage);
      }
    }
  }

  /** A single page gives exactly [1, Previous, Next, 1]. */
  lemma SinglePageLayout(currentPage: int, prevPage: int, nextPage: int)
    ensures Layout(currentPage, prevPage, nextPage, 1) ==
      [Link(1, "1"), Link(prevPage, CaptionPrev), Link(nextPage, CaptionNext), Link(1, "1")]
  {
    assert IntToString(1) == "1";
  }

  /**
   * Nine pages or more with the current page below 5: pages 2 to
   * current+2, then one ellipsis leading to current+3, and no leading ellipsis.
   */
  lemma LowWindow(currentPage: int, prevPage: int, nextPage: int, maxPage: int)
    requires maxPage >= 9 && 1 <= currentPage < 5
    ensures var r := Layout(currentPage, prevPage, nextPage, maxPage);
      && |r| == currentPage + 6
      && (forall k :: 2 <= k <= currentPage + 2 ==> r[k] == Numbered(k))
      && r[currentPage + 3] == Link(currentPage + 3, CaptionDot)
      && r[2].text != CaptionDot
  {
    var r := Layout(currentPage, prevPage, nextPage, maxPage);
    var c := Center(2, currentPage + 3);
    assert r == First2(prevPage) + c + NextDot(currentPage) + Last2(nextPage, maxPage);
    forall k | 2 <= k <= currentPage + 2
      ensures r[k] == Numbered(k)
    {
      assert r[k] == c[k - 2];
    }
    NumberIsNoCaption(2);
  }

  /**
   * Nine pages or more with the current page among the last four: an
   * ellipsis leading to current-3, then pages current-2 to the one before
   * the last.
   */
  lemma HighWindow(currentPage: int, prevPage: int, nextPage: int, maxPage: int)
    requires maxPage >= 9 && currentPage >= 5 && maxPage - 4 < currentPage <= maxPage
    ensures var r := Layout(currentPage, prevPage, nextPage, maxPage);
      && |r| == maxPage - currentPage + 7
      && r[2] == Link(currentPage - 3, CaptionDot)
      && (forall k :: 3 <= k < |r| - 2 ==> r[k] == Numbered(currentPage - 5 + k))
  {
    var r := Layout(currentPage, prevPage, nextPage, maxPage);
    var c := Center(currentPage - 2, maxPage);
    assert r == First2(prevPage) + PrevDot(currentPage) + c + Last2(nextPage, maxPage);
    forall k | 3 <= k < |r| - 2
      ensures r[k] == Numbered(currentPage - 5 + k)
    {
      assert r[k] == c[k - 3];
    }
  }

  /**
   * Nine pages or more with the current page in the middle: an ellipsis
   * leading to current-3, pages current-2 to current+2, and an ellipsis
   * leading to next+3.
   */
  lemma MiddleWindow(currentPage: int, prevPage: int, nextPage: int, maxPage: int)
    requires maxPage >= 9 && 5 <= currentPage <= maxPage - 4
    ensures var r := Layout(currentPage, prevPage, nextPage, maxPage);
      && |r| == 11
      && r[2] == Link(currentPage - 3, CaptionDot)
      && (forall k :: 3 <= k < 8 ==> r[k] == Numbered(currentPage - 5 + k))
      && r[8] == Link(nextPage + 3, CaptionDot)
  {
    var r := Layout(currentPage, prevPage, nextPage, maxPage);
    var c := Center(currentPage - 2, currentPage + 3);
    assert r == First2(prevPage) + PrevDot(currentPage) + c + NextDot(nextPage) + Last2(nextPage, maxPage);
    forall k | 3 <= k < 8
      ensures r[k] == Numbered(currentPage - 5 + k)
    {
      assert r[k] == c[k - 3];
    }
  }

  /**
   * In the middle layout, with the next page one past the current one as
   * the browser computes it, the trailing ellipsis leads to current+4 and
   * no link at all leads to current+3.
   */
  lemma MiddleWindowSkipsOnePage(currentPage: int, prevPage: int, maxPage: int)
    requires maxPage >= 9 && 5 <= currentPage <= maxPage - 4 && prevPage == currentPage - 1
    ensures var r := Layout(currentPage, prevPage, currentPage + 1, maxPage);
      r[8].page == currentPage + 4 &&
      forall k :: 0 <= k < |r| ==> r[k].page != currentPage + 3
  {
    MiddleWindow(currentPage, prevPage, currentPage + 1, maxPage);
  }

  /** Twenty pages with page 10 current: the full list of links, with only page 10 flagged. */
  lemma TwentyPagesAtTen()
    ensures PageList(10, 9, 11, 20) == [
      PageLink(1, "1", false), PageLink(9, CaptionPrev, false), PageLink(7, CaptionDot, false),
      PageLink(8, "8", false), PageLink(9, "9", false), PageLink(10, "10", true),
      PageLink(11, "11", false), PageLink(12, "12", false), PageLink(14, CaptionDot, false),
      PageLink(11, CaptionNext, false), PageLink(20, "20", false)]
  {
    MiddleWindow(10, 9, 11, 20);
    assert IntToString(8) == "8" && IntToString(9) == "9" && IntToString(10) == "10";
    assert IntToString(11) == "11" && IntToString(12) == "12" && IntToString(20) == "20";
  }
}
