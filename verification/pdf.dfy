/**
 * The PDF viewer's page and rotation state (static/pdf.mjs, `PdfCanvas`).
 *
 * The document handle is modelled by its page count: `None` until pdf.js
 * hands the loaded document over, `Some(n)` afterwards.  Rendering is not
 * modelled; `feed` returns the page number it asks pdf.js for, or `None`
 * where the script would fail on the missing document.
 */
module PdfViewer {
  import opened Strings

  /** The four orientations a page can be shown in. */
  predicate IsRotation(r: int) {
    r == 0 || r == 90 || r == 180 || r == 270
  }

  /** `rotateRight90`'s new rotation: 270 wraps to 0, anything else gains 90. */
  function RotatedRight(r: int): (s: int)
    ensures IsRotation(r) ==> IsRotation(s) && s == (r + 90) % 360
  {
    if r == 270 then 0 else r + 90
  }

  /** `rotateLeft90`'s new rotation: 0 wraps to 270, anything else loses 90. */
  function RotatedLeft(r: int): (s: int)
    ensures IsRotation(r) ==> IsRotation(s) && s == (r + 270) % 360
  {
    if r == 0 then 270 else r - 90
  }

  /** Turning left and right undo each other. */
  lemma RotationsCancel(r: int)
    requires IsRotation(r)
    ensures RotatedLeft(RotatedRight(r)) == r
    ensures RotatedRight(RotatedLeft(r)) == r
  {
  }

  /** Four quarter turns to the right restore the original rotation, and no fewer do. */
  lemma FourQuarterTurns(r: int)
    requires IsRotation(r)
    ensures RotatedRight(RotatedRight(RotatedRight(RotatedRight(r)))) == r
    ensures RotatedRight(r) != r && RotatedRight(RotatedRight(r)) != r
    ensures RotatedRight(RotatedRight(RotatedRight(r))) != r
  {
  }

  /** `prev`'s new page: page 1 stays, any other page goes back one. */
  function PrevPage(page: int): (p: int)
    ensures page >= 1 ==> 1 <= p <= page && (p == page <==> page == 1)
  {
    if page == 1 then 1 else page - 1
  }

  /** `next`'s new page: the last page stays, any other page goes forward one. */
  function NextPage(page: int, numPages: int): (p: int)
    ensures 1 <= page <= numPages ==> page <= p <= numPages && (p == page <==> page == numPages)
  {
    if numPages == page then page else page + 1
  }

  /** The page `feed` asks for: the requested page, cut down to the last page. */
  function FedPage(page: int, numPages: int): (p: int)
    ensures p <= page && p <= numPages
    ensures p == page || p == numPages
  {
    if numPages < page then numPages else page
  }

  /** Going forward and then back returns to the same page, except from the last page. */
  lemma NextThenPrev(page: int, numPages: int)
    requires 1 <= page < numPages
    ensures PrevPage(NextPage(page, numPages)) == page
  {
  }

  /** Going back and then forward returns to the same page, except from the first page. */
  lemma PrevThenNext(page: int, numPages: int)
    requires 1 < page <= numPages
    ensures NextPage(PrevPage(page), numPages) == page
  {
  }

  /** `prev` and `next` move by exactly one page inside the document, and stop at its ends. */
  lemma OnePageStep(page: int, numPages: int)
    ensures 1 < page ==> PrevPage(page) == page - 1
    ensures page < numPages ==> NextPage(page, numPages) == page + 1
    ensures NextPage(numPages, numPages) == numPages && PrevPage(1) == 1
  {
  }

  class PdfCanvas {
    var pageNumber: int
    var rotation: int
    /** The page count of the loaded document, or `None` before it arrives. */
    var numPages: Option<int>

    /** The page is always a real page of the document (page 1 before it arrives), and the rotation a quarter turn. */
    ghost predicate Valid()
      reads this
    {
      && IsRotation(rotation)
      && 1 <= pageNumber
      && (numPages.Some? ==> 1 <= numPages.value && pageNumber <= numPages.value)
      && (numPages.None? ==> pageNumber == 1)
    }

    constructor ()
      ensures Valid()
      ensures pageNumber == 1 && rotation == 0 && numPages == None
    {
      pageNumber := 1;
      rotation := 0;
      numPages := None;
    }

    /** The promise of `load` resolving: the document with its page count is kept. */
    method DocumentLoaded(pages: int)
      requires Valid() && numPages == None && pages >= 1
      modifies this
      ensures Valid()
      ensures numPages == Some(pages) && pageNumber == old(pageNumber) && rotation == old(rotation)
    {
      numPages := Some(pages);
    }

    /** `feed`: the page asked of pdf.js, or `None` when no document has arrived. */
    method Feed(page: int) returns (requested: Option<int>)
      ensures numPages.None? ==> requested == None
      ensures numPages.Some? ==> requested == Some(FedPage(page, numPages.value))
    {
      if numPages == None {
        return None;
      }
      var n := numPages.value;
      var p := if n < page then n else page;
      requested := Some(p);
    }

    /** `prev`: back one page, staying on page 1, then `feed`. */
    method Prev() returns (requested: Option<int>)
      requires Valid()
      modifies this
      ensures Valid()
      ensures pageNumber == PrevPage(old(pageNumber)) && rotation == old(rotation) && numPages == old(numPages)
      ensures numPages.Some? ==> requested == Some(pageNumber)
      ensures numPages.None? ==> requested == None
    {
      pageNumber := if pageNumber == 1 then 1 else pageNumber - 1;
      requested := Feed(pageNumber);
    }

    /**
     * `next`: forward one page, staying on the last page, then `feed`.
     * Before the document arrives the page count cannot be read and nothing changes.
     */
    method Next() returns (requested: Option<int>)
      requires Valid()
      modifies this
      ensures Valid()
      ensures old(numPages).None? ==> requested == None && pageNumber == old(pageNumber)
      ensures old(numPages).Some? ==> pageNumber == NextPage(old(pageNumber), old(numPages).value) && requested == Some(pageNumber)
      ensures rotation == old(rotation) && numPages == old(numPages)
    {
      if numPages == None {
        return None;
      }
      pageNumber := if numPages.value == pageNumber then pageNumber else pageNumber + 1;
      requested := Feed(pageNumber);
    }

    /** `rotateLeft90`: a quarter turn to the left, then `feed` of the same page. */
    method RotateLeft90() returns (requested: Option<int>)
      requires Valid()
      modifies this
      ensures Valid()
      ensures rotation == RotatedLeft(old(rotation)) && pageNumber == old(pageNumber) && numPages == old(numPages)
      ensures numPages.Some? ==> requested == Some(pageNumber)
      ensures numPages.None? ==> requested == None
    {
      rotation := if rotation == 0 then 270 else rotation - 90;
      requested := Feed(pageNumber);
    }

    /** `rotateRight90`: a quarter turn to the right, then `feed` of the same page. */
    method RotateRight90() returns (requested: Option<int>)
      requires Valid()
      modifies this
      ensures Valid()
      ensures rotation == RotatedRight(old(rotation)) && pageNumber == old(pageNumber) && numPages == old(numPages)
      ensures numPages.Some? ==> requested == Some(pageNumber)
      ensures numPages.None? ==> requested == None
    {
      rotation := if rotation == 270 then 0 else rotation + 90;
      requested := Feed(pageNumber);
    }
  }
}
