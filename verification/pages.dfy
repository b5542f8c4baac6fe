/** The PDF export's page grouping: report elements, in document order, are
    packed greedily onto pages whose usable height is 277 mm at 3.78 px/mm.
    Header elements always join the page being filled; any other element
    opens a new page when it does not fit on a non-empty current page. */
module Pages {

  /** A rendered report element: whether it carries the `report-header`
      class, and its `scrollHeight` in pixels. */
  datatype Element = Element(isHeader: bool, height: nat)

  /** Usable page height in pixels: 297 mm less two 10 mm margins, at
      3.78 px per mm. */
  const PageLimit: real := 277.0 * 3.78

  /** Total height of the elements on a page. */
  function PageHeight(page: seq<Element>): nat
  {
    if |page| == 0 then 0 else PageHeight(page[..|page| - 1]) + page[|page| - 1].height
  }

  /** The elements of all pages, in page order. */
  function Flatten(pages: seq<seq<Element>>): seq<Element>
  {
    if |pages| == 0 then [] else Flatten(pages[..|pages| - 1]) + pages[|pages| - 1]
  }

  /** Page k opens with a non-header element that would have overflowed
      page k - 1. */
  predicate BreakJustified(pages: seq<seq<Element>>, k: int)
    requires 0 < k < |pages|
  {
    |pages[k]| > 0 && !pages[k][0].isHeader && (PageHeight(pages[k - 1]) + pages[k][0].height) as real > PageLimit
  }

  /** Every page after the first opens with a non-header element that would
      have overflowed the page before it. */
  predicate BreaksJustified(pages: seq<seq<Element>>)
  {
    forall k :: 0 < k < |pages| ==> BreakJustified(pages, k)
  }

  /** Element j of the page is a header, or fitted under the limit together
      with the elements before it. */
  predicate PlacedFits(page: seq<Element>, j: int)
    requires 0 <= j < |page|
  {
    page[j].isHeader || (PageHeight(page[..j]) + page[j].height) as real <= PageLimit
  }

  /** Every non-header element placed after the first on its page fitted
      under the limit together with the elements before it. */
  predicate FitsWithin(page: seq<Element>)
  {
    forall j :: 0 < j < |page| ==> PlacedFits(page, j)
  }

  lemma HeightAppend(page: seq<Element>, e: Element)
    ensures PageHeight(page + [e]) == PageHeight(page) + e.height
  {
    assert (page + [e])[..|page|] == page;
  }

  lemma FlattenAppend(pages: seq<seq<Element>>, page: seq<Element>)
    ensures Flatten(pages + [page]) == Flatten(pages) + page
  {
    assert (pages + [page])[..|pages|] == pages;
  }

  lemma FitsAppend(page: seq<Element>, e: Element)
    requires FitsWithin(page)
    requires !e.isHeader && |page| > 0 ==> (PageHeight(page) + e.height) as real <= PageLimit
    ensures FitsWithin(page + [e])
  {
    var p := page + [e];
    forall j | 0 < j < |p|
      ensures PlacedFits(p, j)
    {
      if j < |page| {
        assert PlacedFits(page, j);
        assert p[..j] == page[..j];
      } else {
        assert p[..j] == page;
      }
    }
  }

  /** Growing the last page keeps every break justified. */
  lemma BreaksGrowLast(pages: seq<seq<Element>>, current: seq<Element>, e: Element)
    requires BreaksJustified(pages + [current])
    requires |current| > 0 || pages == []
    ensures BreaksJustified(pages + [current + [e]])
  {
    var before: seq<seq<Element>>, after: seq<seq<Element>> := pages + [current], pages + [current + [e]];
    forall k | 0 < k < |after|
      ensures BreakJustified(after, k)
    {
      assert BreakJustified(before, k);
      assert after[k - 1] == before[k - 1];
      assert after[k][0] == before[k][0];
    }
  }

  /** Opening a page with an element that overflows the last page keeps
      every break justified. */
  lemma BreaksNewPage(pages: seq<seq<Element>>, e: Element)
    requires |pages| > 0 && BreaksJustified(pages)
    requires !e.isHeader && (PageHeight(pages[|pages| - 1]) + e.height) as real > PageLimit
    ensures BreaksJustified(pages + [[e]])
  {
    var after := pages + [[e]];
    forall k | 0 < k < |after|
      ensures BreakJustified(after, k)
    {
      if k < |pages| {
        assert BreakJustified(pages, k);
      }
    }
  }

  lemma TakeOneMore<T>(s: seq<T>, i: nat)
    requires i < |s|
    ensures s[..i + 1] == s[..i] + [s[i]]
  {
  }

  /** The grouping loop's variables: closed pages, the page being filled
      and its height. */
  datatype Progress = Progress(pages: seq<seq<Element>>, current: seq<Element>, height: nat)

  /** One pass of the loop body: a header joins the current page; any other
      element first closes a non-empty current page it would overflow, then
      joins the (possibly new) current page. */
  function Step(st: Progress, e: Element): Progress
  {
    if e.isHeader then Progress(st.pages, st.current + [e], st.height + e.height)
    else if (st.height + e.height) as real > PageLimit && |st.current| > 0 then
      Progress(st.pages + [st.current], [e], e.height)
    else Progress(st.pages, st.current + [e], st.height + e.height)
  }

  /** The loop's variables after reading `elements`. */
  function Run(elements: seq<Element>): Progress
  {
    if |elements| == 0 then Progress([], [], 0)
    else Step(Run(elements[..|elements| - 1]), elements[|elements| - 1])
  }

  /** The pages after the final push of a non-empty current page. */
  function Paginate(elements: seq<Element>): seq<seq<Element>>
  {
    var st := Run(elements);
    if |st.current| > 0 then st.pages + [st.current] else st.pages
  }

  lemma RunLast(elements: seq<Element>)
    requires |elements| > 0
    ensures var prefix, e := elements[..|elements| - 1], elements[|elements| - 1];
            && elements == prefix + [e]
            && Run(elements) == Step(Run(prefix), e)
  {
  }

  lemma SnocAssoc(a: seq<Element>, b: seq<Element>, e: Element)
    ensures a + (b + [e]) == (a + b) + [e]
  {
  }

  /** The closed pages followed by the current page hold exactly the
      elements read. */
  lemma {:induction false} RunKeepsOrder(elements: seq<Element>)
    ensures Flatten(Run(elements).pages) + Run(elements).current == elements
  {
    if |elements| > 0 {
      var prefix, e := elements[..|elements| - 1], elements[|elements| - 1];
      RunLast(elements);
      RunKeepsOrder(prefix);
      var st := Run(prefix);
      if !e.isHeader && (st.height + e.height) as real > PageLimit && |st.current| > 0 {
        FlattenAppend(st.pages, st.current);
      } else {
        SnocAssoc(Flatten(st.pages), st.current, e);
      }
    }
  }

  /** The tracked height is the current page's height. */
  lemma {:induction false} RunTracksHeight(elements: seq<Element>)
    ensures Run(elements).height == PageHeight(Run(elements).current)
  {
    if |elements| > 0 {
      var prefix, e := elements[..|elements| - 1], elements[|elements| - 1];
      RunLast(elements);
      RunTracksHeight(prefix);
      var st := Run(prefix);
      HeightAppend(st.current, e);
      HeightAppend([], e);
    }
  }

  /** Closed pages are non-empty, and the current page is empty only before
      the first element. */
  lemma {:induction false} RunNonEmpty(elements: seq<Element>)
    ensures forall k :: 0 <= k < |Run(elements).pages| ==> |Run(elements).pages[k]| > 0
    ensures |Run(elements).current| == 0 ==> Run(elements).pages == [] && elements == []
  {
    if |elements| > 0 {
      RunLast(elements);
      RunNonEmpty(elements[..|elements| - 1]);
    }
  }

  /** Every page placement fitted. */
  lemma {:induction false} RunFits(elements: seq<Element>)
    ensures forall k :: 0 <= k < |Run(elements).pages| ==> FitsWithin(Run(elements).pages[k])
    ensures FitsWithin(Run(elements).current)
  {
    if |elements| > 0 {
      var prefix, e := elements[..|elements| - 1], elements[|elements| - 1];
      RunLast(elements);
      RunFits(prefix);
      RunTracksHeight(prefix);
      var st := Run(prefix);
      if !e.isHeader && (st.height + e.height) as real > PageLimit && |st.current| > 0 {
        assert [e][..0] == [];
      } else {
        FitsAppend(st.current, e);
      }
    }
  }

  /** Every page break is justified. */
  lemma {:induction false} RunBreaks(elements: seq<Element>)
    ensures BreaksJustified(Run(elements).pages + [Run(elements).current])
  {
    if |elements| > 0 {
      var prefix, e := elements[..|elements| - 1], elements[|elements| - 1];
      RunLast(elements);
      RunBreaks(prefix);
      RunTracksHeight(prefix);
      RunNonEmpty(prefix);
      var st := Run(prefix);
      if !e.isHeader && (st.height + e.height) as real > PageLimit && |st.current| > 0 {
        BreaksNewPage(st.pages + [st.current], e);
      } else {
        BreaksGrowLast(st.pages, st.current, e);
      }
    }
  }

  /** The grouping holds every element in order, has no empty page, breaks a
      page only before a non-header element that overflows it, and places
      every other non-header element where it fits. */
  lemma PaginateCorrect(elements: seq<Element>)
    ensures Flatten(Paginate(elements)) == elements
    ensures forall k :: 0 <= k < |Paginate(elements)| ==> |Paginate(elements)[k]| > 0 && FitsWithin(Paginate(elements)[k])
    ensures BreaksJustified(Paginate(elements))
  {
    var st := Run(elements);
    RunKeepsOrder(elements);
    RunNonEmpty(elements);
    RunFits(elements);
    RunBreaks(elements);
    var pages := Paginate(elements);
    if |st.current| > 0 {
      assert pages == st.pages + [st.current];
      FlattenAppend(st.pages, st.current);
      CloseLastPage(st.pages, st.current);
    } else {
      assert pages == [];
    }
  }

  /** Closing a non-empty page that fits onto pages that are all non-empty and
      fit keeps every page non-empty and fitting. */
  lemma CloseLastPage(pages: seq<seq<Element>>, current: seq<Element>)
    requires forall k :: 0 <= k < |pages| ==> |pages[k]| > 0 && FitsWithin(pages[k])
    requires |current| > 0 && FitsWithin(current)
    ensures forall k :: 0 <= k < |pages + [current]| ==>
              |(pages + [current])[k]| > 0 && FitsWithin((pages + [current])[k])
  {
    forall k | 0 <= k < |pages + [current]|
      ensures |(pages + [current])[k]| > 0 && FitsWithin((pages + [current])[k])
    {
      if k < |pages| {
        assert (pages + [current])[k] == pages[k];
      }
    }
  }

  /** The grouping loop of the PDF export. */
  method GroupPages(elements: seq<Element>) returns (pages: seq<seq<Element>>)
    ensures pages == Paginate(elements)
    ensures Flatten(pages) == elements
    ensures forall k :: 0 <= k < |pages| ==> |pages[k]| > 0 && FitsWithin(pages[k])
    ensures BreaksJustified(pages)
  {
    pages := [];
    var current: seq<Element> := [];
    var currentHeight: nat := 0;
    for i := 0 to |elements|
      invariant Progress(pages, current, currentHeight) == Run(elements[..i])
    {
      var e := elements[i];
      TakeOneMore(elements, i);
      assert elements[..i + 1][..i] == elements[..i];
      if e.isHeader {
        current := current + [e];
        currentHeight := currentHeight + e.height;
        continue;
      }
      if (currentHeight + e.height) as real > PageLimit {
        if |current| > 0 {
          pages := pages + [current];
          current := [];
          currentHeight := 0;
        }
      }
      current := current + [e];
      currentHeight := currentHeight + e.height;
    }
    assert elements[..|elements|] == elements;
    if |current| > 0 {
      pages := pages + [current];
    }
    PaginateCorrect(elements);
  }

  lemma {:induction false} InFlatten(pages: seq<seq<Element>>, k: nat, j: nat)
    requires k < |pages| && j < |pages[k]|
    ensures pages[k][j] in Flatten(pages)
  {
    var init := pages[..|pages| - 1];
    if k < |pages| - 1 {
      InFlatten(init, k, j);
    }
  }

  /** With no headers and no element taller than a page, every page of a
      grouping with the properties GroupPages ensures fits within a page. */
  lemma PagesWithinLimit(elements: seq<Element>, pages: seq<seq<Element>>)
    requires forall e :: e in elements ==> !e.isHeader && e.height as real <= PageLimit
    requires Flatten(pages) == elements
    requires forall k :: 0 <= k < |pages| ==> |pages[k]| > 0 && FitsWithin(pages[k])
    ensures forall k :: 0 <= k < |pages| ==> PageHeight(pages[k]) as real <= PageLimit
  {
    forall k | 0 <= k < |pages|
      ensures PageHeight(pages[k]) as real <= PageLimit
    {
      var p := pages[k];
      var j := |p| - 1;
      InFlatten(pages, k, j);
      if j > 0 {
        assert p == p[..j] + [p[j]];
        assert PlacedFits(p, j);
        HeightAppend(p[..j], p[j]);
      } else {
        assert p[..0] == [];
      }
    }
  }
}
