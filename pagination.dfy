/** The page-number strip the document list draws under the table: numbered
    page buttons with `...` standing for each run of hidden pages, plus the
    Previous/Next buttons. */
module PageStrip {
  import opened Common

  /** One entry of the strip: a page button or the `'...'` marker. */
  datatype Item = Num(n: int) | Ellipsis

  /** Page `i` gets a button: the first and last page, the current page and
      its two neighbours. */
  predicate Shown(i: int, currentPage: int, totalPages: int)
  {
    i == 1 || i == totalPages || (currentPage - 1 <= i <= currentPage + 1)
  }

  function CountNums(s: seq<Item>): nat
  {
    if s == [] then 0 else CountNums(s[..|s| - 1]) + (if s[|s| - 1].Num? then 1 else 0)
  }

  function CountEllipses(s: seq<Item>): nat
  {
    if s == [] then 0 else CountEllipses(s[..|s| - 1]) + (if s[|s| - 1].Ellipsis? then 1 else 0)
  }

  lemma CountsAppend(s: seq<Item>, x: Item)
    ensures CountNums(s + [x]) == CountNums(s) + (if x.Num? then 1 else 0)
    ensures CountEllipses(s + [x]) == CountEllipses(s) + (if x.Ellipsis? then 1 else 0)
  {
    assert (s + [x])[..|s|] == s;
  }

  /** Every entry is either a number or an ellipsis. */
  lemma {:induction false} CountsCover(s: seq<Item>)
    ensures CountNums(s) + CountEllipses(s) == |s|
  {
    if s != [] {
      CountsCover(s[..|s| - 1]);
    }
  }

  /** Bound on the buttons for pages below `i`: page 1, the last page, and
      the three pages around the current one. */
  function NumBound(i: int, currentPage: int, totalPages: int): int
  {
    (if i > 1 then 1 else 0) + (if i > totalPages then 1 else 0)
      + Max(0, Min(3, i - currentPage + 1))
  }

  /** Bound on the ellipses for pages below `i`: one can only follow page 1
      (at page 2) and one the current page's right neighbour. */
  function EllipsisBound(i: int, currentPage: int): int
  {
    (if i > 2 then 1 else 0) + (if i > currentPage + 2 then 1 else 0)
  }

  /** Neighbouring buttons are consecutive pages.  The neighbours are named
      by separate bound variables so that each instantiation stays inside the
      entries it mentions. */
  ghost predicate Consecutive(pages: seq<Item>)
  {
    forall j, k :: 0 <= j && k == j + 1 && k < |pages| && pages[j].Num? && pages[k].Num? ==>
      pages[k].n == pages[j].n + 1
  }

  /** An ellipsis is never first and never last, and it stands between two
      buttons more than one page apart. */
  ghost predicate Separated(pages: seq<Item>)
  {
    && (forall j :: 0 <= j < |pages| && pages[j].Ellipsis? ==> 0 < j < |pages| - 1)
    && (forall h, j, k :: 0 <= h && j == h + 1 && k == j + 1 && k < |pages| && pages[j].Ellipsis? ==>
          pages[h].Num? && pages[k].Num? && pages[k].n - pages[h].n > 1)
  }

  /** The strip begins with page 1 and ends with the entry for page `i - 1`:
      its button if shown, otherwise the ellipsis covering it. */
  ghost predicate Ends(pages: seq<Item>, i: int, currentPage: int, totalPages: int)
  {
    && (i == 1 <==> pages == [])
    && (i > 1 ==> pages[0] == Num(1))
    && (i > 1 ==>
          pages[|pages| - 1] == if Shown(i - 1, currentPage, totalPages) then Num(i - 1) else Ellipsis)
  }

  /** The buttons are exactly the shown pages below `i`. */
  ghost predicate ButtonsBelow(pages: seq<Item>, i: int, currentPage: int, totalPages: int)
  {
    && (forall j :: 0 <= j < |pages| && pages[j].Num? ==>
          1 <= pages[j].n < i && Shown(pages[j].n, currentPage, totalPages))
    && (forall k :: 1 <= k < i && Shown(k, currentPage, totalPages) ==> Num(k) in pages)
  }

  /** Page numbers increase, by exactly one between neighbouring buttons. */
  ghost predicate Increasing(pages: seq<Item>)
  {
    && (forall j, k :: 0 <= j < k < |pages| && pages[j].Num? && pages[k].Num? ==>
          pages[j].n < pages[k].n)
    && Consecutive(pages)
  }

  /** Each ellipsis follows a button and, unless it is the newest entry, is
      followed by a button more than one page further on. */
  ghost predicate Gaps(pages: seq<Item>)
  {
    && (forall j :: 0 <= j < |pages| && pages[j].Ellipsis? ==> 0 < j)
    && (forall h, j :: 0 <= h && j == h + 1 && j < |pages| && pages[j].Ellipsis? ==> pages[h].Num?)
    && (forall h, j, k :: 0 <= h && j == h + 1 && k == j + 1 && k < |pages| && pages[j].Ellipsis? ==>
          pages[k].Num? && pages[k].n - pages[h].n > 1)
  }

  ghost predicate Counted(pages: seq<Item>, i: int, currentPage: int, totalPages: int)
  {
    && CountNums(pages) <= NumBound(i, currentPage, totalPages)
    && CountEllipses(pages) <= EllipsisBound(i, currentPage)
  }

  ghost predicate Built(pages: seq<Item>, i: int, currentPage: int, totalPages: int)
  {
    && Ends(pages, i, currentPage, totalPages)
    && ButtonsBelow(pages, i, currentPage, totalPages)
    && Increasing(pages)
    && Gaps(pages)
    && Counted(pages, i, currentPage, totalPages)
  }

  lemma ButtonEnds(pages: seq<Item>, i: int, currentPage: int, totalPages: int)
    requires 1 <= i && Shown(i, currentPage, totalPages)
    requires Ends(pages, i, currentPage, totalPages)
    ensures Ends(pages + [Num(i)], i + 1, currentPage, totalPages)
  {
  }

  lemma ButtonListed(pages: seq<Item>, i: int, currentPage: int, totalPages: int)
    requires 1 <= i && Shown(i, currentPage, totalPages)
    requires ButtonsBelow(pages, i, currentPage, totalPages)
    ensures ButtonsBelow(pages + [Num(i)], i + 1, currentPage, totalPages)
  {
    var p := pages + [Num(i)];
    forall k | 1 <= k < i + 1 && Shown(k, currentPage, totalPages) ensures Num(k) in p {
      if k < i {
        assert Num(k) in pages;
      } else {
        assert p[|pages|] == Num(k);
      }
    }
  }

  lemma ButtonIncreasing(pages: seq<Item>, i: int, currentPage: int, totalPages: int)
    requires 1 <= i && Shown(i, currentPage, totalPages)
    requires Ends(pages, i, currentPage, totalPages)
    requires ButtonsBelow(pages, i, currentPage, totalPages)
    requires Increasing(pages)
    ensures Increasing(pages + [Num(i)])
  {
    var p := pages + [Num(i)];
    forall j, k | 0 <= j < k < |p| && p[j].Num? && p[k].Num? ensures p[j].n < p[k].n {
      if k == |pages| {
        assert p[j] == pages[j];
      }
    }
    forall j, k | 0 <= j && k == j + 1 && k < |p| && p[j].Num? && p[k].Num?
      ensures p[k].n == p[j].n + 1
    {
      if k == |pages| {
        assert pages[j] == Num(i - 1);
      } else {
        assert p[j] == pages[j] && p[k] == pages[k];
      }
    }
  }

  lemma ButtonGaps(pages: seq<Item>, i: int, currentPage: int, totalPages: int)
    requires 1 <= i && Shown(i, currentPage, totalPages)
    requires Ends(pages, i, currentPage, totalPages)
    requires ButtonsBelow(pages, i, currentPage, totalPages)
    requires Gaps(pages)
    ensures Gaps(pages + [Num(i)])
  {
    var p := pages + [Num(i)];
    forall h, j | 0 <= h && j == h + 1 && j < |p| && p[j].Ellipsis? ensures p[h].Num? {
      assert p[j] == pages[j] && p[h] == pages[h];
    }
    forall h, j, k | 0 <= h && j == h + 1 && k == j + 1 && k < |p| && p[j].Ellipsis?
      ensures p[k].Num? && p[k].n - p[h].n > 1
    {
      assert p[j] == pages[j] && p[h] == pages[h];
      if k == |pages| {
        assert !Shown(i - 1, currentPage, totalPages);
        assert pages[h].Num? && pages[h].n < i - 1;
      } else {
        assert p[k] == pages[k];
      }
    }
  }

  lemma ButtonCounted(pages: seq<Item>, i: int, currentPage: int, totalPages: int)
    requires 1 <= i <= totalPages && Shown(i, currentPage, totalPages)
    requires Counted(pages, i, currentPage, totalPages)
    ensures Counted(pages + [Num(i)], i + 1, currentPage, totalPages)
  {
    CountsAppend(pages, Num(i));
  }

  /** Pushing the button of a shown page keeps the strip well built. */
  lemma PushButton(pages: seq<Item>, i: int, currentPage: int, totalPages: int)
    requires 1 <= i <= totalPages && Shown(i, currentPage, totalPages)
    requires Built(pages, i, currentPage, totalPages)
    ensures Built(pages + [Num(i)], i + 1, currentPage, totalPages)
  {
    ButtonEnds(pages, i, currentPage, totalPages);
    ButtonListed(pages, i, currentPage, totalPages);
    ButtonIncreasing(pages, i, currentPage, totalPages);
    ButtonGaps(pages, i, currentPage, totalPages);
    ButtonCounted(pages, i, currentPage, totalPages);
  }

  lemma EllipsisCounted(pages: seq<Item>, i: int, currentPage: int, totalPages: int)
    requires 1 <= i <= totalPages && !Shown(i, currentPage, totalPages)
    requires Shown(i - 1, currentPage, totalPages)
    requires Counted(pages, i, currentPage, totalPages)
    ensures Counted(pages + [Ellipsis], i + 1, currentPage, totalPages)
  {
    assert i == 2 || i == currentPage + 2;
    CountsAppend(pages, Ellipsis);
  }

  lemma EllipsisListed(pages: seq<Item>, i: int, currentPage: int, totalPages: int)
    requires !Shown(i, currentPage, totalPages)
    requires ButtonsBelow(pages, i, currentPage, totalPages)
    ensures ButtonsBelow(pages + [Ellipsis], i + 1, currentPage, totalPages)
  {
    var p := pages + [Ellipsis];
    assert forall j :: 0 <= j < |pages| ==> p[j] == pages[j];
    forall k | 1 <= k < i + 1 && Shown(k, currentPage, totalPages) ensures Num(k) in p {
      assert Num(k) in pages;
    }
  }

  lemma EllipsisKeepsIncreasing(pages: seq<Item>)
    requires Increasing(pages)
    ensures Increasing(pages + [Ellipsis])
  {
    var p := pages + [Ellipsis];
    forall j, k | 0 <= j < k < |p| && p[j].Num? && p[k].Num? ensures p[j].n < p[k].n {
      assert p[j] == pages[j] && p[k] == pages[k];
    }
    forall j, k | 0 <= j && k == j + 1 && k < |p| && p[j].Num? && p[k].Num?
      ensures p[k].n == p[j].n + 1
    {
      assert p[j] == pages[j] && p[k] == pages[k];
    }
  }

  lemma EllipsisKeepsGaps(pages: seq<Item>)
    requires |pages| > 0 && pages[|pages| - 1].Num?
    requires Gaps(pages)
    ensures Gaps(pages + [Ellipsis])
  {
    var p := pages + [Ellipsis];
    forall j | 0 <= j < |p| && p[j].Ellipsis? ensures 0 < j {
      if j < |pages| {
        assert p[j] == pages[j];
      }
    }
    forall h, j | 0 <= h && j == h + 1 && j < |p| && p[j].Ellipsis? ensures p[h].Num? {
      assert p[h] == pages[h];
      if j < |pages| {
        assert p[j] == pages[j];
      }
    }
    forall h, j, k | 0 <= h && j == h + 1 && k == j + 1 && k < |p| && p[j].Ellipsis?
      ensures p[k].Num? && p[k].n - p[h].n > 1
    {
      assert p[h] == pages[h] && p[j] == pages[j] && p[k] == pages[k];
    }
  }

  /** Pushing an ellipsis for a hidden page right after a button keeps the
      strip well built. */
  lemma PushEllipsis(pages: seq<Item>, i: int, currentPage: int, totalPages: int)
    requires 1 <= i <= totalPages && !Shown(i, currentPage, totalPages)
    requires Built(pages, i, currentPage, totalPages)
    requires pages[|pages| - 1] != Ellipsis
    ensures Built(pages + [Ellipsis], i + 1, currentPage, totalPages)
  {
    assert Shown(i - 1, currentPage, totalPages);
    assert Ends(pages + [Ellipsis], i + 1, currentPage, totalPages);
    EllipsisListed(pages, i, currentPage, totalPages);
    EllipsisKeepsIncreasing(pages);
    EllipsisKeepsGaps(pages);
    EllipsisCounted(pages, i, currentPage, totalPages);
  }

  /** A hidden page after an ellipsis adds nothing. */
  lemma SkipHidden(pages: seq<Item>, i: int, currentPage: int, totalPages: int)
    requires 1 <= i <= totalPages && !Shown(i, currentPage, totalPages)
    requires Built(pages, i, currentPage, totalPages)
    requires pages[|pages| - 1] == Ellipsis
    ensures Built(pages, i + 1, currentPage, totalPages)
  {
  }

  /** One pass of the loop for page `i`: a shown page gets its button, a
      hidden one an ellipsis unless the strip already ends with one. */
  function Step(pages: seq<Item>, i: int, currentPage: int, totalPages: int): seq<Item>
  {
    if Shown(i, currentPage, totalPages) then pages + [Num(i)]
    else if |pages| == 0 || pages[|pages| - 1] != Ellipsis then pages + [Ellipsis]
    else pages
  }

  /** The strip once pages `1 .. i - 1` have been considered. */
  function StripUpTo(i: int, currentPage: int, totalPages: int): seq<Item>
    requires i >= 1
  {
    if i == 1 then [] else Step(StripUpTo(i - 1, currentPage, totalPages), i - 1, currentPage, totalPages)
  }

  /** The finished strip: every page from 1 to `totalPages` considered. */
  function Strip(currentPage: int, totalPages: int): seq<Item>
  {
    if totalPages < 1 then [] else StripUpTo(totalPages + 1, currentPage, totalPages)
  }

  /** One pass of the loop keeps the strip well built. */
  lemma StepBuilt(pages: seq<Item>, i: int, currentPage: int, totalPages: int)
    requires 1 <= i <= totalPages
    requires Built(pages, i, currentPage, totalPages)
    ensures Built(Step(pages, i, currentPage, totalPages), i + 1, currentPage, totalPages)
  {
    if Shown(i, currentPage, totalPages) {
      PushButton(pages, i, currentPage, totalPages);
    } else if |pages| == 0 || pages[|pages| - 1] != Ellipsis {
      PushEllipsis(pages, i, currentPage, totalPages);
    } else {
      SkipHidden(pages, i, currentPage, totalPages);
    }
  }

  /** Every prefix of the loop yields a well-built strip. */
  lemma {:induction false} StripUpToBuilt(i: int, currentPage: int, totalPages: int)
    requires 1 <= i <= totalPages + 1
    ensures Built(StripUpTo(i, currentPage, totalPages), i, currentPage, totalPages)
  {
    if i > 1 {
      StripUpToBuilt(i - 1, currentPage, totalPages);
      StepBuilt(StripUpTo(i - 1, currentPage, totalPages), i - 1, currentPage, totalPages);
    }
  }

  /** The loop ends with every page considered. */
  function EndIndex(totalPages: int): int
  {
    if totalPages >= 1 then totalPages + 1 else 1
  }

  lemma StripBuilt(currentPage: int, totalPages: int)
    ensures Built(Strip(currentPage, totalPages), EndIndex(totalPages), currentPage, totalPages)
  {
    if totalPages >= 1 {
      StripUpToBuilt(totalPages + 1, currentPage, totalPages);
    }
  }

  lemma StripEnds(currentPage: int, totalPages: int)
    ensures var pages := Strip(currentPage, totalPages);
      && (totalPages < 1 ==> pages == [])
      && (totalPages >= 1 ==>
            |pages| > 0 && pages[0] == Num(1) && pages[|pages| - 1] == Num(totalPages))
  {
    StripBuilt(currentPage, totalPages);
  }

  lemma StripMembers(currentPage: int, totalPages: int)
    ensures var pages := Strip(currentPage, totalPages);
      forall k :: Num(k) in pages <==> 1 <= k <= totalPages && Shown(k, currentPage, totalPages)
  {
    var pages := Strip(currentPage, totalPages);
    StripBuilt(currentPage, totalPages);
    forall k | Num(k) in pages ensures 1 <= k <= totalPages && Shown(k, currentPage, totalPages) {
      var j :| 0 <= j < |pages| && pages[j] == Num(k);
    }
  }

  lemma StripIncreasing(currentPage: int, totalPages: int)
    ensures Increasing(Strip(currentPage, totalPages))
  {
    StripBuilt(currentPage, totalPages);
  }

  lemma StripSeparated(currentPage: int, totalPages: int)
    ensures var pages := Strip(currentPage, totalPages);
      && Separated(pages)
      && (forall j, k :: 0 <= j && k == j + 1 && k < |pages| ==>
            !(pages[j].Ellipsis? && pages[k].Ellipsis?))
  {
    var pages := Strip(currentPage, totalPages);
    StripBuilt(currentPage, totalPages);
    forall h, j, k | 0 <= h && j == h + 1 && k == j + 1 && k < |pages| && pages[j].Ellipsis?
      ensures pages[h].Num? && pages[k].Num? && pages[k].n - pages[h].n > 1
    {
      assert pages[h].Num?;
    }
    forall j, k | 0 <= j && k == j + 1 && k < |pages| && pages[k].Ellipsis?
      ensures !pages[j].Ellipsis?
    {
      assert pages[j].Num?;
    }
  }

  lemma StripCounts(currentPage: int, totalPages: int)
    ensures var pages := Strip(currentPage, totalPages);
      CountNums(pages) <= 5 && CountEllipses(pages) <= 2 && |pages| <= 7
  {
    StripBuilt(currentPage, totalPages);
    CountsCover(Strip(currentPage, totalPages));
  }

  /** The shape of the finished strip. */
  lemma StripShape(currentPage: int, totalPages: int)
    ensures var pages := Strip(currentPage, totalPages);
      && (totalPages < 1 ==> pages == [])
      && (totalPages >= 1 ==>
            |pages| > 0 && pages[0] == Num(1) && pages[|pages| - 1] == Num(totalPages))
      && (forall k :: Num(k) in pages <==> 1 <= k <= totalPages && Shown(k, currentPage, totalPages))
      && (forall j, k :: 0 <= j < k < |pages| && pages[j].Num? && pages[k].Num? ==>
            pages[j].n < pages[k].n)
      && Consecutive(pages) && Separated(pages)
      && (forall j, k :: 0 <= j && k == j + 1 && k < |pages| ==>
            !(pages[j].Ellipsis? && pages[k].Ellipsis?))
      && CountNums(pages) <= 5 && CountEllipses(pages) <= 2 && |pages| <= 7
  {
    StripEnds(currentPage, totalPages);
    StripMembers(currentPage, totalPages);
    StripIncreasing(currentPage, totalPages);
    StripSeparated(currentPage, totalPages);
    StripCounts(currentPage, totalPages);
  }

  /** The strip for `currentPage` of `totalPages`, built left to right. */
  method PageItems(currentPage: int, totalPages: int) returns (pages: seq<Item>)
    ensures pages == Strip(currentPage, totalPages)
  {
    pages := [];
    var i := 1;
    while i <= totalPages
      invariant 1 <= i
      invariant totalPages >= 1 ==> i <= totalPages + 1
      invariant totalPages < 1 ==> i == 1
      invariant pages == StripUpTo(i, currentPage, totalPages)
    {
      if i == 1 || i == totalPages || (i >= currentPage - 1 && i <= currentPage + 1) {
        pages := pages + [Num(i)];
      } else if |pages| == 0 || pages[|pages| - 1] != Ellipsis {
        pages := pages + [Ellipsis];
      }
      i := i + 1;
    }
  }

  /** The Previous button is disabled on the first page. */
  predicate PrevDisabled(currentPage: int): (r: bool)
    ensures r <==> currentPage == 1
  {
    currentPage == 1
  }

  /** The page the Previous button requests: the one just before. */
  function PrevTarget(currentPage: int): (r: int)
    ensures r + 1 == currentPage
  {
    currentPage - 1
  }

  /** The Next button is disabled on the last page. */
  predicate NextDisabled(currentPage: int, totalPages: int): (r: bool)
    ensures r <==> currentPage == totalPages
  {
    currentPage == totalPages
  }

  /** The page the Next button requests: the one just after. */
  function NextTarget(currentPage: int): (r: int)
    ensures r == currentPage + 1
  {
    currentPage + 1
  }

  /** On a page inside the range, an enabled button requests a page inside
      the range. */
  lemma ButtonsStayInRange(currentPage: int, totalPages: int)
    requires 1 <= currentPage <= totalPages
    ensures !PrevDisabled(currentPage) ==> 1 <= PrevTarget(currentPage) < currentPage
    ensures !NextDisabled(currentPage, totalPages) ==> currentPage < NextTarget(currentPage) <= totalPages
  {
  }

  /** The page an enabled Previous or Next button requests always has its own
      button in the strip, and so does the current page. */
  lemma ButtonTargetsShown(currentPage: int, totalPages: int)
    requires 1 <= currentPage <= totalPages
    ensures Num(currentPage) in Strip(currentPage, totalPages)
    ensures !PrevDisabled(currentPage) ==> Num(PrevTarget(currentPage)) in Strip(currentPage, totalPages)
    ensures !NextDisabled(currentPage, totalPages) ==>
      Num(NextTarget(currentPage)) in Strip(currentPage, totalPages)
  {
    StripShape(currentPage, totalPages);
  }
}
