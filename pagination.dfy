/** The pager under the class grid: numbered buttons 1..total and previous/next
    buttons, reporting the chosen page. */
module Pagination {
  import opened Wrappers

  /** Nothing is shown for a single page or none. */
  predicate Shown(total: int) {
    total > 1
  }

  /** `Array.from({ length: total }, (_, i) => i + 1)`. */
  function Pages(total: nat): (r: seq<int>)
    ensures |r| == total
    ensures forall i :: 0 <= i < |r| ==> r[i] == i + 1
  {
    seq(total, i => i + 1)
  }

  /** The page list is increasing and holds exactly the pages 1..total. */
  lemma PagesExactly(total: nat, p: int)
    ensures p in Pages(total) <==> 1 <= p <= total
    ensures forall i, j :: 0 <= i < j < total ==> Pages(total)[i] < Pages(total)[j]
  {
    if 1 <= p <= total {
      assert Pages(total)[p - 1] == p;
    }
  }

  /** `goTo`: a page outside 1..total is ignored (`None`); any other is reported. */
  function GoTo(p: int, total: int): (r: Option<int>)
    ensures r.None? <==> p < 1 || p > total
    ensures r.Some? ==> r.value == p
  {
    if p < 1 || p > total then None else Some(p)
  }

  predicate PrevDisabled(current: int) {
    current == 1
  }

  predicate NextDisabled(current: int, total: int) {
    current == total
  }

  /** For a current page in range, each arrow is disabled exactly when the page it
      would go to is ignored, and otherwise it reports the neighbouring page. */
  lemma ArrowsMatchGoTo(current: int, total: int)
    requires 1 <= current <= total
    ensures PrevDisabled(current) <==> GoTo(current - 1, total).None?
    ensures NextDisabled(current, total) <==> GoTo(current + 1, total).None?
    ensures !PrevDisabled(current) ==> GoTo(current - 1, total) == Some(current - 1)
    ensures !NextDisabled(current, total) ==> GoTo(current + 1, total) == Some(current + 1)
  {
  }

  /** Every numbered button reports its own page. */
  lemma ButtonsReportTheirPage(total: nat, i: nat)
    requires i < total
    ensures GoTo(Pages(total)[i], total) == Some(i + 1)
  {
  }
}
