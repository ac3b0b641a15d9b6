/** `paginate_questions`: ten questions per page, taken with a Python slice. */
module Pagination {
  import opened Questions

  const QuestionsPerPage: nat := 10

  /** `request.args.get("page", 1, type=int)`: `arg` is None when the
      parameter is absent or does not parse as an int. */
  function PageNumber(arg: Option<int>): int {
    match arg
    case None => 1
    case Some(n) => n
  }

  /** How Python resolves a slice bound against a list of length `n`:
      a negative bound counts from the end, then it is clamped to [0, n]. */
  function SliceBound(n: nat, i: int): (k: nat)
    ensures k <= n
    ensures 0 <= i <= n ==> k == i
    ensures i > n ==> k == n
  {
    if i < 0 then (if i + n < 0 then 0 else i + n)
    else if i > n then n
    else i
  }

  /** `s[lo:hi]` in Python. */
  function PySlice<T>(s: seq<T>, lo: int, hi: int): seq<T> {
    var a, b := SliceBound(|s|, lo), SliceBound(|s|, hi);
    if a < b then s[a..b] else []
  }

  function Paginate(selection: seq<Question>, page: int): seq<Question> {
    var start := (page - 1) * QuestionsPerPage;
    PySlice(selection, start, start + QuestionsPerPage)
  }

  /** No page, whatever its number, holds more than ten questions. */
  lemma PageAtMostTen(selection: seq<Question>, page: int)
    ensures |Paginate(selection, page)| <= QuestionsPerPage
  {
    var n, start := |selection|, (page - 1) * QuestionsPerPage;
    var a, b := SliceBound(n, start), SliceBound(n, start + QuestionsPerPage);
    if start < 0 && start + QuestionsPerPage >= 0 {
      assert b <= a || b - a <= QuestionsPerPage;
    }
  }

  /** For page >= 1 the page is the window of the selection that starts at
      (page - 1) * 10, in order, cut short only by the end of the selection. */
  lemma PageWindow(selection: seq<Question>, page: int)
    requires page >= 1
    ensures var start := (page - 1) * QuestionsPerPage;
      var r := Paginate(selection, page);
      && |r| == (if start >= |selection| then 0
                 else if start + QuestionsPerPage <= |selection| then QuestionsPerPage
                 else |selection| - start)
      && forall k :: 0 <= k < |r| ==> r[k] == selection[start + k]
  {
  }

  /** For page >= 1 the page is empty exactly when it starts past the end. */
  lemma PageEmptyIff(selection: seq<Question>, page: int)
    requires page >= 1
    ensures Paginate(selection, page) == [] <==> (page - 1) * QuestionsPerPage >= |selection|
  {
    PageWindow(selection, page);
  }

  /** Every question of the selection is shown: the one at position j is at
      position j % 10 of page j / 10 + 1. */
  lemma {:induction false} EveryQuestionOnItsPage(selection: seq<Question>, j: nat)
    requires j < |selection|
    ensures var r := Paginate(selection, j / QuestionsPerPage + 1);
      j % QuestionsPerPage < |r| && r[j % QuestionsPerPage] == selection[j]
  {
    var page := j / QuestionsPerPage + 1;
    PageWindow(selection, page);
    assert (page - 1) * QuestionsPerPage + j % QuestionsPerPage == j;
  }

  /** Page 0 (start -10, end 0) is always empty, so `?page=0` gets 404. */
  lemma PageZeroEmpty(selection: seq<Question>)
    ensures Paginate(selection, 0) == []
  {
  }

  /** Whatever the page number, a page holds only questions of the selection. */
  lemma PageMembers(selection: seq<Question>, page: int)
    ensures forall q :: q in Paginate(selection, page) ==> q in selection
  {
    var start := (page - 1) * QuestionsPerPage;
    var a, b := SliceBound(|selection|, start), SliceBound(|selection|, start + QuestionsPerPage);
    if a < b {
      forall q | q in selection[a..b] ensures q in selection {
        var k :| 0 <= k < b - a && selection[a..b][k] == q;
        assert selection[a + k] == q;
      }
    }
  }
}
