/** The fixed-size pagination every listing view applies to its post list:
    ten items per page, pages numbered from 1, an empty list still having one
    (empty) page. Only in-range page numbers are modelled. */
module Paging {

  const PerPage: nat := 10

  /** How many pages a list of `n` items spans. */
  function NumPages(n: nat): (k: nat)
    ensures k >= 1
    ensures n == 0 ==> k == 1
    ensures n > 0 ==> PerPage * (k - 1) < n <= PerPage * k
  {
    if n == 0 then 1 else (n + PerPage - 1) / PerPage
  }

  /** Page number `k` of `s`. */
  function Page<T>(s: seq<T>, k: nat): (r: seq<T>)
    requires 1 <= k <= NumPages(|s|)
    ensures k < NumPages(|s|) ==> |r| == PerPage
    ensures k == NumPages(|s|) ==> |r| == |s| - PerPage * (k - 1)
    ensures forall i :: 0 <= i < |r| ==> r[i] == s[PerPage * (k - 1) + i]
  {
    var lo := PerPage * (k - 1);
    var hi := if PerPage * k < |s| then PerPage * k else |s|;
    s[lo..hi]
  }

  /** `s` cut into consecutive pages. */
  function Pages<T>(s: seq<T>): seq<seq<T>>
    decreases |s|
  {
    if |s| <= PerPage then [s] else [s[..PerPage]] + Pages(s[PerPage..])
  }

  function Flatten<T>(pages: seq<seq<T>>): seq<T> {
    if |pages| == 0 then [] else pages[0] + Flatten(pages[1..])
  }

  /** Reading every page in order gives back the whole list. */
  lemma {:induction false} PagesFlattenToList<T>(s: seq<T>)
    ensures Flatten(Pages(s)) == s
    decreases |s|
  {
    if |s| > PerPage {
      PagesFlattenToList(s[PerPage..]);
      assert ([s[..PerPage]] + Pages(s[PerPage..]))[1..] == Pages(s[PerPage..]);
      assert s[..PerPage] + s[PerPage..] == s;
    } else {
      assert [s][1..] == [];
      assert s + [] == s;
    }
  }

  /** There are exactly `NumPages` pages, and page `k` of the cut is `Page(s, k)`. */
  lemma {:induction false} PagesAgreeWithPage<T>(s: seq<T>, k: nat)
    requires 1 <= k <= NumPages(|s|)
    ensures |Pages(s)| == NumPages(|s|)
    ensures Pages(s)[k - 1] == Page(s, k)
    decreases |s|
  {
    if |s| > PerPage {
      var rest := s[PerPage..];
      assert NumPages(|rest|) == NumPages(|s|) - 1;
      if k == 1 {
        PagesAgreeWithPage(rest, 1);
      } else {
        PagesAgreeWithPage(rest, k - 1);
        assert Page(rest, k - 1) == Page(s, k);
      }
    }
  }

  /** Item `j` of a list sits on page `j / 10 + 1`, at offset `j % 10`. */
  lemma PageOfItem<T>(s: seq<T>, j: nat)
    requires j < |s|
    ensures 1 <= j / PerPage + 1 <= NumPages(|s|)
    ensures j % PerPage < |Page(s, j / PerPage + 1)|
    ensures Page(s, j / PerPage + 1)[j % PerPage] == s[j]
  {
    var k := j / PerPage + 1;
    assert PerPage * (k - 1) + j % PerPage == j;
  }

  /** Thirteen items give a full first page of ten and a second page of three. */
  lemma ThirteenItemsMakeTenAndThree<T>(s: seq<T>)
    requires |s| == 13
    ensures NumPages(|s|) == 2
    ensures |Page(s, 1)| == 10 && |Page(s, 2)| == 3
  {
  }
}
