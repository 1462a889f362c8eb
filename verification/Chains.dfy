/** The order theory of pagination: each page is the end of a chronological list, and the next list
    holds only rows older than the page's first row. The lists need not be related otherwise. */
module Chains {
  import opened Store

  /** `page` is the end of the ascending list `s`. */
  ghost predicate Ends(page: seq<Row>, s: seq<Row>)
  {
    Ascending(s) && |page| <= |s| && page == s[|s| - |page|..]
  }

  ghost predicate AllOlder(s: seq<Row>, r: Row)
  {
    forall k :: 0 <= k < |s| ==> Older(s[k], r)
  }

  ghost predicate Chain(lists: seq<seq<Row>>, pages: seq<seq<Row>>)
  {
    && |lists| == |pages|
    && (forall i :: 0 <= i < |pages| ==> Ends(pages[i], lists[i]))
    && (forall i :: 0 <= i < |pages| - 1 ==> pages[i] != [] && AllOlder(lists[i + 1], pages[i][0]))
  }

  /** Every row of a later page is older than every row of an earlier page. */
  lemma {:induction false} LaterPagesAreOlder(lists: seq<seq<Row>>, pages: seq<seq<Row>>, i: nat, a: nat, j: nat, b: nat)
    requires Chain(lists, pages) && i < j < |pages| && a < |pages[i]| && b < |pages[j]|
    ensures Older(pages[j][b], pages[i][a])
    decreases j
  {
    var h := j - 1;
    assert AllOlder(lists[h + 1], pages[h][0]);
    assert pages[j][b] == lists[j][|lists[j]| - |pages[j]| + b];
    if i < h {
      LaterPagesAreOlder(lists, pages, i, a, h, 0);
    } else {
      assert a > 0 ==> Older(lists[i][|lists[i]| - |pages[i]|], lists[i][|lists[i]| - |pages[i]| + a]);
    }
  }

  /** A listed row is on the page or older than its first row. */
  lemma OnThePageOrOlder(page: seq<Row>, s: seq<Row>, r: Row) returns (k: int)
    requires Ends(page, s) && r in s
    ensures if k >= 0 then k < |page| && page[k] == r else |page| < |s| && (page != [] ==> Older(r, page[0]))
  {
    var n :| 0 <= n < |s| && s[n] == r;
    k := n - (|s| - |page|);
  }

  /** `r` is listed again and again until a page shows it. */
  ghost predicate Listed(lists: seq<seq<Row>>, pages: seq<seq<Row>>, r: Row)
    requires Chain(lists, pages)
  {
    && (pages != [] ==> r in lists[0])
    && forall i :: 0 <= i < |pages| - 1 ==> Older(r, pages[i][0]) ==> r in lists[i + 1]
  }

  /** If the last page reaches the end of its list, every such row is on some page. */
  lemma {:induction false} ListedIsShown(lists: seq<seq<Row>>, pages: seq<seq<Row>>, r: Row, from: nat)
    returns (i: nat, k: nat)
    requires Chain(lists, pages) && Listed(lists, pages, r) && from < |pages| && r in lists[from]
    requires |pages[|pages| - 1]| == |lists[|pages| - 1]|
    ensures i < |pages| && k < |pages[i]| && pages[i][k] == r
    decreases |pages| - from
  {
    var n := OnThePageOrOlder(pages[from], lists[from], r);
    if n >= 0 {
      i, k := from, n;
    } else {
      assert pages[from] != [];
      i, k := ListedIsShown(lists, pages, r, from + 1);
    }
  }

  // ---------------------------------------------------------------- one table throughout

  /** The pages joined, the latest first. */
  function Joined(pages: seq<seq<Row>>): seq<Row>
  {
    if pages == [] then [] else pages[|pages| - 1] + Joined(pages[..|pages| - 1])
  }

  /** The list after page `h` is what the page left over. */
  ghost predicate CutBetween(lists: seq<seq<Row>>, pages: seq<seq<Row>>, h: nat)
    requires |pages| == |lists| && h + 1 < |lists|
  {
    pages[h] != [] && Ends(pages[h], lists[h]) && lists[h + 1] == lists[h][..|lists[h]| - |pages[h]|]
  }

  lemma JoinedNext(pages: seq<seq<Row>>, n: nat)
    requires n < |pages|
    ensures Joined(pages[..n + 1]) == pages[n] + Joined(pages[..n])
  {
    assert pages[..n + 1][..n] == pages[..n];
  }

  lemma Glue(s: seq<Row>, page: seq<Row>, rest: seq<Row>, whole: seq<Row>)
    requires Ends(page, s) && s + rest == whole
    ensures s[..|s| - |page|] + (page + rest) == whole
  {
    var front := s[..|s| - |page|];
    assert front + page == s;
    assert (front + page) + rest == front + (page + rest);
  }

  /** Then each list, followed by the pages before it, is the whole first list. */
  lemma {:induction false} JoinedSoFar(lists: seq<seq<Row>>, pages: seq<seq<Row>>, n: nat)
    requires |pages| == |lists| && n < |lists| && forall h :: 0 <= h < |pages| - 1 ==> CutBetween(lists, pages, h)
    ensures lists[n] + Joined(pages[..n]) == lists[0]
    decreases n
  {
    if n == 0 {
      assert pages[..0] == [] && lists[0] + [] == lists[0];
    } else {
      var h := n - 1;
      JoinedSoFar(lists, pages, h);
      assert CutBetween(lists, pages, h);
      JoinedNext(pages, h);
      Glue(lists[h], pages[h], Joined(pages[..h]), lists[0]);
    }
  }

  /** So if the last page reaches the end of its list, the pages joined are the whole first list. */
  lemma JoinedIsTheList(lists: seq<seq<Row>>, pages: seq<seq<Row>>)
    requires |pages| == |lists| && pages != []
    requires forall h :: 0 <= h < |pages| - 1 ==> CutBetween(lists, pages, h)
    requires Ends(pages[|pages| - 1], lists[|pages| - 1]) && |pages[|pages| - 1]| == |lists[|pages| - 1]|
    ensures Joined(pages) == lists[0]
  {
    var n := |pages| - 1;
    JoinedSoFar(lists, pages, n);
    JoinedNext(pages, n);
    assert pages[..n + 1] == pages && pages[n] == lists[n];
  }

  /** Over one table, the rows older than a page's first row are what the page left over. */
  lemma NextListIsTheRest(whole: seq<Row>, rows: set<Row>, s: seq<Row>, page: seq<Row>, next: seq<Row>)
    requires Lists(whole, rows) && Keyed(rows) && Ends(page, s) && page != [] && |s| <= |whole| && s == whole[..|s|]
    requires Lists(next, OlderThan(rows, PosOf(page[0])))
    ensures next == s[..|s| - |page|] == whole[..|s| - |page|]
  {
    var k := |s| - |page|;
    assert page[0] == s[k] == whole[k];
    OlderRowsAreListedBefore(whole, rows, k);
    ListIsUnique(next, whole[..k], OlderThan(rows, PosOf(whole[k])));
  }
}
