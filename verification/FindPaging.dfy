/** Find paging (crates/roost-client-core/src/search.rs): the checks on one page, and what a chain of pages covers. */
module FindPaging {

  import opened Basics

  type Row = n: nat | n < 0x1_0000_0000

  const MAX_ROWS := 4096

  datatype RawMatch = RawMatch(row: Row, col: Row, len: Row, preview: string)

  /** A match fenced to the grid epoch that owns its row. */
  datatype FindMatch = FindMatch(raw: RawMatch, epoch: string)

  /** Rows `start` up to but not including `end` were scanned. */
  datatype Page = Page(start: Row, end: Row, next: Option<Row>)

  predicate InWindow(row: int, page: Page) {
    page.start <= row < page.end
  }

  predicate WindowIsValid(page: Page, matches: seq<RawMatch>, before: Option<Row>) {
    && page.start <= page.end
    && page.end - page.start <= MAX_ROWS
    && (before.Some? ==> page.end == before.value)
    && forall i :: 0 <= i < |matches| ==> InWindow(matches[i].row, page)
  }

  predicate ContinuationIsValid(page: Page, before: Option<Row>) {
    && page.next.Some? && page.next.value == page.start && page.next.value < page.end
    && (before.Some? ==> page.next.value < before.value)
  }

  /** Every match of a valid window, all in one epoch. */
  function FencePage(matches: seq<RawMatch>, page: Page, before: Option<Row>, epoch: string): Option<seq<FindMatch>> {
    if !WindowIsValid(page, matches, before) then None
    else Some(seq(|matches|, i requires 0 <= i < |matches| => FindMatch(matches[i], epoch)))
  }

  /** One reply: a page and its matches. */
  datatype Reply = Reply(page: Page, matches: seq<RawMatch>)

  /** Where the k-th request of a chain asks to end. */
  function Before(replies: seq<Reply>, k: nat): Option<Row>
    requires k <= |replies|
  {
    if k == 0 then None else replies[k - 1].page.next
  }

  /** Each page was fenced, and each but the last offered a usable continuation. */
  predicate Chain(replies: seq<Reply>) {
    && (forall k :: 0 <= k < |replies| ==> WindowIsValid(replies[k].page, replies[k].matches, Before(replies, k)))
    && (forall k :: 0 <= k < |replies| - 1 ==> ContinuationIsValid(replies[k].page, Before(replies, k)))
  }

  /** The same in terms of the windows alone: bounded, abutting, none but the last empty, matches inside. */
  predicate Tiling(replies: seq<Reply>) {
    && (forall k :: 0 <= k < |replies| ==>
          && replies[k].page.start <= replies[k].page.end <= replies[k].page.start + MAX_ROWS
          && forall i :: 0 <= i < |replies[k].matches| ==> InWindow(replies[k].matches[i].row, replies[k].page))
    && (forall k :: 0 <= k < |replies| - 1 ==>
          && replies[k].page.next == Some(replies[k].page.start) && replies[k].page.start < replies[k].page.end
          && replies[k + 1].page.end == replies[k].page.start)
  }

  /** The checks accept exactly the tilings; that the cursor decreases never has to be checked separately. */
  lemma ChainsAreTilings(replies: seq<Reply>)
    ensures Chain(replies) <==> Tiling(replies)
  {
    if Chain(replies) {
      forall k | 0 <= k < |replies| - 1 ensures replies[k + 1].page.end == replies[k].page.start {
        assert WindowIsValid(replies[k + 1].page, replies[k + 1].matches, Before(replies, k + 1));
        assert ContinuationIsValid(replies[k].page, Before(replies, k));
      }
    }
    if Tiling(replies) {
      forall k | 0 <= k < |replies| ensures WindowIsValid(replies[k].page, replies[k].matches, Before(replies, k)) {
        if k > 0 { assert replies[(k - 1) + 1].page.end == replies[k - 1].page.start; }
      }
      forall k | 0 <= k < |replies| - 1 ensures ContinuationIsValid(replies[k].page, Before(replies, k)) {
        if k > 0 { assert replies[(k - 1) + 1].page.end == replies[k - 1].page.start; }
      }
    }
  }

  /** Later windows lie wholly before earlier ones, lower by at least a row each. */
  lemma {:induction false} LaterIsLower(replies: seq<Reply>, i: nat, j: nat)
    requires Tiling(replies) && i < j < |replies|
    ensures replies[j].page.end + (j - i - 1) <= replies[i].page.start
  {
    if i + 1 < j {
      LaterIsLower(replies, i, j - 1);
      assert replies[(j - 1) + 1].page.end == replies[j - 1].page.start;
    } else {
      assert replies[i + 1].page.end == replies[i].page.start;
    }
  }

  /** The page of a row between the chain's two ends. */
  lemma {:induction false} RowIsCovered(replies: seq<Reply>, row: nat) returns (k: nat)
    requires Tiling(replies) && replies != [] && replies[|replies| - 1].page.start <= row < replies[0].page.end
    ensures k < |replies| && InWindow(row, replies[k].page)
  {
    var n := |replies| - 1;
    if row < replies[n].page.end {
      k := n;
    } else {
      var init := replies[..n];
      assert replies[(n - 1) + 1].page.end == replies[n - 1].page.start;
      assert forall i :: 0 <= i < n ==> init[i] == replies[i];
      k := RowIsCovered(init, row);
    }
  }

  lemma WindowsAreApart(replies: seq<Reply>, row: nat, i: nat, j: nat)
    requires Tiling(replies) && i < |replies| && j < |replies| && InWindow(row, replies[i].page) &&
      InWindow(row, replies[j].page)
    ensures i == j
  {
    if i < j { LaterIsLower(replies, i, j); }
    if j < i { LaterIsLower(replies, j, i); }
  }

  lemma WindowsAreBetween(replies: seq<Reply>, row: nat, k: nat)
    requires Tiling(replies) && k < |replies| && InWindow(row, replies[k].page)
    ensures replies[|replies| - 1].page.start <= row < replies[0].page.end
  {
    if 0 < k { LaterIsLower(replies, 0, k); }
    if k < |replies| - 1 { LaterIsLower(replies, k, |replies| - 1); }
  }

  /** The windows tile one interval: every row of it is in exactly one page, and no other row is in any. */
  lemma PagesTile(replies: seq<Reply>, row: nat)
    requires Chain(replies) && replies != []
    ensures replies[|replies| - 1].page.start <= row < replies[0].page.end <==>
      exists k :: 0 <= k < |replies| && InWindow(row, replies[k].page)
    ensures forall i, j :: 0 <= i < |replies| && 0 <= j < |replies| ==>
      InWindow(row, replies[i].page) && InWindow(row, replies[j].page) ==> i == j
  {
    ChainsAreTilings(replies);
    forall i, j | 0 <= i < |replies| && 0 <= j < |replies| && InWindow(row, replies[i].page) &&
      InWindow(row, replies[j].page)
      ensures i == j
    {
      WindowsAreApart(replies, row, i, j);
    }
    if k :| 0 <= k < |replies| && InWindow(row, replies[k].page) { WindowsAreBetween(replies, row, k); }
    if replies[|replies| - 1].page.start <= row < replies[0].page.end {
      var k := RowIsCovered(replies, row);
    }
  }

  lemma CursorDecreases(replies: seq<Reply>, i: nat, j: nat)
    requires Tiling(replies) && i < j < |replies| - 1
    ensures replies[i].page.next.Some? && replies[j].page.next.Some? &&
      replies[j].page.next.value < replies[i].page.next.value
  {
    LaterIsLower(replies, i, j);
    assert replies[j + 1].page.end == replies[j].page.start;
    assert replies[i + 1].page.end == replies[i].page.start;
  }

  /** Paging ends: a chain is at most one page longer than the rows below its first end. */
  lemma PagingEnds(replies: seq<Reply>)
    requires Chain(replies) && replies != []
    ensures |replies| <= replies[0].page.end + 1
    ensures forall i, j :: 0 <= i < j < |replies| - 1 ==>
      replies[i].page.next.Some? && replies[j].page.next.Some? &&
      replies[j].page.next.value < replies[i].page.next.value
  {
    ChainsAreTilings(replies);
    if |replies| > 1 { LaterIsLower(replies, 0, |replies| - 1); }
    forall i, j | 0 <= i < j < |replies| - 1
      ensures replies[i].page.next.Some? && replies[j].page.next.Some? &&
        replies[j].page.next.value < replies[i].page.next.value
    {
      CursorDecreases(replies, i, j);
    }
  }

  /** Every fenced match is in the window of its own page and of no other. */
  lemma MatchesAreInOnePage(replies: seq<Reply>, k: nat, i: nat, epoch: string)
    requires Chain(replies) && k < |replies| && i < |replies[k].matches|
    ensures var fenced := FencePage(replies[k].matches, replies[k].page, Before(replies, k), epoch);
      && fenced.Some? && |fenced.value| == |replies[k].matches| &&
        fenced.value[i] == FindMatch(replies[k].matches[i], epoch)
      && forall j :: 0 <= j < |replies| ==> (InWindow(fenced.value[i].raw.row, replies[j].page) <==> j == k)
  {
    PagesTile(replies, replies[k].matches[i].row);
    assert InWindow(replies[k].matches[i].row, replies[k].page);
  }

}
