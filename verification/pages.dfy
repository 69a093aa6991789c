/** Pages of rows in column form, and references to their rows. */
module Pages {
  import opened Orderings
  import opened PriorityQueues

  /** One batch of rows in column form: a block of tuples per channel. */
  datatype Page = Page(blocks: seq<seq<Tuple>>, positionCount: nat)

  /** Every block of the page holds one tuple per position. */
  predicate Rectangular(page: Page) {
    forall ch | 0 <= ch < |page.blocks| :: |page.blocks[ch]| == page.positionCount
  }

  /** A page the operator can read: rectangular, with the key channel present. */
  predicate WellFormed(page: Page, keyChannel: nat) {
    Rectangular(page) && keyChannel < |page.blocks|
  }

  /** Every page is readable by an operator reading keys from `keyChannel`. */
  predicate AllWellFormed(pages: seq<Page>, keyChannel: nat) {
    forall k | 0 <= k < |pages| :: WellFormed(pages[k], keyChannel)
  }

  /** A key and the position of its row in the current page. */
  type Ref = Keyed<nat>

  /** A key and the materialised tuples of its row, one per channel. */
  type Candidate = Keyed<seq<Tuple>>

  /** The tuples of the row at position `p`, one per channel. */
  function RowAt(page: Page, p: nat): (row: seq<Tuple>)
    requires Rectangular(page) && p < page.positionCount
    ensures |row| == |page.blocks|
  {
    seq(|page.blocks|, ch requires 0 <= ch < |page.blocks| => page.blocks[ch][p])
  }

  /** Every row of a page, as the candidate it would become if kept. */
  function PageCandidates(page: Page, keyChannel: nat): seq<Candidate>
    requires WellFormed(page, keyChannel)
  {
    seq(page.positionCount, p requires 0 <= p < page.positionCount =>
      Keyed(page.blocks[keyChannel][p], RowAt(page, p)))
  }

  /** The ranks of a block of keys under an ordering. */
  function KeyRanks(c: Ordering, keys: seq<Tuple>): seq<int> {
    seq(|keys|, i requires 0 <= i < |keys| => Rank(c, keys[i]))
  }

  /** Every reference points at a row of a page with `positionCount` rows. */
  predicate WithinPage(refs: seq<Ref>, positionCount: nat) {
    forall k | 0 <= k < |refs| :: refs[k].payload < positionCount
  }

  /** Every reference points at a row of the page and carries that row's key. */
  predicate RowRefs(refs: seq<Ref>, page: Page, keyChannel: nat)
    requires WellFormed(page, keyChannel)
  {
    && WithinPage(refs, page.positionCount)
    && forall k | 0 <= k < |refs| :: refs[k].key == page.blocks[keyChannel][refs[k].payload]
  }
}
