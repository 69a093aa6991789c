/** Properties of the operator that relate several runs: the answer does not
    depend on how rows are batched into pages, pruning never changes which
    keys are kept, and a ceiling too low for n rows always aborts. */
module TopNProperties {
  import opened Results
  import opened Orderings
  import opened Selection
  import opened PriorityQueues
  import opened Pages
  import opened Merging
  import opened TopN

  /** The reference answer depends only on which keys there are, not on the
      order they arrive in. */
  lemma FirstNDependsOnBag(s: seq<int>, t: seq<int>, n: nat)
    requires multiset(s) == multiset(t)
    ensures FirstN(s, n) == FirstN(t, n)
  {
    FirstNIsFirstN(s, n);
    FirstNIsFirstN(t, n);
    IsFirstNUnique(multiset(FirstN(s, n)), multiset(FirstN(t, n)), multiset(s), n);
    AscendingUnique(FirstN(s, n), FirstN(t, n));
  }

  /** Two runs over the same rows cut into pages differently keep the same
      keys, whenever neither hits the ceiling. */
  lemma BatchingIndependent(op: TopNOperator, pages1: seq<Page>, pages2: seq<Page>)
    requires op.Valid()
    requires AllWellFormed(pages1, op.keyChannel) && AllWellFormed(pages2, op.keyChannel)
    requires multiset(InputKeys(op.callerOrdering, pages1, op.keyChannel))
          == multiset(InputKeys(op.callerOrdering, pages2, op.keyChannel))
    ensures Ingest(op, Initial, pages1).Ok? && Ingest(op, Initial, pages2).Ok? ==>
      Kept(op.QueueOrdering(), Ingest(op, Initial, pages1).value.global)
        == Kept(op.QueueOrdering(), Ingest(op, Initial, pages2).value.global)
  {
    var o := op.QueueOrdering();
    if Ingest(op, Initial, pages1).Ok? && Ingest(op, Initial, pages2).Ok? {
      IsFirstNUnique(Kept(o, Ingest(op, Initial, pages1).value.global), Kept(o, Ingest(op, Initial, pages2).value.global),
                     Kept(o, Initial.global) + multiset(InputKeys(op.callerOrdering, pages1, op.keyChannel)), op.n);
    }
  }

  /** A reference to every row of a page, in position order. */
  function AllRefs(page: Page, keyChannel: nat): (refs: seq<Ref>)
    requires WellFormed(page, keyChannel)
    ensures |refs| == page.positionCount
    ensures RowRefs(refs, page, keyChannel)
  {
    seq(page.positionCount, p requires 0 <= p < page.positionCount => Keyed(page.blocks[keyChannel][p], p))
  }

  /** The keys of every row of a page, by reference or read straight from the block. */
  lemma AllRefsRanks(c: Ordering, page: Page, keyChannel: nat)
    requires WellFormed(page, keyChannel)
    ensures Ranks(c, AllRefs(page, keyChannel)) == KeyRanks(c, page.blocks[keyChannel])
  {
    var refs := AllRefs(page, keyChannel);
    forall i | 0 <= i < |refs|
      ensures Ranks(c, refs)[i] == KeyRanks(c, page.blocks[keyChannel])[i]
    {
    }
  }

  /** Pruning is an optimisation only: offering every row of the page keeps
      the same keys as offering the rows that survive pruning. */
  lemma PruningIrrelevant(o: Ordering, n: nat, keyChannel: nat, global: seq<Candidate>, page: Page)
    requires n > 0 && Ordered(o, global) && |global| <= n && WellFormed(page, keyChannel)
    ensures MergeWithGlobalCandidates(o, n, keyChannel, global, page, AllRefs(page, keyChannel)).Ok?
    ensures Kept(o, MergeWithGlobalCandidates(o, n, keyChannel, global, page, AllRefs(page, keyChannel)).value.global)
         == Kept(o, PruneAndMerge(o, n, keyChannel, global, page).global)
  {
    var unpruned := MergeWithGlobalCandidates(o, n, keyChannel, global, page, AllRefs(page, keyChannel));
    AllRefsRanks(Reverse(o), page, keyChannel);
    IsFirstNUnique(Kept(o, unpruned.value.global), Kept(o, PruneAndMerge(o, n, keyChannel, global, page).global),
                   Kept(o, global) + multiset(KeyRanks(Reverse(o), page.blocks[keyChannel])), n);
  }

  /** Rows of at least `b` bytes each hold at least `b` bytes per row. */
  lemma {:induction false} FootprintAtLeast(q: seq<Candidate>, b: nat)
    requires forall i | 0 <= i < |q| :: TupleBytes(q[i].payload) >= b
    ensures Footprint(q) >= |q| * b
    decreases |q|
  {
    if q != [] {
      var k := |q| - 1;
      assert forall i | 0 <= i < k :: q[1..][i] == q[i + 1];
      FootprintAtLeast(q[1..], b);
      assert |q| * b == k * b + b;
    }
  }

  /** Kept rows drawn from rows of at least `b` bytes each. */
  lemma KeptAtLeast(global: seq<Candidate>, rows: set<Candidate>, b: nat)
    requires Members(global) <= rows
    requires forall x | x in rows :: TupleBytes(x.payload) >= b
    ensures Footprint(global) >= |global| * b
  {
    assert forall i | 0 <= i < |global| :: global[i] in Members(global);
    FootprintAtLeast(global, b);
  }

  /** A queue holding the first n of at least n keys, of rows of at least `b`
      bytes each, within a ceiling on its estimate plus per-row overhead,
      fits n times `b` plus that overhead under the ceiling. */
  lemma KeptFits(o: Ordering, n: nat, global: seq<Candidate>, estimate: int, keys: multiset<int>,
                 rows: set<Candidate>, b: nat, maxSize: nat)
    requires IsFirstN(Kept(o, global), keys, n) && |keys| >= n
    requires Footprint(global) <= estimate
    requires estimate + |global| * OverheadPerTuple <= maxSize
    requires Members(global) <= rows
    requires forall x | x in rows :: TupleBytes(x.payload) >= b
    ensures n * (b + OverheadPerTuple) <= maxSize
  {
    assert |global| == |Kept(o, global)| == n;
    KeptAtLeast(global, rows, b);
    assert n * (b + OverheadPerTuple) == n * b + n * OverheadPerTuple;
  }

  /** A run that reads at least n rows of at least `b` bytes each and does
      not abort fits n times `b` plus the per-row overhead under its ceiling. */
  lemma IngestedFits(op: TopNOperator, pages: seq<Page>, b: nat)
    requires op.Valid() && AllWellFormed(pages, op.keyChannel)
    requires forall x | x in InputRows(pages, op.keyChannel) :: TupleBytes(x.payload) >= b
    requires |InputKeys(op.callerOrdering, pages, op.keyChannel)| >= op.n
    requires Ingest(op, Initial, pages).Ok?
    ensures op.n * (b + OverheadPerTuple) <= op.maxSize
  {
    var st := Ingest(op, Initial, pages).value;
    var keys := multiset(InputKeys(op.callerOrdering, pages, op.keyChannel));
    assert Kept(op.QueueOrdering(), Initial.global) + keys == keys;
    assert Members(Initial.global) + InputRows(pages, op.keyChannel) == InputRows(pages, op.keyChannel);
    KeptFits(op.QueueOrdering(), op.n, st.global, st.estimate, keys, InputRows(pages, op.keyChannel), b, op.maxSize);
  }

  /** If at least n rows are read, each of at least `b` bytes, a ceiling
      below n times `b` plus the per-row overhead always aborts. */
  lemma CeilingTooLowAborts(op: TopNOperator, pages: seq<Page>, b: nat)
    requires op.Valid() && AllWellFormed(pages, op.keyChannel)
    requires forall x | x in InputRows(pages, op.keyChannel) :: TupleBytes(x.payload) >= b
    requires |InputKeys(op.callerOrdering, pages, op.keyChannel)| >= op.n
    requires op.maxSize < op.n * (b + OverheadPerTuple)
    ensures Ingest(op, Initial, pages) == Err(MemoryLimitExceeded(op.maxSize))
  {
    if Ingest(op, Initial, pages).Ok? {
      IngestedFits(op, pages, b);
      assert false;
    }
  }
}
