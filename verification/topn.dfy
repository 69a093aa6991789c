/** The top-N operator: returns the first N rows of its source, under the
    caller's ordering of one designated key channel, while estimating the
    memory held by the rows it keeps. */
module TopN {
  import opened Results
  import opened Orderings
  import opened Selection
  import opened PriorityQueues
  import opened Pages
  import opened Pruning
  import opened Merging

  /** Bytes added per kept row when the estimate is checked against the ceiling. */
  const OverheadPerTuple: nat := 100

  /** A projection of the output; what it computes is not modelled. */
  datatype Projection = Projection(id: nat)

  /** The operator the rows come from, seen as the pages it yields. */
  datatype Source = Source(pages: seq<Page>)

  datatype TopNOperator = TopNOperator(
    source: Source,
    n: nat,
    keyChannel: nat,
    projections: seq<Projection>,
    callerOrdering: Ordering,
    maxSize: nat)
  {
    /** What the constructor guarantees. */
    predicate Valid() {
      n > 0 && |projections| > 0
    }

    /** The comparator both queues use: the caller's ordering reversed, so
        that the head of a queue is the worst row it keeps. */
    function QueueOrdering(): Ordering {
      Reverse(callerOrdering)
    }
  }

  /** The constructor: it rejects a null or out-of-range argument, checking
      them in the order the source does, before any row is read. */
  function NewTopNOperator(
    source: Option<Source>,
    n: int,
    keyChannel: int,
    projections: Option<seq<Projection>>,
    ordering: Option<Ordering>,
    maxSize: nat): (r: Result<TopNOperator>)
    ensures r.Ok? <==>
      && source.Some? && n > 0 && keyChannel >= 0
      && projections.Some? && |projections.value| > 0 && ordering.Some?
    ensures r.Ok? ==>
      && r.value.Valid()
      && r.value.source == source.value
      && r.value.n == n && r.value.keyChannel == keyChannel
      && r.value.projections == projections.value
      && r.value.QueueOrdering() == Reverse(ordering.value)
      && r.value.maxSize == maxSize
    ensures source.None? ==> r == Err(NullArgument("source is null"))
    ensures source.Some? && n <= 0 ==> r == Err(IllegalArgument("n must be greater than zero"))
    ensures source.Some? && n > 0 && keyChannel < 0 ==> r == Err(IllegalArgument("keyChannelIndex must be at least zero"))
    ensures source.Some? && n > 0 && keyChannel >= 0 && projections.None? ==> r == Err(NullArgument("projections is null"))
    ensures source.Some? && n > 0 && keyChannel >= 0 && projections.Some? && |projections.value| == 0 ==>
      r == Err(IllegalArgument("projections is empty"))
    ensures source.Some? && n > 0 && keyChannel >= 0 && projections.Some? && |projections.value| > 0 && ordering.None? ==>
      r == Err(NullArgument("ordering is null"))
  {
    if source.None? then Err(NullArgument("source is null"))
    else if n <= 0 then Err(IllegalArgument("n must be greater than zero"))
    else if keyChannel < 0 then Err(IllegalArgument("keyChannelIndex must be at least zero"))
    else if projections.None? then Err(NullArgument("projections is null"))
    else if |projections.value| == 0 then Err(IllegalArgument("projections is empty"))
    else if ordering.None? then Err(NullArgument("ordering is null"))
    else Ok(TopNOperator(source.value, n, keyChannel, projections.value, ordering.value, maxSize))
  }

  // ---------------------------------------------------------------------------
  // One page

  /** The global queue and the running byte estimate between pages. */
  datatype State = State(global: seq<Candidate>, estimate: int)

  /** The starting state: no candidates, nothing estimated. */
  const Initial: State := State([], 0)

  /** What holds between pages: the queue is ordered and bounded, and the
      estimate plus the per-row overhead is within the ceiling. */
  predicate Between(op: TopNOperator, st: State) {
    && Ordered(op.QueueOrdering(), st.global) && |st.global| <= op.n
    && st.estimate + |st.global| * OverheadPerTuple <= op.maxSize
  }

  /** The key bytes charged again by the evictions of one page's merge. */
  function PageEvictionKeyBytes(o: Ordering, n: nat, keyChannel: nat, global: seq<Candidate>, page: Page): nat
    requires n > 0 && Ordered(o, global) && |global| <= n && WellFormed(page, keyChannel)
  {
    var refs := ComputePageCandidatePositions(o, n, global, page.blocks[keyChannel]);
    assert RowRefs(refs, page, keyChannel);
    MergeEvictionKeyBytes(o, n, keyChannel, global, page, refs)
  }

  /** Prunes one page against the global queue and merges what survives. The
      queue ends with the first n keys of what it held and of EVERY key of
      the page, pruned or not; the estimate grows by exactly the bytes newly
      held plus the key bytes charged again on eviction; and every row kept
      was held before or is a row of the page. */
  function PruneAndMerge(o: Ordering, n: nat, keyChannel: nat, global: seq<Candidate>, page: Page): (m: Merged)
    requires n > 0 && Ordered(o, global) && |global| <= n && WellFormed(page, keyChannel)
    ensures Ordered(o, m.global) && |m.global| <= n
    ensures IsFirstN(Kept(o, m.global), Kept(o, global) + multiset(KeyRanks(Reverse(o), page.blocks[keyChannel])), n)
    ensures m.sizeDelta == Footprint(m.global) - Footprint(global) + PageEvictionKeyBytes(o, n, keyChannel, global, page)
    ensures Members(m.global) <= Members(global) + Members(PageCandidates(page, keyChannel))
  {
    var keyBlock := page.blocks[keyChannel];
    var refs := ComputePageCandidatePositions(o, n, global, keyBlock);
    assert RowRefs(refs, page, keyChannel);
    var r := MergeWithGlobalCandidates(o, n, keyChannel, global, page, refs);
    WorstBoundsKept(o, global);
    PrunedFirstN(Kept(o, r.value.global), Kept(o, global), Kept(o, refs),
                 multiset(KeyRanks(Reverse(o), keyBlock)), n, |global| >= n, Worst(o, global), |refs| == n);
    r.value
  }

  /** A page whose rows each cost at most `b` grows the estimate by at most
      `b` for each row it could offer: no more than n, and no more than the
      page has. */
  lemma PageCost(o: Ordering, n: nat, keyChannel: nat, global: seq<Candidate>, page: Page, b: nat)
    requires n > 0 && Ordered(o, global) && |global| <= n && WellFormed(page, keyChannel)
    requires forall x | x in Members(PageCandidates(page, keyChannel)) :: RowCost(x) <= b
    ensures PruneAndMerge(o, n, keyChannel, global, page).sizeDelta <= Min(n, page.positionCount) * b
  {
    var refs := ComputePageCandidatePositions(o, n, global, page.blocks[keyChannel]);
    assert RowRefs(refs, page, keyChannel);
    MergeCost(o, n, keyChannel, global, page, refs, b);
    MulMonotone(|refs|, Min(n, page.positionCount), b);
  }

  lemma MulMonotone(a: nat, c: nat, b: nat)
    requires a <= c
    ensures a * b <= c * b
  {
  }

  /** The worst row of a queue is no better than any row it keeps. */
  lemma WorstBoundsKept(o: Ordering, global: seq<Candidate>)
    requires Ordered(o, global)
    ensures forall x | x in Kept(o, global) :: x <= Worst(o, global)
  {
    if |global| > 0 {
      HeadIsWorst(o, global);
    }
  }

  /** Prunes and merges one page, then checks the estimate plus the per-row
      overhead of the rows now kept against the ceiling; going over it, and
      only that, aborts with the ceiling named. */
  function ProcessPage(op: TopNOperator, st: State, page: Page): (r: Result<State>)
    requires op.Valid() && Between(op, st)
    requires WellFormed(page, op.keyChannel)
    ensures var m := PruneAndMerge(op.QueueOrdering(), op.n, op.keyChannel, st.global, page);
      r.Err? <==> st.estimate + m.sizeDelta + |m.global| * OverheadPerTuple > op.maxSize
    ensures r.Ok? ==> Between(op, r.value)
    ensures r.Ok? ==> IsFirstN(Kept(op.QueueOrdering(), r.value.global),
      Kept(op.QueueOrdering(), st.global) + multiset(KeyRanks(op.callerOrdering, page.blocks[op.keyChannel])), op.n)
    ensures r.Ok? ==>
      r.value.estimate - st.estimate
        == Footprint(r.value.global) - Footprint(st.global) + PageEvictionKeyBytes(op.QueueOrdering(), op.n, op.keyChannel, st.global, page)
    ensures r.Ok? ==> Members(r.value.global) <= Members(st.global) + Members(PageCandidates(page, op.keyChannel))
    ensures r.Err? ==> r.error == MemoryLimitExceeded(op.maxSize)
  {
    var o := op.QueueOrdering();
    var merged := PruneAndMerge(o, op.n, op.keyChannel, st.global, page);
    DoubleReverseKeys(op.callerOrdering, page.blocks[op.keyChannel]);
    var estimate := st.estimate + merged.sizeDelta;
    if estimate + |merged.global| * OverheadPerTuple <= op.maxSize then Ok(State(merged.global, estimate))
    else Err(MemoryLimitExceeded(op.maxSize))
  }

  /** A page whose rows each cost at most `b` does not abort while the
      estimate, plus `b` for each row it could offer, plus the overhead of n
      rows fits under the ceiling; and the estimate grows by at most that. */
  lemma ProcessPageCost(op: TopNOperator, st: State, page: Page, b: nat)
    requires op.Valid() && Between(op, st)
    requires WellFormed(page, op.keyChannel)
    requires forall x | x in Members(PageCandidates(page, op.keyChannel)) :: RowCost(x) <= b
    ensures st.estimate + Min(op.n, page.positionCount) * b + op.n * OverheadPerTuple <= op.maxSize ==>
      ProcessPage(op, st, page).Ok?
    ensures ProcessPage(op, st, page).Ok? ==>
      ProcessPage(op, st, page).value.estimate <= st.estimate + Min(op.n, page.positionCount) * b
  {
    PageCost(op.QueueOrdering(), op.n, op.keyChannel, st.global, page, b);
  }

  /** Reversing an ordering twice ranks every key as the ordering does. */
  lemma DoubleReverseKeys(c: Ordering, keys: seq<Tuple>)
    ensures KeyRanks(Reverse(Reverse(c)), keys) == KeyRanks(c, keys)
  {
    forall i | 0 <= i < |keys|
      ensures KeyRanks(Reverse(Reverse(c)), keys)[i] == KeyRanks(c, keys)[i]
    {
      assert Rank(Reverse(Reverse(c)), keys[i]) == -Rank(Reverse(c), keys[i]);
    }
  }

  // ---------------------------------------------------------------------------
  // Every page

  /** The caller-order ranks of the keys of every page, page after page. */
  function InputKeys(c: Ordering, pages: seq<Page>, keyChannel: nat): seq<int>
    requires AllWellFormed(pages, keyChannel)
    decreases |pages|
  {
    if pages == [] then []
    else KeyRanks(c, pages[0].blocks[keyChannel]) + InputKeys(c, pages[1..], keyChannel)
  }

  /** Every row of every page. */
  ghost function InputRows(pages: seq<Page>, keyChannel: nat): set<Candidate>
    requires AllWellFormed(pages, keyChannel)
    decreases |pages|
  {
    if pages == [] then {}
    else Members(PageCandidates(pages[0], keyChannel)) + InputRows(pages[1..], keyChannel)
  }

  /** Every page the source yields, one after another. The queue ends with
      the first n keys of what it held and of every key read; the estimate
      grows by at least the bytes newly held; every row kept was held before
      or was read; the only failure is the memory ceiling. */
  function Ingest(op: TopNOperator, st: State, pages: seq<Page>): (r: Result<State>)
    requires op.Valid() && Between(op, st)
    requires AllWellFormed(pages, op.keyChannel)
    ensures r.Ok? ==> Between(op, r.value)
    ensures r.Ok? ==> IsFirstN(Kept(op.QueueOrdering(), r.value.global),
      Kept(op.QueueOrdering(), st.global) + multiset(InputKeys(op.callerOrdering, pages, op.keyChannel)), op.n)
    ensures r.Ok? ==> Footprint(r.value.global) - Footprint(st.global) <= r.value.estimate - st.estimate
    ensures r.Ok? ==> Members(r.value.global) <= Members(st.global) + InputRows(pages, op.keyChannel)
    ensures r.Err? ==> r.error == MemoryLimitExceeded(op.maxSize)
    decreases |pages|, 1
  {
    if pages == [] then
      FirstNOfFew(Kept(op.QueueOrdering(), st.global), op.n);
      Ok(st)
    else
      match ProcessPage(op, st, pages[0])
      case Err(e) => Err(e)
      case Ok(next) => IngestRest(op, st, next, pages)
  }

  /** The rest of `Ingest` once the first page has been processed into `next`. */
  function IngestRest(op: TopNOperator, st: State, next: State, pages: seq<Page>): (r: Result<State>)
    requires op.Valid() && Between(op, st) && Between(op, next)
    requires AllWellFormed(pages, op.keyChannel) && pages != []
    requires IsFirstN(Kept(op.QueueOrdering(), next.global),
      Kept(op.QueueOrdering(), st.global) + multiset(KeyRanks(op.callerOrdering, pages[0].blocks[op.keyChannel])), op.n)
    requires Footprint(next.global) - Footprint(st.global) <= next.estimate - st.estimate
    requires Members(next.global) <= Members(st.global) + Members(PageCandidates(pages[0], op.keyChannel))
    ensures r.Ok? ==> Between(op, r.value)
    ensures r.Ok? ==> IsFirstN(Kept(op.QueueOrdering(), r.value.global),
      Kept(op.QueueOrdering(), st.global) + multiset(InputKeys(op.callerOrdering, pages, op.keyChannel)), op.n)
    ensures r.Ok? ==> Footprint(r.value.global) - Footprint(st.global) <= r.value.estimate - st.estimate
    ensures r.Ok? ==> Members(r.value.global) <= Members(st.global) + InputRows(pages, op.keyChannel)
    ensures r.Err? ==> r.error == MemoryLimitExceeded(op.maxSize)
    decreases |pages|, 0
  {
    var o, c, kc := op.QueueOrdering(), op.callerOrdering, op.keyChannel;
    var r := Ingest(op, next, pages[1..]);
    if r.Ok? then
      var first := multiset(KeyRanks(c, pages[0].blocks[kc]));
      var later := multiset(InputKeys(c, pages[1..], kc));
      assert multiset(InputKeys(c, pages, kc)) == first + later;
      FirstNComposeInto(Kept(o, next.global), Kept(o, st.global) + first, Kept(o, r.value.global), later,
                        Kept(o, st.global) + multiset(InputKeys(c, pages, kc)), op.n);
      r
    else
      r
  }

  /** Rows read that each cost at most `b` never abort a run whose estimate,
      plus `b` for every row read, plus the overhead of n rows, fits under
      the ceiling; the estimate then grows by at most `b` per row read. */
  lemma {:induction false} IngestWithinCeiling(op: TopNOperator, st: State, pages: seq<Page>, b: nat)
    requires op.Valid() && Between(op, st) && AllWellFormed(pages, op.keyChannel)
    requires forall x | x in InputRows(pages, op.keyChannel) :: RowCost(x) <= b
    requires st.estimate + |InputKeys(op.callerOrdering, pages, op.keyChannel)| * b + op.n * OverheadPerTuple <= op.maxSize
    ensures Ingest(op, st, pages).Ok?
    ensures Ingest(op, st, pages).value.estimate <= st.estimate + |InputKeys(op.callerOrdering, pages, op.keyChannel)| * b
    decreases |pages|
  {
    if pages != [] {
      var c, kc := op.callerOrdering, op.keyChannel;
      var rest := |InputKeys(c, pages[1..], kc)|;
      FirstPage(c, pages, kc);
      MulDistributes(pages[0].positionCount, rest, b);
      StepWithinCeiling(op, st, pages[0], b, rest * b);
      var next := ProcessPage(op, st, pages[0]).value;
      IngestWithinCeiling(op, next, pages[1..], b);
      IngestAfterFirst(op, st, pages);
    }
  }

  /** One page of rows costing at most `b` each, with `budget` bytes still
      wanted after it, leaves that budget free under the ceiling. */
  lemma StepWithinCeiling(op: TopNOperator, st: State, page: Page, b: nat, budget: nat)
    requires op.Valid() && Between(op, st) && WellFormed(page, op.keyChannel)
    requires forall x | x in Members(PageCandidates(page, op.keyChannel)) :: RowCost(x) <= b
    requires st.estimate + page.positionCount * b + budget + op.n * OverheadPerTuple <= op.maxSize
    ensures ProcessPage(op, st, page).Ok?
    ensures ProcessPage(op, st, page).value.estimate <= st.estimate + page.positionCount * b
  {
    MulMonotone(Min(op.n, page.positionCount), page.positionCount, b);
    assert st.estimate + Min(op.n, page.positionCount) * b + op.n * OverheadPerTuple <= op.maxSize;
    ProcessPageCost(op, st, page, b);
  }

  lemma MulDistributes(a: nat, c: nat, b: nat)
    ensures (a + c) * b == a * b + c * b
  {
  }

  /** The rows and keys read are those of the first page and of the rest. */
  lemma FirstPage(c: Ordering, pages: seq<Page>, keyChannel: nat)
    requires AllWellFormed(pages, keyChannel) && pages != []
    ensures |InputKeys(c, pages, keyChannel)| == pages[0].positionCount + |InputKeys(c, pages[1..], keyChannel)|
    ensures Members(PageCandidates(pages[0], keyChannel)) <= InputRows(pages, keyChannel)
    ensures InputRows(pages[1..], keyChannel) <= InputRows(pages, keyChannel)
  {
  }

  /** A run whose first page does not abort goes on from the state it leaves. */
  lemma IngestAfterFirst(op: TopNOperator, st: State, pages: seq<Page>)
    requires op.Valid() && Between(op, st) && AllWellFormed(pages, op.keyChannel) && pages != []
    requires ProcessPage(op, st, pages[0]).Ok?
    ensures Ingest(op, st, pages) == Ingest(op, ProcessPage(op, st, pages[0]).value, pages[1..])
  {
  }

  /** The largest cost of a row among some rows. */
  function RowsMaxCost(rows: seq<Candidate>): (b: nat)
    ensures forall i | 0 <= i < |rows| :: RowCost(rows[i]) <= b
    ensures rows == [] ==> b == 0
    ensures rows != [] ==> exists i | 0 <= i < |rows| :: RowCost(rows[i]) == b
  {
    if rows == [] then 0
    else
      var later := RowsMaxCost(rows[1..]);
      assert forall i | 1 <= i < |rows| :: rows[i] == rows[1..][i - 1];
      if RowCost(rows[0]) >= later then RowCost(rows[0])
      else
        assert exists i | 0 <= i < |rows[1..]| :: RowCost(rows[1..][i]) == later;
        later
  }

  /** The largest cost of a row read: no row read costs more. */
  function InputMaxCost(pages: seq<Page>, keyChannel: nat): (b: nat)
    requires AllWellFormed(pages, keyChannel)
    ensures forall x | x in InputRows(pages, keyChannel) :: RowCost(x) <= b
    ensures InputRows(pages, keyChannel) == {} ==> b == 0
    ensures InputRows(pages, keyChannel) != {} ==> exists x | x in InputRows(pages, keyChannel) :: RowCost(x) == b
    decreases |pages|
  {
    if pages == [] then 0
    else
      var rows := PageCandidates(pages[0], keyChannel);
      var here := RowsMaxCost(rows);
      var later := InputMaxCost(pages[1..], keyChannel);
      assert InputRows(pages, keyChannel) == Members(rows) + InputRows(pages[1..], keyChannel);
      if here >= later then
        if rows != [] then
          var i :| 0 <= i < |rows| && RowCost(rows[i]) == here;
          assert rows[i] in Members(rows);
          here
        else
          assert Members(rows) == {};
          here
      else
        later
  }

  // ---------------------------------------------------------------------------
  // The drain and the whole operator

  /** Empties the global queue head first (worst kept row first) and reverses
      what it removed, so rows come out best first under the caller's ordering. */
  method Drain(o: Ordering, global: seq<Candidate>) returns (out: seq<Candidate>)
    requires Ordered(o, global)
    ensures |out| == |global|
    ensures multiset(out) == multiset(global)
    ensures forall i, j | 0 <= i < j < |out| :: Rank(o, out[j].key) <= Rank(o, out[i].key)
  {
    var queue := global;
    var minSorted: seq<Candidate> := [];
    while |queue| > 0
      invariant Ordered(o, queue)
      invariant minSorted + queue == global
      decreases |queue|
    {
      var head := Peek(o, queue);
      var rest := Remove(o, queue);
      assert minSorted + [head] + rest == minSorted + ([head] + rest);
      minSorted := minSorted + [head];
      queue := rest;
    }
    assert minSorted == global;
    out := Reversed(minSorted);
    ReversedFacts(minSorted);
    ReversedDescends(o, minSorted);
  }

  function Reversed<T>(s: seq<T>): seq<T> {
    if s == [] then [] else Reversed(s[1..]) + [s[0]]
  }

  /** Reversing a queue's removal order turns ascending into descending. */
  lemma ReversedDescends(o: Ordering, s: seq<Candidate>)
    requires Ordered(o, s)
    ensures |Reversed(s)| == |s|
    ensures forall i, j | 0 <= i < j < |s| :: Rank(o, Reversed(s)[j].key) <= Rank(o, Reversed(s)[i].key)
  {
    ReversedFacts(s);
    var r := Reversed(s);
    forall i, j | 0 <= i < j < |s|
      ensures Rank(o, r[j].key) <= Rank(o, r[i].key)
    {
      assert r[i] == s[|s| - 1 - i] && r[j] == s[|s| - 1 - j];
    }
  }

  /** Reversal keeps the length and the elements, and mirrors the positions. */
  lemma {:induction false} ReversedFacts<T>(s: seq<T>)
    ensures |Reversed(s)| == |s|
    ensures multiset(Reversed(s)) == multiset(s)
    ensures forall i | 0 <= i < |s| :: Reversed(s)[i] == s[|s| - 1 - i]
  {
    if s != [] {
      ReversedFacts(s[1..]);
      assert s == [s[0]] + s[1..];
    }
  }

  /** The operator from first page to last row out. On success the rows come
      out best first, and their keys ARE the reference answer: the first
      min(n, total) keys of every page read, sorted ascending under the
      caller's ordering. Every row returned is a row that was read, and the
      bytes they hold plus their per-row overhead fit under the ceiling. The
      run aborts exactly when some page fails the ceiling check, and the rows
      returned are those the global queue holds after the last page. On
      pages whose blocks all hold one tuple per row, the only failure is the
      memory ceiling, and it cannot happen when the ceiling covers the
      overhead of n rows plus, for every row read, the largest row cost. */
  method SelectTopN(op: TopNOperator) returns (r: Result<seq<Candidate>>)
    requires op.Valid() && AllWellFormed(op.source.pages, op.keyChannel)
    ensures r.Ok? ==> Ranks(op.callerOrdering, r.value) == FirstN(InputKeys(op.callerOrdering, op.source.pages, op.keyChannel), op.n)
    ensures r.Ok? ==> |r.value| == Min(op.n, |InputKeys(op.callerOrdering, op.source.pages, op.keyChannel)|)
    ensures r.Ok? ==> Members(r.value) <= InputRows(op.source.pages, op.keyChannel)
    ensures r.Ok? ==> Footprint(r.value) + |r.value| * OverheadPerTuple <= op.maxSize
    ensures r.Err? ==> r.error == MemoryLimitExceeded(op.maxSize)
    ensures r.Ok? <==> Ingest(op, Initial, op.source.pages).Ok?
    ensures r.Ok? ==> multiset(r.value) == multiset(Ingest(op, Initial, op.source.pages).value.global)
    ensures (op.n * OverheadPerTuple
             + |InputKeys(op.callerOrdering, op.source.pages, op.keyChannel)| * InputMaxCost(op.source.pages, op.keyChannel)
             <= op.maxSize) ==> r.Ok?
  {
    var o, c := op.QueueOrdering(), op.callerOrdering;
    var b := InputMaxCost(op.source.pages, op.keyChannel);
    if op.n * OverheadPerTuple + |InputKeys(c, op.source.pages, op.keyChannel)| * b <= op.maxSize {
      IngestWithinCeiling(op, Initial, op.source.pages, b);
    }
    var ingested := Ingest(op, Initial, op.source.pages);
    if ingested.Err? {
      return Err(ingested.error);
    }
    var global := ingested.value.global;
    var out := Drain(o, global);
    DrainedIsReference(c, op.n, global, out, InputKeys(c, op.source.pages, op.keyChannel));
    FootprintPermutation(global, out);
    MembersPermuted(global, out);
    r := Ok(out);
  }

  /** The drained rows of a queue holding the first n of `keys` carry exactly
      the reference answer for `keys`, in order. */
  lemma DrainedIsReference(c: Ordering, n: nat, global: seq<Candidate>, out: seq<Candidate>, keys: seq<int>)
    requires multiset(out) == multiset(global)
    requires forall i, j | 0 <= i < j < |out| :: Rank(Reverse(c), out[j].key) <= Rank(Reverse(c), out[i].key)
    requires IsFirstN(Kept(Reverse(c), global), Kept(Reverse(c), Initial.global) + multiset(keys), n)
    ensures Ranks(c, out) == FirstN(keys, n)
    ensures |out| == Min(n, |keys|)
  {
    var ranks := Ranks(c, out);
    DrainAscends(c, out);
    KeptDrained(c, global, out);
    assert Kept(Reverse(c), Initial.global) + multiset(keys) == multiset(keys);
    IsFirstNIsReference(ranks, keys, n);
    assert |ranks| == |multiset(ranks)|;
  }

  /** Draining keeps the caller-order ranks of the queue's rows. */
  lemma KeptDrained(c: Ordering, global: seq<Candidate>, out: seq<Candidate>)
    requires multiset(out) == multiset(global)
    ensures Kept(Reverse(c), global) == multiset(Ranks(c, out))
  {
    RanksPermutation(Reverse(Reverse(c)), global, out);
    DoubleReverse(c, out);
  }

  /** Rows with the same multiplicities are the same set of rows. */
  lemma MembersPermuted<P>(s: seq<Keyed<P>>, t: seq<Keyed<P>>)
    requires multiset(s) == multiset(t)
    ensures Members(s) == Members(t)
  {
    forall x ensures x in s <==> x in t {
      assert x in s <==> x in multiset(s);
      assert x in t <==> x in multiset(t);
    }
  }

  /** Rows in descending queue order are ascending under the caller's ordering. */
  lemma DrainAscends(c: Ordering, out: seq<Candidate>)
    requires forall i, j | 0 <= i < j < |out| :: Rank(Reverse(c), out[j].key) <= Rank(Reverse(c), out[i].key)
    ensures Ascending(Ranks(c, out))
  {
  }

  /** Reversing an ordering twice ranks every entry as the ordering does. */
  lemma DoubleReverse<P>(c: Ordering, q: seq<Keyed<P>>)
    ensures Ranks(Reverse(Reverse(c)), q) == Ranks(c, q)
  {
    forall i | 0 <= i < |q|
      ensures Ranks(Reverse(Reverse(c)), q)[i] == Ranks(c, q)[i]
    {
      assert Rank(Reverse(Reverse(c)), q[i].key) == -Rank(Reverse(c), q[i].key);
    }
  }
}
