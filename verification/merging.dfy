/** The global merge: a page's surviving references are visited in position
    order, their rows materialised and offered to the global queue, and the
    byte-size change of the rows held is accumulated. */
module Merging {
  import opened Results
  import opened Orderings
  import opened Selection
  import opened PriorityQueues
  import opened Pages

  // ---------------------------------------------------------------------------
  // Position order

  /** References in ascending position order. */
  predicate PositionSorted(refs: seq<Ref>) {
    forall i, j | 0 <= i < j < |refs| :: refs[i].payload <= refs[j].payload
  }

  function InsertByPosition(e: Ref, refs: seq<Ref>): (r: seq<Ref>)
    requires PositionSorted(refs)
    ensures PositionSorted(r)
    ensures multiset(r) == multiset(refs) + multiset{e}
    ensures |r| == |refs| + 1
    ensures r[0] == e || (|refs| > 0 && r[0] == refs[0])
  {
    if refs == [] || e.payload <= refs[0].payload then [e] + refs
    else
      var rest := InsertByPosition(e, refs[1..]);
      InsertBehindByPosition(e, refs, rest);
      [refs[0]] + rest
  }

  /** The first reference stays in front of the rest with a later one inserted. */
  lemma InsertBehindByPosition(e: Ref, refs: seq<Ref>, rest: seq<Ref>)
    requires PositionSorted(refs) && |refs| > 0 && refs[0].payload <= e.payload
    requires PositionSorted(rest) && |rest| == |refs|
    requires multiset(rest) == multiset(refs[1..]) + multiset{e}
    requires rest[0] == e || (|refs| > 1 && rest[0] == refs[1])
    ensures PositionSorted([refs[0]] + rest)
    ensures multiset([refs[0]] + rest) == multiset(refs) + multiset{e}
  {
    var r := [refs[0]] + rest;
    forall i, j | 0 <= i < j < |r|
      ensures r[i].payload <= r[j].payload
    {
      if i == 0 {
        assert r[j] == rest[j - 1] && rest[0].payload <= rest[j - 1].payload;
      } else {
        assert r[i] == rest[i - 1] && r[j] == rest[j - 1];
      }
    }
    assert refs == [refs[0]] + refs[1..];
  }

  /** The references rearranged into ascending position order. */
  function SortByPosition(refs: seq<Ref>): (r: seq<Ref>)
    ensures PositionSorted(r)
    ensures multiset(r) == multiset(refs)
  {
    if refs == [] then []
    else
      assert refs == [refs[0]] + refs[1..];
      InsertByPosition(refs[0], SortByPosition(refs[1..]))
  }

  /** Every channel cursor, starting before the first row, can be advanced
      forward to each referenced position in turn. */
  predicate CursorsAdvance(refs: seq<Ref>, positionCount: nat) {
    forall i | 0 <= i < |refs| ::
      (if i == 0 then -1 else refs[i - 1].payload) <= refs[i].payload < positionCount
  }

  /** Reordering references keeps them within the page. */
  lemma WithinPagePermuted(refs: seq<Ref>, sorted: seq<Ref>, positionCount: nat)
    requires multiset(sorted) == multiset(refs)
    ensures WithinPage(refs, positionCount) ==> WithinPage(sorted, positionCount)
  {
    if WithinPage(refs, positionCount) {
      forall k | 0 <= k < |sorted|
        ensures sorted[k].payload < positionCount
      {
        assert sorted[k] in multiset(refs);
        var j :| 0 <= j < |refs| && refs[j] == sorted[k];
      }
    }
  }

  /** Cursors reach every position of position-sorted references within the
      page, and only of references within it. */
  lemma SortedWithinAdvance(sorted: seq<Ref>, positionCount: nat)
    requires PositionSorted(sorted)
    ensures WithinPage(sorted, positionCount) <==> CursorsAdvance(sorted, positionCount)
  {
  }

  // ---------------------------------------------------------------------------
  // Materialisation and bytes

  /** The tuples of a referenced row; the key channel's tuple is the
      reference's own key. When the key was read at that position, this is
      exactly the row. */
  function GetTuples(keyChannel: nat, ref: Ref, page: Page): (tuples: seq<Tuple>)
    requires WellFormed(page, keyChannel) && ref.payload < page.positionCount
    ensures |tuples| == |page.blocks|
    ensures tuples[keyChannel] == ref.key
  {
    TuplesFrom(keyChannel, ref, page, 0)
  }

  /** The tuples of channels `ch` onwards, one per channel in channel order. */
  function TuplesFrom(keyChannel: nat, ref: Ref, page: Page, ch: nat): (tuples: seq<Tuple>)
    requires WellFormed(page, keyChannel) && ref.payload < page.positionCount && ch <= |page.blocks|
    ensures |tuples| == |page.blocks| - ch
    ensures ch <= keyChannel ==> tuples[keyChannel - ch] == ref.key
    decreases |page.blocks| - ch
  {
    if ch == |page.blocks| then []
    else [if ch == keyChannel then ref.key else page.blocks[ch][ref.payload]] + TuplesFrom(keyChannel, ref, page, ch + 1)
  }

  /** Channel `ch + i` of the tuples from `ch` onwards is the key for the key
      channel and the row's own tuple for every other channel. */
  lemma {:induction false} TuplesFromAt(keyChannel: nat, ref: Ref, page: Page, ch: nat, i: nat)
    requires WellFormed(page, keyChannel) && ref.payload < page.positionCount && ch + i < |page.blocks|
    ensures TuplesFrom(keyChannel, ref, page, ch)[i]
      == if ch + i == keyChannel then ref.key else page.blocks[ch + i][ref.payload]
    decreases i
  {
    if i > 0 {
      TuplesFromAt(keyChannel, ref, page, ch + 1, i - 1);
    }
  }

  /** When the reference's key was read at its position, the materialised
      tuples are exactly the row at that position. */
  lemma GetTuplesIsRow(keyChannel: nat, ref: Ref, page: Page)
    requires WellFormed(page, keyChannel) && ref.payload < page.positionCount
    requires ref.key == page.blocks[keyChannel][ref.payload]
    ensures GetTuples(keyChannel, ref, page) == RowAt(page, ref.payload)
  {
    var tuples, row := GetTuples(keyChannel, ref, page), RowAt(page, ref.payload);
    forall ch | 0 <= ch < |row|
      ensures tuples[ch] == row[ch]
    {
      TuplesFromAt(keyChannel, ref, page, 0, ch);
    }
  }

  /** Sum of the byte sizes of some tuples. */
  function TupleBytes(tuples: seq<Tuple>): nat {
    if tuples == [] then 0 else tuples[0].size + TupleBytes(tuples[1..])
  }

  /** Bytes held by the materialised rows of a queue. */
  function Footprint(global: seq<Candidate>): nat {
    if global == [] then 0 else TupleBytes(global[0].payload) + Footprint(global[1..])
  }

  lemma {:induction false} FootprintAppend(s: seq<Candidate>, t: seq<Candidate>)
    ensures Footprint(s + t) == Footprint(s) + Footprint(t)
    decreases |s|
  {
    if s != [] {
      var st := s + t;
      assert st != [] && st[0] == s[0] && st[1..] == s[1..] + t;
      FootprintAppend(s[1..], t);
      assert Footprint(st) == TupleBytes(st[0].payload) + Footprint(st[1..]);
    } else {
      assert s + t == t;
    }
  }

  /** The bytes held do not depend on the order of the rows. */
  lemma {:induction false} FootprintPermutation(s: seq<Candidate>, t: seq<Candidate>)
    requires multiset(s) == multiset(t)
    ensures Footprint(s) == Footprint(t)
    decreases |s|
  {
    if s == [] {
      assert |t| == |multiset(t)| == 0;
    } else {
      var i := FindFirst(s, t);
      FootprintPermutation(s[1..], t[..i] + t[i + 1..]);
      FootprintTakeOut(t, i);
      assert Footprint(s) == TupleBytes(s[0].payload) + Footprint(s[1..]);
    }
  }

  /** The bytes of a sequence are those of one row plus those of the others. */
  lemma FootprintTakeOut(t: seq<Candidate>, i: nat)
    requires i < |t|
    ensures Footprint(t) == TupleBytes(t[i].payload) + Footprint(t[..i] + t[i + 1..])
  {
    SplitAround(t, i);
    FootprintAppend(t[..i], [t[i]] + t[i + 1..]);
    FootprintAppend(t[..i], t[i + 1..]);
    FootprintCons(t[i], t[i + 1..]);
  }

  /** A sequence is what comes before a position, its element, and what follows. */
  lemma SplitAround<T>(t: seq<T>, i: nat)
    requires i < |t|
    ensures t == t[..i] + ([t[i]] + t[i + 1..])
  {
  }

  /** The bytes of a row in front of others. */
  lemma FootprintCons(x: Candidate, rest: seq<Candidate>)
    ensures Footprint([x] + rest) == TupleBytes(x.payload) + Footprint(rest)
  {
    assert ([x] + rest)[1..] == rest;
  }

  /** Adding a row adds its bytes. */
  lemma AddBytes(o: Ordering, q: seq<Candidate>, e: Candidate)
    requires Ordered(o, q)
    ensures Footprint(Add(o, q, e)) == Footprint(q) + TupleBytes(e.payload)
  {
    FootprintPermutation(Add(o, q, e), q + [e]);
    FootprintAppend(q, [e]);
  }

  // ---------------------------------------------------------------------------
  // Offering rows to the global queue

  /** A global queue together with the change in its byte estimate that
      produced it. */
  datatype Merged = Merged(global: seq<Candidate>, sizeDelta: int)

  /** Offers one reference, whose row the cursors are at, to the global queue:
      admitted while the queue has room; when full, admitted only if strictly
      better than the head, which it evicts; otherwise nothing changes. The
      queue keeps the first n keys, under the caller's ordering, of what it
      held and the offered key. */
  function Offer(o: Ordering, n: nat, keyChannel: nat, page: Page, ref: Ref, global: seq<Candidate>): (s: Merged)
    requires n > 0 && Ordered(o, global) && |global| <= n
    requires WellFormed(page, keyChannel) && ref.payload < page.positionCount
    ensures Ordered(o, s.global) && |s.global| <= n
  {
    var candidate := Keyed(ref.key, GetTuples(keyChannel, ref, page));
    if |global| < n then
      Merged(Add(o, global, candidate), TupleBytes(candidate.payload))
    else if Compare(o, ref.key, Peek(o, global).key) > 0 then
      var previous := Peek(o, global);
      var rest := Remove(o, global);
      Merged(Add(o, rest, candidate), (TupleBytes(candidate.payload) + ref.key.size) as int - TupleBytes(previous.payload))
    else
      Merged(global, 0)
  }

  /** An offer to a queue with room adds the materialised row; an offer that
      beats the head of a full queue replaces the head by it; any other offer
      changes nothing, bytes included. */
  lemma OfferContents(o: Ordering, n: nat, keyChannel: nat, page: Page, ref: Ref, global: seq<Candidate>)
    requires n > 0 && Ordered(o, global) && |global| <= n
    requires WellFormed(page, keyChannel) && ref.payload < page.positionCount
    ensures var s := Offer(o, n, keyChannel, page, ref, global);
      var candidate := Keyed(ref.key, GetTuples(keyChannel, ref, page));
      && (|global| < n ==> multiset(s.global) == multiset(global) + multiset{candidate})
      && (Replaces(o, n, ref, global) ==>
            multiset(s.global) == multiset(global) - multiset{Peek(o, global)} + multiset{candidate})
      && (|global| == n && !Replaces(o, n, ref, global) ==> s == Merged(global, 0))
  {
    if Replaces(o, n, ref, global) {
      var rest := Remove(o, global);
      assert multiset(rest) == multiset(global) - multiset{Peek(o, global)} by {
        assert global == [Peek(o, global)] + rest;
      }
    }
  }

  /** After an offer the queue keeps the first n keys, under the caller's
      ordering, of what it held and the offered key. */
  lemma OfferKeepsFirstN(o: Ordering, n: nat, keyChannel: nat, page: Page, ref: Ref, global: seq<Candidate>)
    requires n > 0 && Ordered(o, global) && |global| <= n
    requires WellFormed(page, keyChannel) && ref.payload < page.positionCount
    ensures IsFirstN(Kept(o, Offer(o, n, keyChannel, page, ref, global).global),
                     Kept(o, global) + multiset{Rank(Reverse(o), ref.key)}, n)
  {
    var candidate := Keyed(ref.key, GetTuples(keyChannel, ref, page));
    if |global| < n {
      AddKeepsFirstN(o, global, candidate, n);
    } else if Compare(o, ref.key, Peek(o, global).key) > 0 {
      ReplaceKeepsFirstN(o, global, candidate, n);
    } else {
      RejectKeepsFirstN(o, global, candidate, n);
    }
  }

  /** Whether an offer evicts the head of a full queue. */
  predicate Replaces(o: Ordering, n: nat, ref: Ref, global: seq<Candidate>)
    requires Ordered(o, global)
  {
    |global| == n > 0 && Compare(o, ref.key, Peek(o, global).key) > 0
  }

  /** The most one row can add to the estimate: the bytes of its tuples, and
      its key's bytes once more should it evict another row. */
  function RowCost(x: Candidate): nat {
    TupleBytes(x.payload) + x.key.size
  }

  /** The byte-size change of an offer is the change in bytes held, plus the
      key's own size again when the offer evicts; it is never more than the
      cost of the offered row. */
  lemma OfferBytes(o: Ordering, n: nat, keyChannel: nat, page: Page, ref: Ref, global: seq<Candidate>)
    requires n > 0 && Ordered(o, global) && |global| <= n
    requires WellFormed(page, keyChannel) && ref.payload < page.positionCount
    ensures var s := Offer(o, n, keyChannel, page, ref, global);
      s.sizeDelta == Footprint(s.global) - Footprint(global) + (if Replaces(o, n, ref, global) then ref.key.size else 0)
    ensures Offer(o, n, keyChannel, page, ref, global).sizeDelta <= RowCost(Keyed(ref.key, GetTuples(keyChannel, ref, page)))
  {
    var candidate := Keyed(ref.key, GetTuples(keyChannel, ref, page));
    if |global| < n {
      AddBytes(o, global, candidate);
    } else if Compare(o, ref.key, Peek(o, global).key) > 0 {
      AddBytes(o, Remove(o, global), candidate);
    }
  }

  /** The rows of a queue, as a set. */
  ghost function Members<P>(q: seq<Keyed<P>>): set<Keyed<P>> {
    set x | x in q
  }

  lemma MembersOfBag<P>(q: seq<Keyed<P>>, r: seq<Keyed<P>>, c: Keyed<P>)
    requires multiset(q) <= multiset(r) + multiset{c}
    ensures Members(q) <= Members(r) + {c}
  {
    forall x | x in q
      ensures x in r || x == c
    {
      assert x in multiset(q);
    }
  }

  /** An offer of a reference that carries its row's key keeps only rows
      that were held or that are rows of the page. */
  lemma OfferRows(o: Ordering, n: nat, keyChannel: nat, page: Page, ref: Ref, global: seq<Candidate>)
    requires n > 0 && Ordered(o, global) && |global| <= n
    requires WellFormed(page, keyChannel) && ref.payload < page.positionCount
    requires ref.key == page.blocks[keyChannel][ref.payload]
    ensures Members(Offer(o, n, keyChannel, page, ref, global).global) <= Members(global) + Members(PageCandidates(page, keyChannel))
  {
    var candidate := Keyed(ref.key, GetTuples(keyChannel, ref, page));
    GetTuplesIsRow(keyChannel, ref, page);
    OfferContents(o, n, keyChannel, page, ref, global);
    assert candidate == PageCandidates(page, keyChannel)[ref.payload];
    var s := Offer(o, n, keyChannel, page, ref, global);
    if |global| == n && Compare(o, ref.key, Peek(o, global).key) <= 0 {
    } else {
      MembersOfBag(s.global, global, candidate);
    }
  }

  /** The key bytes charged once more by the offers that evict, when the
      references are offered in turn starting from `global`. */
  function EvictionKeyBytes(o: Ordering, n: nat, keyChannel: nat, page: Page, refs: seq<Ref>, global: seq<Candidate>): nat
    requires n > 0 && Ordered(o, global) && |global| <= n && WellFormed(page, keyChannel)
    requires WithinPage(refs, page.positionCount)
    decreases |refs|
  {
    if refs == [] then 0
    else
      WithinPageTail(refs, page, keyChannel);
      var step := Offer(o, n, keyChannel, page, refs[0], global);
      (if Replaces(o, n, refs[0], global) then refs[0].key.size else 0)
        + EvictionKeyBytes(o, n, keyChannel, page, refs[1..], step.global)
  }

  /** The cost of the referenced rows, each as it would be materialised. */
  function RefsCost(keyChannel: nat, page: Page, refs: seq<Ref>): nat
    requires WellFormed(page, keyChannel) && WithinPage(refs, page.positionCount)
    decreases |refs|
  {
    if refs == [] then 0
    else
      WithinPageTail(refs, page, keyChannel);
      RowCost(Keyed(refs[0].key, GetTuples(keyChannel, refs[0], page))) + RefsCost(keyChannel, page, refs[1..])
  }

  /** References to rows of the page that each cost at most `b` cost at most
      `b` apiece. */
  lemma {:induction false} RefsCostBound(keyChannel: nat, page: Page, refs: seq<Ref>, b: nat)
    requires WellFormed(page, keyChannel) && RowRefs(refs, page, keyChannel)
    requires forall x | x in Members(PageCandidates(page, keyChannel)) :: RowCost(x) <= b
    ensures RefsCost(keyChannel, page, refs) <= |refs| * b
    decreases |refs|
  {
    if refs != [] {
      WithinPageTail(refs, page, keyChannel);
      GetTuplesIsRow(keyChannel, refs[0], page);
      assert Keyed(refs[0].key, GetTuples(keyChannel, refs[0], page)) == PageCandidates(page, keyChannel)[refs[0].payload];
      RefsCostBound(keyChannel, page, refs[1..], b);
      assert |refs| * b == (|refs| - 1) * b + b;
    }
  }

  /** Offers the references in order, accumulating the byte-size change. The
      queue ends with the first n keys, under the caller's ordering, of what
      it held and all the offered keys; the accumulated change is exactly the
      change in bytes held plus the key bytes charged again on eviction, and
      at most the cost of the offered rows; and when every reference carries
      its row's key, every row kept was held before or is a row of the page. */
  function OfferAll(o: Ordering, n: nat, keyChannel: nat, page: Page, refs: seq<Ref>,
                    global: seq<Candidate>, sizeDelta: int): (m: Merged)
    requires n > 0 && Ordered(o, global) && |global| <= n && WellFormed(page, keyChannel)
    requires WithinPage(refs, page.positionCount)
    ensures Ordered(o, m.global) && |m.global| <= n
    ensures IsFirstN(Kept(o, m.global), Kept(o, global) + multiset(Ranks(Reverse(o), refs)), n)
    ensures m.sizeDelta - sizeDelta ==
      Footprint(m.global) - Footprint(global) + EvictionKeyBytes(o, n, keyChannel, page, refs, global)
    ensures m.sizeDelta - sizeDelta <= RefsCost(keyChannel, page, refs)
    ensures RowRefs(refs, page, keyChannel) ==>
      Members(m.global) <= Members(global) + Members(PageCandidates(page, keyChannel))
    decreases |refs|
  {
    if refs == [] then
      assert Ranks(Reverse(o), refs) == [];
      FirstNOfFew(Kept(o, global), n);
      Merged(global, sizeDelta)
    else
      var c := Reverse(o);
      var step := Offer(o, n, keyChannel, page, refs[0], global);
      OfferKeepsFirstN(o, n, keyChannel, page, refs[0], global);
      OfferBytes(o, n, keyChannel, page, refs[0], global);
      if RowRefs(refs, page, keyChannel) then
        OfferRows(o, n, keyChannel, page, refs[0], global);
        OfferAllRest(o, n, keyChannel, page, refs, global, step, sizeDelta)
      else
        OfferAllRest(o, n, keyChannel, page, refs, global, step, sizeDelta)
  }

  /** The rest of `OfferAll` after the first reference has been offered. */
  function OfferAllRest(o: Ordering, n: nat, keyChannel: nat, page: Page, refs: seq<Ref>,
                        global: seq<Candidate>, step: Merged, sizeDelta: int): (m: Merged)
    requires n > 0 && Ordered(o, global) && |global| <= n && WellFormed(page, keyChannel)
    requires WithinPage(refs, page.positionCount) && refs != []
    requires Ordered(o, step.global) && |step.global| <= n
    requires IsFirstN(Kept(o, step.global), Kept(o, global) + multiset{Rank(Reverse(o), refs[0].key)}, n)
    requires step == Offer(o, n, keyChannel, page, refs[0], global)
    requires step.sizeDelta == Footprint(step.global) - Footprint(global)
                               + (if Replaces(o, n, refs[0], global) then refs[0].key.size else 0)
    requires step.sizeDelta <= RowCost(Keyed(refs[0].key, GetTuples(keyChannel, refs[0], page)))
    requires RowRefs(refs, page, keyChannel) ==>
      Members(step.global) <= Members(global) + Members(PageCandidates(page, keyChannel))
    ensures Ordered(o, m.global) && |m.global| <= n
    ensures IsFirstN(Kept(o, m.global), Kept(o, global) + multiset(Ranks(Reverse(o), refs)), n)
    ensures m.sizeDelta - sizeDelta ==
      Footprint(m.global) - Footprint(global) + EvictionKeyBytes(o, n, keyChannel, page, refs, global)
    ensures m.sizeDelta - sizeDelta <= RefsCost(keyChannel, page, refs)
    ensures RowRefs(refs, page, keyChannel) ==>
      Members(m.global) <= Members(global) + Members(PageCandidates(page, keyChannel))
    decreases |refs|, 0
  {
    var c := Reverse(o);
    WithinPageTail(refs, page, keyChannel);
    var m := OfferAll(o, n, keyChannel, page, refs[1..], step.global, sizeDelta + step.sizeDelta);
    RanksConsAfter(c, refs, Kept(o, global));
    FirstNComposeInto(Kept(o, step.global), Kept(o, global) + multiset{Rank(c, refs[0].key)},
                      Kept(o, m.global), multiset(Ranks(c, refs[1..])), Kept(o, global) + multiset(Ranks(c, refs)), n);
    m
  }

  /** Dropping the first reference keeps the rest within the page, and
      references to their rows. */
  lemma WithinPageTail(refs: seq<Ref>, page: Page, keyChannel: nat)
    requires WellFormed(page, keyChannel) && WithinPage(refs, page.positionCount) && refs != []
    ensures WithinPage(refs[1..], page.positionCount)
    ensures RowRefs(refs, page, keyChannel) ==> RowRefs(refs[1..], page, keyChannel)
  {
    assert forall k | 0 <= k < |refs| - 1 :: refs[1..][k] == refs[k + 1];
  }

  lemma RanksConsAfter<P>(c: Ordering, q: seq<Keyed<P>>, g: multiset<int>)
    requires |q| > 0
    ensures g + multiset(Ranks(c, q)) == (g + multiset{Rank(c, q[0].key)}) + multiset(Ranks(c, q[1..]))
  {
    RanksCons(c, q);
  }

  /** Reordering references keeps them references to their rows. */
  lemma RowRefsPermuted(refs: seq<Ref>, sorted: seq<Ref>, page: Page, keyChannel: nat)
    requires WellFormed(page, keyChannel) && multiset(sorted) == multiset(refs)
    ensures RowRefs(refs, page, keyChannel) ==> RowRefs(sorted, page, keyChannel)
  {
    if RowRefs(refs, page, keyChannel) {
      forall k | 0 <= k < |sorted|
        ensures sorted[k].payload < page.positionCount
        ensures sorted[k].key == page.blocks[keyChannel][sorted[k].payload]
      {
        assert sorted[k] in multiset(refs);
        var j :| 0 <= j < |refs| && refs[j] == sorted[k];
      }
    }
  }

  // ---------------------------------------------------------------------------
  // The merge

  /** Merges a page's references into the global queue in ascending position
      order, so that each cursor only moves forward; a cursor that cannot
      reach its position is an invariant failure, which aborts the operator. */
  function MergeWithGlobalCandidates(o: Ordering, n: nat, keyChannel: nat, global: seq<Candidate>,
                                     page: Page, refs: seq<Ref>): (r: Result<Merged>)
    requires n > 0 && Ordered(o, global) && |global| <= n && WellFormed(page, keyChannel)
    ensures r.Ok? <==> WithinPage(refs, page.positionCount)
    ensures r.Err? ==> r.error == CursorAdvanceFailed
    ensures r.Ok? ==> Ordered(o, r.value.global) && |r.value.global| <= n
    ensures r.Ok? ==> IsFirstN(Kept(o, r.value.global), Kept(o, global) + multiset(Ranks(Reverse(o), refs)), n)
    ensures r.Ok? ==>
      r.value.sizeDelta == Footprint(r.value.global) - Footprint(global) + MergeEvictionKeyBytes(o, n, keyChannel, global, page, refs)
    ensures RowRefs(refs, page, keyChannel) ==>
      r.Ok? && Members(r.value.global) <= Members(global) + Members(PageCandidates(page, keyChannel))
  {
    var sorted := SortByPosition(refs);
    WithinPagePermuted(refs, sorted, page.positionCount);
    WithinPagePermuted(sorted, refs, page.positionCount);
    RowRefsPermuted(refs, sorted, page, keyChannel);
    SortedWithinAdvance(sorted, page.positionCount);
    if CursorsAdvance(sorted, page.positionCount) then
      RanksPermutation(Reverse(o), sorted, refs);
      Ok(OfferAll(o, n, keyChannel, page, sorted, global, 0))
    else
      Err(CursorAdvanceFailed)
  }

  /** The key bytes charged again by the evicting offers of a merge, which
      offers the references in position order. */
  function MergeEvictionKeyBytes(o: Ordering, n: nat, keyChannel: nat, global: seq<Candidate>,
                                 page: Page, refs: seq<Ref>): nat
    requires n > 0 && Ordered(o, global) && |global| <= n && WellFormed(page, keyChannel)
    requires WithinPage(refs, page.positionCount)
  {
    var sorted := SortByPosition(refs);
    WithinPagePermuted(refs, sorted, page.positionCount);
    EvictionKeyBytes(o, n, keyChannel, page, sorted, global)
  }

  /** Merging references to rows that each cost at most `b` changes the
      estimate by at most `b` per reference. */
  lemma MergeCost(o: Ordering, n: nat, keyChannel: nat, global: seq<Candidate>, page: Page, refs: seq<Ref>, b: nat)
    requires n > 0 && Ordered(o, global) && |global| <= n && WellFormed(page, keyChannel)
    requires RowRefs(refs, page, keyChannel)
    requires forall x | x in Members(PageCandidates(page, keyChannel)) :: RowCost(x) <= b
    ensures MergeWithGlobalCandidates(o, n, keyChannel, global, page, refs).Ok?
    ensures MergeWithGlobalCandidates(o, n, keyChannel, global, page, refs).value.sizeDelta <= |refs| * b
  {
    var sorted := SortByPosition(refs);
    RowRefsPermuted(refs, sorted, page, keyChannel);
    RefsCostBound(keyChannel, page, sorted, b);
    assert |sorted| == |multiset(sorted)| == |refs|;
  }
}
