/** The per-page pruning pass: one scan of a page's key block that keeps, in
    a page queue bounded to n entries, the keys that could still enter the
    global queue. */
module Pruning {
  import opened Orderings
  import opened Selection
  import opened PriorityQueues
  import opened Pages

  /** The references of one page worth offering to the global queue: at most
      `n`, and no more than the page has rows, each naming a different a real position and carrying that position's key, and,
      when the global queue is full, each strictly better than its head.
      Every key passed over is no better than the global head (when the
      global queue is full) or no better than anything kept (when the page
      queue is full), so nothing that could enter the global queue is lost. */
  function ComputePageCandidatePositions(o: Ordering, n: nat, global: seq<Candidate>, keyBlock: seq<Tuple>): (refs: seq<Ref>)
    requires n > 0 && Ordered(o, global)
    ensures Ordered(o, refs) && |refs| <= n && |refs| <= |keyBlock|
    ensures forall i | 0 <= i < |refs| ::
      refs[i].payload < |keyBlock| && refs[i].key == keyBlock[refs[i].payload]
    ensures forall i, j | 0 <= i < j < |refs| :: refs[i].payload != refs[j].payload
    ensures |global| >= n ==> forall i | 0 <= i < |refs| :: Compare(o, refs[i].key, Peek(o, global).key) > 0
    ensures Covered(multiset(KeyRanks(Reverse(o), keyBlock)), Kept(o, refs), |global| >= n, Worst(o, global), |refs| == n)
  {
    assert keyBlock[..0] == [];
    assert keyBlock[..|keyBlock|] == keyBlock;
    var refs := PruneFrom(o, n, global, keyBlock, 0, []);
    refs
  }

  /** Every key seen but not kept either sorts no earlier than `h`, the worst
      row of a full global queue, or sorts no earlier than anything kept by a
      full page queue. Ranks are under the caller's ordering. */
  ghost predicate Covered(seen: multiset<int>, kept: multiset<int>, globalFull: bool, h: int, localFull: bool) {
    && kept <= seen
    && forall y | y in seen - kept ::
         || (globalFull && h <= y)
         || (localFull && forall x | x in kept :: x <= y)
  }

  /** The caller-order rank of the worst row a non-empty global queue keeps. */
  function Worst(o: Ordering, global: seq<Candidate>): int
    requires Ordered(o, global)
  {
    if |global| == 0 then 0 else Rank(Reverse(o), Peek(o, global).key)
  }

  /** A reference the page queue may hold after scanning positions before `p`. */
  predicate LocalRef(o: Ordering, n: nat, global: seq<Candidate>, keyBlock: seq<Tuple>, p: nat, e: Ref)
    requires Ordered(o, global)
  {
    && e.payload < p && e.payload < |keyBlock| && e.key == keyBlock[e.payload]
    && (|global| >= n > 0 ==> Compare(o, e.key, Peek(o, global).key) > 0)
  }

  /** What the page queue may hold after scanning positions before `p`. */
  predicate LocalRefs(o: Ordering, n: nat, global: seq<Candidate>, keyBlock: seq<Tuple>, p: nat, local: seq<Ref>)
    requires Ordered(o, global)
  {
    && Ordered(o, local) && |local| <= n && |local| <= p && NoRepeats(local)
    && forall i | 0 <= i < |local| :: LocalRef(o, n, global, keyBlock, p, local[i])
  }

  /** No entry occurs twice. */
  predicate NoRepeats<T(==)>(s: seq<T>) {
    forall i, j | 0 <= i < j < |s| :: s[i] != s[j]
  }

  /** An entry at two indices occurs at least twice. */
  lemma RepeatCount<T>(s: seq<T>, i: nat, j: nat)
    requires i < j < |s| && s[i] == s[j]
    ensures multiset(s)[s[i]] >= 2
  {
    assert s == s[..j] + [s[j]] + s[j + 1..];
    assert s[..j][i] == s[i];
  }

  /** In a sequence without repeats nothing occurs more than once. */
  lemma {:induction false} NoRepeatsCount<T>(s: seq<T>, x: T)
    requires NoRepeats(s)
    ensures multiset(s)[x] <= 1
    decreases |s|
  {
    if s != [] {
      assert s == [s[0]] + s[1..];
      assert forall i, j | 0 <= i < j < |s| - 1 :: s[1..][i] == s[i + 1] && s[1..][j] == s[j + 1];
      NoRepeatsCount(s[1..], x);
      if s[0] == x {
        assert forall k | 0 <= k < |s| - 1 :: s[1..][k] == s[k + 1] != s[0];
        assert x !in s[1..];
      }
    }
  }

  /** Adding an entry the queue lacks keeps it without repeats. */
  lemma AddFresh<P>(o: Ordering, q: seq<Keyed<P>>, e: Keyed<P>)
    requires Ordered(o, q) && NoRepeats(q) && e !in q
    ensures NoRepeats(Add(o, q, e))
  {
    var r := Add(o, q, e);
    assert multiset(q)[e] == 0;
    forall i, j | 0 <= i < j < |r|
      ensures r[i] != r[j]
    {
      if r[i] == r[j] {
        RepeatCount(r, i, j);
        NoRepeatsCount(q, r[i]);
      }
    }
  }

  /** The covering property of the page queue after scanning `keyBlock[..p]`. */
  ghost predicate PruneCovers(o: Ordering, n: nat, global: seq<Candidate>, keyBlock: seq<Tuple>, p: nat, local: seq<Ref>)
    requires Ordered(o, global) && p <= |keyBlock|
  {
    Covered(multiset(KeyRanks(Reverse(o), keyBlock[..p])), Kept(o, local), |global| >= n, Worst(o, global), |local| == n)
  }

  /** The scan of the key block from position `p` on. */
  function PruneFrom(o: Ordering, n: nat, global: seq<Candidate>, keyBlock: seq<Tuple>, p: nat, local: seq<Ref>): (refs: seq<Ref>)
    requires n > 0 && Ordered(o, global) && p <= |keyBlock|
    requires LocalRefs(o, n, global, keyBlock, p, local)
    requires PruneCovers(o, n, global, keyBlock, p, local)
    ensures LocalRefs(o, n, global, keyBlock, |keyBlock|, refs)
    ensures PruneCovers(o, n, global, keyBlock, |keyBlock|, refs)
    decreases |keyBlock| - p
  {
    if p == |keyBlock| then local
    else
      PruneStepAdmits(o, n, global, keyBlock, p, local);
      PruneStepCovers(o, n, global, keyBlock, p, local);
      PruneFrom(o, n, global, keyBlock, p + 1, PruneStep(o, n, global, keyBlock, p, local))
  }

  /** One cursor position: skip a key that cannot beat the global head, else
      keep it while the page queue has room, else let it displace the page
      queue's head only if strictly better. */
  function PruneStep(o: Ordering, n: nat, global: seq<Candidate>, keyBlock: seq<Tuple>, p: nat, local: seq<Ref>): (local': seq<Ref>)
    requires n > 0 && Ordered(o, global) && p < |keyBlock|
    requires Ordered(o, local) && |local| <= n
    ensures Ordered(o, local') && |local'| <= n
  {
    var key := keyBlock[p];
    if |global| < n || Compare(o, key, Peek(o, global).key) > 0 then
      if |local| < n then Add(o, local, Keyed(key, p))
      else if Compare(o, key, Peek(o, local).key) > 0 then Add(o, Remove(o, local), Keyed(key, p))
      else local
    else local
  }

  /** Adding an admissible reference to admissible references leaves only
      admissible references. */
  lemma AddLocal(o: Ordering, n: nat, global: seq<Candidate>, keyBlock: seq<Tuple>, p: nat, local: seq<Ref>, e: Ref)
    requires Ordered(o, global) && Ordered(o, local)
    requires forall i | 0 <= i < |local| :: LocalRef(o, n, global, keyBlock, p, local[i])
    requires LocalRef(o, n, global, keyBlock, p, e)
    ensures forall i | 0 <= i < |Add(o, local, e)| :: LocalRef(o, n, global, keyBlock, p, Add(o, local, e)[i])
  {
    var r := Add(o, local, e);
    forall i | 0 <= i < |r|
      ensures LocalRef(o, n, global, keyBlock, p, r[i])
    {
      assert r[i] in multiset(local) + multiset{e};
      if r[i] != e {
        assert r[i] in multiset(local);
        var j :| 0 <= j < |local| && local[j] == r[i];
      }
    }
  }

  /** A step keeps only references admissible after one more position. */
  lemma PruneStepAdmits(o: Ordering, n: nat, global: seq<Candidate>, keyBlock: seq<Tuple>, p: nat, local: seq<Ref>)
    requires n > 0 && Ordered(o, global) && p < |keyBlock|
    requires LocalRefs(o, n, global, keyBlock, p, local)
    ensures LocalRefs(o, n, global, keyBlock, p + 1, PruneStep(o, n, global, keyBlock, p, local))
  {
    var key := keyBlock[p];
    LaterPosition(o, n, global, keyBlock, p, local);
    assert Keyed(key, p) !in local by {
      assert forall i | 0 <= i < |local| :: local[i].payload < p;
    }
    if |global| < n || Compare(o, key, Peek(o, global).key) > 0 {
      if |local| < n {
        AddLocal(o, n, global, keyBlock, p + 1, local, Keyed(key, p));
        AddFresh(o, local, Keyed(key, p));
      } else if Compare(o, key, Peek(o, local).key) > 0 {
        AdmitReplacing(o, n, global, keyBlock, p, local);
      }
    }
  }

  /** What was admissible stays admissible one position later. */
  lemma LaterPosition(o: Ordering, n: nat, global: seq<Candidate>, keyBlock: seq<Tuple>, p: nat, local: seq<Ref>)
    requires Ordered(o, global)
    requires LocalRefs(o, n, global, keyBlock, p, local)
    ensures LocalRefs(o, n, global, keyBlock, p + 1, local)
  {
  }

  /** Displacing the page queue's head by the key at `p` keeps it admissible. */
  lemma AdmitReplacing(o: Ordering, n: nat, global: seq<Candidate>, keyBlock: seq<Tuple>, p: nat, local: seq<Ref>)
    requires n > 0 && Ordered(o, global) && p < |keyBlock| && |local| == n
    requires LocalRefs(o, n, global, keyBlock, p + 1, local)
    requires LocalRef(o, n, global, keyBlock, p + 1, Keyed(keyBlock[p], p)) && Keyed(keyBlock[p], p) !in local
    ensures LocalRefs(o, n, global, keyBlock, p + 1, Add(o, Remove(o, local), Keyed(keyBlock[p], p)))
  {
    var rest := Remove(o, local);
    assert forall i | 0 <= i < |rest| :: rest[i] == local[i + 1];
    AddLocal(o, n, global, keyBlock, p + 1, rest, Keyed(keyBlock[p], p));
    assert Keyed(keyBlock[p], p) !in rest;
    AddFresh(o, rest, Keyed(keyBlock[p], p));
  }

  lemma CoverSkip(seen: multiset<int>, kept: multiset<int>, gf: bool, h: int, lf: bool, r: int)
    requires Covered(seen, kept, gf, h, lf) && gf && h <= r
    ensures Covered(seen + multiset{r}, kept, gf, h, lf)
  {
    assert (seen + multiset{r}) - kept == (seen - kept) + multiset{r};
  }

  lemma CoverGrow(seen: multiset<int>, kept: multiset<int>, gf: bool, h: int, lf: bool, r: int)
    requires Covered(seen, kept, gf, h, false)
    ensures Covered(seen + multiset{r}, kept + multiset{r}, gf, h, lf)
  {
    assert (seen + multiset{r}) - (kept + multiset{r}) == seen - kept;
  }

  lemma CoverReplace(seen: multiset<int>, kept: multiset<int>, gf: bool, h: int, lh: int, r: int)
    requires Covered(seen, kept, gf, h, true)
    requires lh in kept && (forall x | x in kept :: x <= lh) && r < lh
    ensures Covered(seen + multiset{r}, kept - multiset{lh} + multiset{r}, gf, h, true)
  {
    var seen', kept' := seen + multiset{r}, kept - multiset{lh} + multiset{r};
    assert seen' - kept' == (seen - kept) + multiset{lh};
    forall y | y in seen' - kept'
      ensures (gf && h <= y) || forall x | x in kept' :: x <= y
    {
      if y != lh {
        assert y in seen - kept;
      }
    }
  }

  lemma CoverReject(seen: multiset<int>, kept: multiset<int>, gf: bool, h: int, lh: int, r: int)
    requires Covered(seen, kept, gf, h, true)
    requires (forall x | x in kept :: x <= lh) && lh <= r
    ensures Covered(seen + multiset{r}, kept, gf, h, true)
  {
    assert (seen + multiset{r}) - kept == (seen - kept) + multiset{r};
  }

  lemma KeyRanksSnoc(c: Ordering, keys: seq<Tuple>, p: nat)
    requires p < |keys|
    ensures multiset(KeyRanks(c, keys[..p + 1])) == multiset(KeyRanks(c, keys[..p])) + multiset{Rank(c, keys[p])}
  {
    assert KeyRanks(c, keys[..p + 1]) == KeyRanks(c, keys[..p]) + [Rank(c, keys[p])];
  }

  /** One scan step keeps the covering property. */
  lemma PruneStepCovers(o: Ordering, n: nat, global: seq<Candidate>, keyBlock: seq<Tuple>, p: nat, local: seq<Ref>)
    requires n > 0 && Ordered(o, global) && p < |keyBlock|
    requires Ordered(o, local) && |local| <= n
    requires PruneCovers(o, n, global, keyBlock, p, local)
    ensures PruneCovers(o, n, global, keyBlock, p + 1, PruneStep(o, n, global, keyBlock, p, local))
  {
    var c := Reverse(o);
    var key := keyBlock[p];
    var r := Rank(c, key);
    var e := Keyed(key, p);
    var seen := multiset(KeyRanks(c, keyBlock[..p]));
    var kept := Kept(o, local);
    var gf, h := |global| >= n, Worst(o, global);
    KeyRanksSnoc(c, keyBlock, p);
    if |global| < n || Compare(o, key, Peek(o, global).key) > 0 {
      if |local| < n {
        AddRanks(o, c, local, e);
        CoverGrow(seen, kept, gf, h, |local| + 1 == n, r);
      } else if Compare(o, key, Peek(o, local).key) > 0 {
        var lh := Rank(c, Peek(o, local).key);
        HeadIsWorst(o, local);
        RemoveRanks(o, c, local);
        AddRanks(o, c, Remove(o, local), e);
        CoverReplace(seen, kept, gf, h, lh, r);
      } else {
        HeadIsWorst(o, local);
        CoverReject(seen, kept, gf, h, Rank(c, Peek(o, local).key), r);
      }
    } else {
      CoverSkip(seen, kept, gf, h, |local| == n, r);
    }
  }

  /** What pruning passes over does not matter: if `m` is the first n of the
      kept global rows `g` plus the pruned page rows `p`, it is also the first
      n of `g` plus every row `k` the page holds. `h` is the worst row of `g`
      when `g` is full. */
  lemma PrunedFirstN(m: multiset<int>, g: multiset<int>, p: multiset<int>, k: multiset<int>, n: nat,
                     gf: bool, h: int, lf: bool)
    requires IsFirstN(m, g + p, n)
    requires Covered(k, p, gf, h, lf)
    requires gf ==> |g| == n && forall x | x in g :: x <= h
    requires lf ==> |p| == n
    ensures IsFirstN(m, g + k, n)
  {
    var rest := k - p;
    assert k == p + rest;
    assert g + k == (g + p) + rest;
    forall x, y | x in m && y in rest
      ensures x <= y
    {
      if gf && h <= y {
        assert p + g == g + p;
        FirstNBelowBound(m, p, g, n, h);
      } else {
        FirstNBelowBound(m, g, p, n, y);
      }
    }
    FirstNExtend(m, g + p, n, rest);
  }
}
