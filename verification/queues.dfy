/** The priority queues of the operator: a key-ordered collection whose head is
    its least entry under the queue's comparator. */
module PriorityQueues {
  import opened Orderings
  import opened Selection

  /** An entry ordered by its key alone. `Keyed<nat>` is a key and a row
      position within one page; `Keyed<seq<Tuple>>` is a key and the
      materialised tuples of that row. */
  datatype Keyed<P> = Keyed(key: Tuple, payload: P)

  /** A priority queue under comparator `o`, represented by its entries in the
      order in which successive removals yield them: least first. */
  predicate Ordered<P>(o: Ordering, q: seq<Keyed<P>>) {
    forall i, j | 0 <= i < j < |q| :: Rank(o, q[i].key) <= Rank(o, q[j].key)
  }

  /** The ranks of the keys of a sequence of entries, in order. */
  function Ranks<P>(o: Ordering, q: seq<Keyed<P>>): seq<int> {
    seq(|q|, i requires 0 <= i < |q| => Rank(o, q[i].key))
  }

  /** The head of the queue: an entry no other entry sorts before. */
  function Peek<P>(o: Ordering, q: seq<Keyed<P>>): (h: Keyed<P>)
    requires Ordered(o, q) && |q| > 0
    ensures forall i | 0 <= i < |q| :: Compare(o, h.key, q[i].key) <= 0
  {
    q[0]
  }

  /** Removes the head; the head followed by what is left is the queue. */
  function Remove<P>(o: Ordering, q: seq<Keyed<P>>): (r: seq<Keyed<P>>)
    requires Ordered(o, q) && |q| > 0
    ensures Ordered(o, r)
    ensures [Peek(o, q)] + r == q
  {
    q[1..]
  }

  /** Adds an entry; it lands after every entry it does not sort before. */
  function Add<P>(o: Ordering, q: seq<Keyed<P>>, e: Keyed<P>): (r: seq<Keyed<P>>)
    requires Ordered(o, q)
    ensures Ordered(o, r)
    ensures multiset(r) == multiset(q) + multiset{e}
    ensures |r| == |q| + 1
    ensures r[0] == e || (|q| > 0 && r[0] == q[0])
    decreases |q|
  {
    if q == [] || Compare(o, e.key, q[0].key) < 0 then
      AddInFront(o, q, e);
      [e] + q
    else
      var rest := Add(o, q[1..], e);
      AddBehind(o, q, e, rest);
      [q[0]] + rest
  }

  /** An entry that sorts before the head of an ordered queue can go in front. */
  lemma AddInFront<P>(o: Ordering, q: seq<Keyed<P>>, e: Keyed<P>)
    requires Ordered(o, q)
    requires q == [] || Rank(o, e.key) < Rank(o, q[0].key)
    ensures Ordered(o, [e] + q)
  {
    var r := [e] + q;
    forall i, j | 0 <= i < j < |r|
      ensures Rank(o, r[i].key) <= Rank(o, r[j].key)
    {
      if i == 0 {
        assert r[j] == q[j - 1];
        assert Rank(o, q[0].key) <= Rank(o, q[j - 1].key);
      } else {
        assert r[i] == q[i - 1] && r[j] == q[j - 1];
      }
    }
  }

  /** The head of an ordered queue can stay in front of the rest with an
      entry added that does not sort before it. */
  lemma AddBehind<P>(o: Ordering, q: seq<Keyed<P>>, e: Keyed<P>, rest: seq<Keyed<P>>)
    requires Ordered(o, q) && |q| > 0
    requires Ordered(o, rest) && |rest| == |q|
    requires multiset(rest) == multiset(q[1..]) + multiset{e}
    requires rest[0] == e || (|q| > 1 && rest[0] == q[1])
    requires Rank(o, q[0].key) <= Rank(o, e.key)
    ensures Ordered(o, [q[0]] + rest)
    ensures multiset([q[0]] + rest) == multiset(q) + multiset{e}
  {
    var r := [q[0]] + rest;
    assert Rank(o, q[0].key) <= Rank(o, rest[0].key);
    forall i, j | 0 <= i < j < |r|
      ensures Rank(o, r[i].key) <= Rank(o, r[j].key)
    {
      if i == 0 {
        assert r[j] == rest[j - 1];
        assert Rank(o, rest[0].key) <= Rank(o, rest[j - 1].key);
      } else {
        assert r[i] == rest[i - 1] && r[j] == rest[j - 1];
      }
    }
    assert q == [q[0]] + q[1..];
  }

  lemma DropOne<T>(t: seq<T>, i: nat)
    requires i < |t|
    ensures multiset(t[..i] + t[i + 1..]) == multiset(t) - multiset{t[i]}
  {
    assert t == t[..i] + [t[i]] + t[i + 1..];
  }

  lemma RanksDropOne<P>(o: Ordering, t: seq<Keyed<P>>, i: nat)
    requires i < |t|
    ensures multiset(Ranks(o, t[..i] + t[i + 1..])) == multiset(Ranks(o, t)) - multiset{Rank(o, t[i].key)}
    ensures Rank(o, t[i].key) in multiset(Ranks(o, t))
  {
    var r := Ranks(o, t);
    assert r[i] == Rank(o, t[i].key);
    assert Ranks(o, t[..i] + t[i + 1..]) == r[..i] + r[i + 1..];
    DropOne(r, i);
  }

  /** Taking an element out and putting it back changes nothing. */
  lemma Restore<T>(a: multiset<T>, x: T)
    requires x in a
    ensures a == (a - multiset{x}) + multiset{x}
  {
  }

  /** Permuting entries permutes their ranks. */
  lemma {:induction false} RanksPermutation<P>(o: Ordering, s: seq<Keyed<P>>, t: seq<Keyed<P>>)
    requires multiset(s) == multiset(t)
    ensures multiset(Ranks(o, s)) == multiset(Ranks(o, t))
    decreases |s|
  {
    if s == [] {
      assert |t| == |multiset(t)| == 0;
    } else {
      var i := FindFirst(s, t);
      RanksPermutation(o, s[1..], t[..i] + t[i + 1..]);
      RanksMatchFirst(o, s, t, i);
    }
  }

  /** Where the first entry of `s` sits in a permutation `t` of it; the rest
      of `s` is a permutation of `t` without it. */
  lemma FindFirst<T>(s: seq<T>, t: seq<T>) returns (i: nat)
    requires multiset(s) == multiset(t) && |s| > 0
    ensures i < |t| && t[i] == s[0]
    ensures multiset(s[1..]) == multiset(t[..i] + t[i + 1..])
  {
    i := IndexOf(t, s[0]);
    TailBag(s);
    DropOne(t, i);
  }

  /** Some position of a sequence holds a given element of it. */
  lemma IndexOf<T>(t: seq<T>, x: T) returns (i: nat)
    requires x in multiset(t)
    ensures i < |t| && t[i] == x
  {
    assert x in t;
    i :| 0 <= i < |t| && t[i] == x;
  }

  /** Ranks agree once the tails, and the entries taken out, agree. */
  lemma RanksMatchFirst<P>(o: Ordering, s: seq<Keyed<P>>, t: seq<Keyed<P>>, i: nat)
    requires |s| > 0 && i < |t| && t[i] == s[0]
    requires multiset(Ranks(o, s[1..])) == multiset(Ranks(o, t[..i] + t[i + 1..]))
    ensures multiset(Ranks(o, s)) == multiset(Ranks(o, t))
  {
    RanksCons(o, s);
    RanksDropOne(o, t, i);
    Restore(multiset(Ranks(o, t)), Rank(o, t[i].key));
  }

  /** The ranks of an add are the old ranks plus the new entry's rank. */
  lemma AddRanks<P>(o: Ordering, c: Ordering, q: seq<Keyed<P>>, e: Keyed<P>)
    requires Ordered(o, q)
    ensures multiset(Ranks(c, Add(o, q, e))) == multiset(Ranks(c, q)) + multiset{Rank(c, e.key)}
  {
    RanksPermutation(c, Add(o, q, e), q + [e]);
    assert Ranks(c, q + [e]) == Ranks(c, q) + [Rank(c, e.key)];
  }

  /** The ranks of a non-empty sequence: its first entry's and the rest's. */
  lemma RanksCons<P>(c: Ordering, q: seq<Keyed<P>>)
    requires |q| > 0
    ensures multiset(Ranks(c, q)) == multiset{Rank(c, q[0].key)} + multiset(Ranks(c, q[1..]))
  {
    assert Ranks(c, q) == [Rank(c, q[0].key)] + Ranks(c, q[1..]);
  }

  /** The ranks of a removal are the old ranks less the head's rank. */
  lemma RemoveRanks<P>(o: Ordering, c: Ordering, q: seq<Keyed<P>>)
    requires Ordered(o, q) && |q| > 0
    ensures multiset(Ranks(c, Remove(o, q))) == multiset(Ranks(c, q)) - multiset{Rank(c, Peek(o, q).key)}
  {
    RanksCons(c, q);
  }

  /** The head carries the greatest rank under the reversed ordering: it is
      the entry the queue would give up first. */
  lemma HeadIsWorst<P>(o: Ordering, q: seq<Keyed<P>>)
    requires Ordered(o, q) && |q| > 0
    ensures Rank(Reverse(o), Peek(o, q).key) in multiset(Ranks(Reverse(o), q))
    ensures forall x | x in multiset(Ranks(Reverse(o), q)) :: x <= Rank(Reverse(o), Peek(o, q).key)
  {
    var rs := Ranks(Reverse(o), q);
    assert rs[0] == Rank(Reverse(o), q[0].key);
    forall x | x in multiset(rs)
      ensures x <= rs[0]
    {
      var i :| 0 <= i < |rs| && rs[i] == x;
      assert 0 == i || Rank(o, q[0].key) <= Rank(o, q[i].key);
    }
  }

  // ---------------------------------------------------------------------------
  // A queue bounded to n entries keeps the n entries that sort last under its
  // comparator, that is, the first n under the reversed comparator.

  /** The reversed-order ranks of a queue's entries. */
  ghost function Kept<P>(o: Ordering, q: seq<Keyed<P>>): multiset<int> {
    multiset(Ranks(Reverse(o), q))
  }

  /** Adding to a queue that has room keeps everything. */
  lemma AddKeepsFirstN<P>(o: Ordering, q: seq<Keyed<P>>, e: Keyed<P>, n: nat)
    requires Ordered(o, q) && |q| < n
    ensures IsFirstN(Kept(o, Add(o, q, e)), Kept(o, q) + multiset{Rank(Reverse(o), e.key)}, n)
  {
    AddRanks(o, Reverse(o), q, e);
    FirstNOfFew(Kept(o, q), n);
    FirstNGrow(Kept(o, q), Kept(o, q), n, Rank(Reverse(o), e.key));
  }

  /** Replacing the head of a full queue by an entry that sorts after it. */
  lemma ReplaceKeepsFirstN<P>(o: Ordering, q: seq<Keyed<P>>, e: Keyed<P>, n: nat)
    requires Ordered(o, q) && |q| == n > 0
    requires Compare(o, e.key, Peek(o, q).key) > 0
    ensures IsFirstN(Kept(o, Add(o, Remove(o, q), e)), Kept(o, q) + multiset{Rank(Reverse(o), e.key)}, n)
  {
    var h := Rank(Reverse(o), Peek(o, q).key);
    HeadIsWorst(o, q);
    RemoveRanks(o, Reverse(o), q);
    AddRanks(o, Reverse(o), Remove(o, q), e);
    FirstNOfFew(Kept(o, q), n);
    FirstNReplace(Kept(o, q), Kept(o, q), n, h, Rank(Reverse(o), e.key));
  }

  /** Passing over an entry that does not sort after the head of a full queue. */
  lemma RejectKeepsFirstN<P>(o: Ordering, q: seq<Keyed<P>>, e: Keyed<P>, n: nat)
    requires Ordered(o, q) && |q| == n > 0
    requires Compare(o, e.key, Peek(o, q).key) <= 0
    ensures IsFirstN(Kept(o, q), Kept(o, q) + multiset{Rank(Reverse(o), e.key)}, n)
  {
    HeadIsWorst(o, q);
    FirstNOfFew(Kept(o, q), n);
    FirstNExtend(Kept(o, q), Kept(o, q), n, multiset{Rank(Reverse(o), e.key)});
  }
}
