/** The reference meaning of "the top n": sort ascending, then take the first n.
    Everything here is about integer ranks; the operator's keys are mapped to
    ranks by their ordering. */
module Selection {

  function Min(a: int, b: int): int {
    if a <= b then a else b
  }

  predicate Ascending(s: seq<int>) {
    forall i, j | 0 <= i < j < |s| :: s[i] <= s[j]
  }

  /** `s` is, as a multiset, the first `n` elements of `a` in ascending order:
      it is drawn from `a`, has `min(n, |a|)` elements, and none of the
      elements left behind sorts strictly before one that was kept. */
  ghost predicate IsFirstN(s: multiset<int>, a: multiset<int>, n: nat) {
    && s <= a
    && |s| == Min(n, |a|)
    && forall x, y | x in s && y in a - s :: x <= y
  }

  /** Inserts `x` into an ascending sequence. */
  function Insert(x: int, s: seq<int>): (r: seq<int>)
    requires Ascending(s)
    ensures Ascending(r)
    ensures multiset(r) == multiset(s) + multiset{x}
    ensures |r| == |s| + 1
    ensures r[0] == x || (|s| > 0 && r[0] == s[0])
  {
    if s == [] || x <= s[0] then [x] + s
    else
      var rest := Insert(x, s[1..]);
      InsertBehind(x, s, rest);
      [s[0]] + rest
  }

  /** The head of an ascending sequence stays in front of the rest with an
      element no smaller than it inserted. */
  lemma InsertBehind(x: int, s: seq<int>, rest: seq<int>)
    requires Ascending(s) && |s| > 0 && s[0] <= x
    requires Ascending(rest) && |rest| == |s|
    requires multiset(rest) == multiset(s[1..]) + multiset{x}
    requires rest[0] == x || (|s| > 1 && rest[0] == s[1])
    ensures Ascending([s[0]] + rest)
    ensures multiset([s[0]] + rest) == multiset(s) + multiset{x}
  {
    var r := [s[0]] + rest;
    forall i, j | 0 <= i < j < |r|
      ensures r[i] <= r[j]
    {
      if i == 0 {
        assert r[j] == rest[j - 1] && rest[0] <= rest[j - 1];
      } else {
        assert r[i] == rest[i - 1] && r[j] == rest[j - 1];
      }
    }
    assert s == [s[0]] + s[1..];
  }

  /** Insertion sort: an ascending permutation of `s`. */
  function Sort(s: seq<int>): (r: seq<int>)
    ensures Ascending(r)
    ensures multiset(r) == multiset(s)
  {
    if s == [] then []
    else
      assert s == [s[0]] + s[1..];
      Insert(s[0], Sort(s[1..]))
  }

  /** The reference meaning of top-n: the first `min(n, |s|)` elements of `s` sorted. */
  function FirstN(s: seq<int>, n: nat): seq<int> {
    var t := Sort(s);
    if n <= |t| then t[..n] else t
  }

  /** The reference definition meets the characterisation. */
  lemma FirstNIsFirstN(s: seq<int>, n: nat)
    ensures Ascending(FirstN(s, n))
    ensures IsFirstN(multiset(FirstN(s, n)), multiset(s), n)
  {
    PrefixIsFirstN(Sort(s), n);
  }

  /** The first `min(n, |t|)` elements of an ascending sequence are its first n. */
  lemma PrefixIsFirstN(t: seq<int>, n: nat)
    requires Ascending(t)
    ensures var k := Min(n, |t|);
      Ascending(t[..k]) && IsFirstN(multiset(t[..k]), multiset(t), n)
  {
    var k := Min(n, |t|);
    assert t == t[..k] + t[k..];
    var kept, rest := multiset(t[..k]), multiset(t[k..]);
    assert multiset(t) == kept + rest;
    assert multiset(t) - kept == rest;
    forall x, y | x in kept && y in rest
      ensures x <= y
    {
      SplitOrdered(t, k, x, y);
    }
  }

  lemma SplitOrdered(t: seq<int>, k: nat, x: int, y: int)
    requires Ascending(t) && k <= |t|
    requires x in t[..k] && y in t[k..]
    ensures x <= y
  {
    var i :| 0 <= i < k && t[..k][i] == x;
    var j :| 0 <= j < |t| - k && t[k..][j] == y;
    assert t[i] == x && t[k + j] == y;
  }

  /** A non-empty multiset has an element. */
  lemma SomeElement(a: multiset<int>) returns (x: int)
    requires |a| > 0
    ensures x in a
  {
    if forall z :: z !in a {
      assert false;
    }
    x :| x in a;
  }

  /** Multiset facts used below. */
  lemma SubBagOfSameSize(s: multiset<int>, a: multiset<int>)
    requires s <= a && |s| == |a|
    ensures s == a
  {
    var d := a - s;
    assert a == s + d;
  }

  /** Some element of a non-empty multiset sorts first. */
  lemma {:induction false} MinimumExists(a: multiset<int>) returns (m: int)
    requires |a| > 0
    ensures m in a
    ensures forall y | y in a :: m <= y
    decreases |a|
  {
    var x := SomeElement(a);
    var rest := a - multiset{x};
    assert a == rest + multiset{x};
    if |rest| == 0 {
      m := x;
    } else {
      var m' := MinimumExists(rest);
      m := if x <= m' then x else m';
    }
  }

  /** The first n of a multiset are unique. */
  lemma {:induction false} IsFirstNUnique(s1: multiset<int>, s2: multiset<int>, a: multiset<int>, n: nat)
    requires IsFirstN(s1, a, n) && IsFirstN(s2, a, n)
    ensures s1 == s2
    decreases n
  {
    if n == 0 || |a| == 0 {
      assert |s1| == 0 && |s2| == 0;
    } else {
      var m := MinimumExists(a);
      DropMinimum(s1, a, n, m);
      DropMinimum(s2, a, n, m);
      IsFirstNUnique(s1 - multiset{m}, s2 - multiset{m}, a - multiset{m}, n - 1);
    }
  }

  /** The least element is among the first n, and the rest of them are the
      first n - 1 of the rest. */
  lemma DropMinimum(s: multiset<int>, a: multiset<int>, n: nat, m: int)
    requires IsFirstN(s, a, n) && n > 0
    requires m in a && forall y | y in a :: m <= y
    ensures m in s && s == (s - multiset{m}) + multiset{m}
    ensures IsFirstN(s - multiset{m}, a - multiset{m}, n - 1)
  {
    MinimumIsKept(s, a, n, m);
    DropKept(s, a, n, m);
  }

  lemma MinimumIsKept(s: multiset<int>, a: multiset<int>, n: nat, m: int)
    requires IsFirstN(s, a, n) && n > 0
    requires m in a && forall y | y in a :: m <= y
    ensures m in s
  {
    var x := SomeElement(s);
    assert m <= x;
    assert m !in s ==> m in a - s;
    assert m in a - s ==> x <= m;
  }

  lemma DropKept(s: multiset<int>, a: multiset<int>, n: nat, m: int)
    requires IsFirstN(s, a, n) && n > 0 && m in s
    ensures IsFirstN(s - multiset{m}, a - multiset{m}, n - 1)
  {
    var s', a' := s - multiset{m}, a - multiset{m};
    assert s == s' + multiset{m};
    assert a == a' + multiset{m};
    assert a' - s' == a - s;
  }

  /** Two ascending sequences with the same elements are the same sequence. */
  lemma {:induction false} AscendingUnique(s: seq<int>, t: seq<int>)
    requires Ascending(s) && Ascending(t)
    requires multiset(s) == multiset(t)
    ensures s == t
    decreases |s|
  {
    if s != [] {
      HeadsAgree(s, t);
      AscendingUnique(s[1..], t[1..]);
      assert s == [s[0]] + s[1..] && t == [t[0]] + t[1..];
    }
  }

  /** Two non-empty ascending sequences with the same elements start alike,
      and go on with the same elements. */
  lemma HeadsAgree(s: seq<int>, t: seq<int>)
    requires Ascending(s) && Ascending(t) && |s| > 0
    requires multiset(s) == multiset(t)
    ensures |t| == |s| && s[0] == t[0]
    ensures Ascending(s[1..]) && Ascending(t[1..])
    ensures multiset(s[1..]) == multiset(t[1..])
  {
    assert |t| == |multiset(t)| == |s|;
    HeadLeast(s);
    HeadLeast(t);
    assert s[0] in multiset(s) && t[0] in multiset(t);
    TailBag(s);
    TailBag(t);
  }

  /** The first element of an ascending sequence is its least. */
  lemma HeadLeast(s: seq<int>)
    requires Ascending(s) && |s| > 0
    ensures forall x | x in multiset(s) :: s[0] <= x
  {
    forall x | x in multiset(s)
      ensures s[0] <= x
    {
      var i :| 0 <= i < |s| && s[i] == x;
    }
  }


  /** The elements after the first are the elements less the first. */
  lemma TailBag<T>(s: seq<T>)
    requires |s| > 0
    ensures multiset(s[1..]) == multiset(s) - multiset{s[0]}
  {
    assert s == [s[0]] + s[1..];
  }

  /** An ascending sequence holding the first n of `s` IS the reference answer. */
  lemma IsFirstNIsReference(t: seq<int>, s: seq<int>, n: nat)
    requires Ascending(t)
    requires IsFirstN(multiset(t), multiset(s), n)
    ensures t == FirstN(s, n)
  {
    FirstNIsFirstN(s, n);
    IsFirstNUnique(multiset(t), multiset(FirstN(s, n)), multiset(s), n);
    AscendingUnique(t, FirstN(s, n));
  }

  /** Admitting a row while fewer than n are kept. */
  lemma FirstNGrow(s: multiset<int>, a: multiset<int>, n: nat, r: int)
    requires IsFirstN(s, a, n) && |s| < n
    ensures IsFirstN(s + multiset{r}, a + multiset{r}, n)
  {
    SubBagOfSameSize(s, a);
    assert (a + multiset{r}) - (s + multiset{r}) == multiset{};
  }

  /** Admitting a row that beats the worst kept one `h`, which is evicted. */
  lemma FirstNReplace(s: multiset<int>, a: multiset<int>, n: nat, h: int, r: int)
    requires IsFirstN(s, a, n) && |s| == n
    requires h in s && forall x | x in s :: x <= h
    requires r < h
    ensures IsFirstN(s - multiset{h} + multiset{r}, a + multiset{r}, n)
  {
    var s' := s - multiset{h} + multiset{r};
    var a' := a + multiset{r};
    assert a' - s' == (a - s) + multiset{h};
    forall x, y | x in s' && y in a' - s'
      ensures x <= y
    {
      if y != h {
        assert y in a - s;
      }
    }
  }

  /** Passing over rows that sort no earlier than anything kept, once n are kept. */
  lemma FirstNExtend(s: multiset<int>, a: multiset<int>, n: nat, rest: multiset<int>)
    requires IsFirstN(s, a, n)
    requires |rest| > 0 ==> |s| == n
    requires forall x, y | x in s && y in rest :: x <= y
    ensures IsFirstN(s, a + rest, n)
  {
    assert (a + rest) - s == (a - s) + rest;
  }

  /** If n kept rows were taken from a pool that contains n rows all at most
      `y`, every kept row is at most `y`. */
  lemma FirstNBelowBound(s: multiset<int>, b: multiset<int>, l: multiset<int>, n: nat, y: int)
    requires IsFirstN(s, b + l, n) && |l| == n
    requires forall z | z in l :: z <= y
    ensures forall x | x in s :: x <= y
  {
    forall x | x in s
      ensures x <= y
    {
      var d := l - s;
      if |d| == 0 {
        forall z ensures l[z] <= s[z] {
          assert d[z] == 0;
        }
        assert l <= s;
        SubBagOfSameSize(l, s);
      } else {
        var z := SomeElement(d);
        assert z in (b + l) - s;
      }
    }
  }

  /** Taking the first n twice: the first n of (the first n of `a`) plus `b`
      are the first n of `a` plus `b`. */
  lemma FirstNCompose(s: multiset<int>, a: multiset<int>, m: multiset<int>, b: multiset<int>, n: nat)
    requires IsFirstN(s, a, n) && IsFirstN(m, s + b, n)
    ensures IsFirstN(m, a + b, n)
  {
    if |a| <= n {
      SubBagOfSameSize(s, a);
    } else {
      assert |s| == n == |m|;
      forall x, y | x in m && y in (a + b) - m
        ensures x <= y
      {
        if y !in (s + b) - m {
          assert y in a - s;
          var d := s - m;
          if |d| == 0 {
            forall z ensures s[z] <= m[z] {
              assert d[z] == 0;
            }
            SubBagOfSameSize(s, m);
            assert x in s;
          } else {
            var z := SomeElement(d);
            assert z in (s + b) - m;
          }
        }
      }
    }
  }

  /** `FirstNCompose` with the combined collection named. */
  lemma FirstNComposeInto(s: multiset<int>, a: multiset<int>, m: multiset<int>, b: multiset<int>, t: multiset<int>, n: nat)
    requires IsFirstN(s, a, n) && IsFirstN(m, s + b, n) && a + b == t
    ensures IsFirstN(m, t, n)
  {
    FirstNCompose(s, a, m, b, n);
  }

  /** No more than n elements are their own first n. */
  lemma FirstNOfFew(s: multiset<int>, n: nat)
    requires |s| <= n
    ensures IsFirstN(s, s, n)
  {
  }
}
