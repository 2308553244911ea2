/** The list operations the game applies to hands, piles and the table. */
module CardLists {
  import opened Cards

  /** Sum of the values of the cards in s (the built-in sum over card values). */
  function SumVals(s: seq<Card>): int
  {
    if s == [] then 0 else s[0].val + SumVals(s[1..])
  }

  /** Position of the first occurrence of c in s (how list.remove finds its victim). */
  function FirstIndex(s: seq<Card>, c: Card): (k: nat)
    requires c in s
    ensures k < |s| && s[k] == c
    ensures c !in s[..k]
  {
    if s[0] == c then 0 else 1 + FirstIndex(s[1..], c)
  }

  /** list.remove: drops the first occurrence of c and keeps the rest in order. */
  function Remove(s: seq<Card>, c: Card): (r: seq<Card>)
    requires c in s
    ensures |r| == |s| - 1
    ensures multiset(r) == multiset(s) - multiset{c}
  {
    var k := FirstIndex(s, c);
    assert s == s[..k] + [s[k]] + s[k + 1..];
    s[..k] + s[k + 1..]
  }

  /** The loop `for c in cs: s.remove(c)`: removes each card of cs in turn, first to last. */
  function RemoveEach(s: seq<Card>, cs: seq<Card>): (r: seq<Card>)
    requires multiset(cs) <= multiset(s)
    ensures multiset(r) == multiset(s) - multiset(cs)
    decreases |cs|
  {
    if cs == [] then s
    else
      var last := cs[|cs| - 1];
      assert cs == cs[..|cs| - 1] + [last];
      var r := RemoveEach(s, cs[..|cs| - 1]);
      TakeOneMore(multiset(s), multiset(cs[..|cs| - 1]), last);
      Remove(r, last)
  }

  /** Taking away a, then one more x, is taking away a + {x}; x is still there after a when
      a + {x} is. */
  lemma TakeOneMore(m: multiset<Card>, a: multiset<Card>, x: Card)
    requires a + multiset{x} <= m
    ensures a <= m && x in m - a
    ensures m - a - multiset{x} == m - (a + multiset{x})
  {
    assert (m - a)[x] == m[x] - a[x];
  }

  /** One more turn of the removal loop: the k-th card is still there and is removed. */
  lemma RemoveEachStep(s: seq<Card>, cs: seq<Card>, k: nat)
    requires multiset(cs) <= multiset(s) && k < |cs|
    ensures multiset(cs[..k]) <= multiset(s) && multiset(cs[..k + 1]) <= multiset(s)
    ensures cs[k] in RemoveEach(s, cs[..k])
    ensures RemoveEach(s, cs[..k + 1]) == Remove(RemoveEach(s, cs[..k]), cs[k])
  {
    assert cs == cs[..k] + [cs[k]] + cs[k + 1..];
    assert cs[..k + 1] == cs[..k] + [cs[k]];
    assert cs[..k + 1][..k] == cs[..k];
    assert cs[k] in multiset(RemoveEach(s, cs[..k]));
  }

  /** The sum over a concatenation is the sum of the sums. */
  lemma {:induction false} SumValsAppend(a: seq<Card>, b: seq<Card>)
    ensures SumVals(a + b) == SumVals(a) + SumVals(b)
    decreases |a|
  {
    if a != [] {
      assert a + b != [] && (a + b)[0] == a[0] && (a + b)[1..] == a[1..] + b;
      SumValsAppend(a[1..], b);
    } else {
      assert a + b == b;
    }
  }

  /** Removing one card lowers the sum by exactly that card's value. */
  lemma RemoveSum(s: seq<Card>, c: Card)
    requires c in s
    ensures SumVals(Remove(s, c)) == SumVals(s) - c.val
  {
    var k := FirstIndex(s, c);
    assert s == s[..k] + ([s[k]] + s[k + 1..]);
    SumValsAppend(s[..k], [s[k]] + s[k + 1..]);
    SumValsAppend([s[k]], s[k + 1..]);
    SumValsAppend(s[..k], s[k + 1..]);
  }

  /** Removing a list of cards lowers the sum by the sum of that list. */
  lemma {:induction false} RemoveEachSum(s: seq<Card>, cs: seq<Card>)
    requires multiset(cs) <= multiset(s)
    ensures SumVals(RemoveEach(s, cs)) == SumVals(s) - SumVals(cs)
    decreases |cs|
  {
    if cs != [] {
      var init, last := cs[..|cs| - 1], cs[|cs| - 1];
      assert cs == init + [last];
      assert multiset(init) <= multiset(cs);
      RemoveEachSum(s, init);
      assert last in multiset(RemoveEach(s, init)) by {
        assert multiset(cs)[last] == multiset(init)[last] + 1;
      }
      RemoveSum(RemoveEach(s, init), last);
      SumValsAppend(init, [last]);
      assert [last][1..] == [];
    }
  }

  /** On well-formed cards the sum lies between the card count and ten times it. */
  lemma {:induction false} SumValsBounds(s: seq<Card>)
    requires forall c :: c in s ==> WellFormed(c)
    ensures |s| <= SumVals(s) <= 10 * |s|
    ensures s == [] ==> SumVals(s) == 0
    decreases |s|
  {
    if s != [] {
      RankValues();
      assert WellFormed(s[0]);
      SumValsBounds(s[1..]);
    }
  }

  /** No card appears twice. */
  ghost predicate Distinct(s: seq<Card>)
  {
    forall i, j :: 0 <= i < j < |s| ==> s[i] != s[j]
  }

  /** Splitting a list without repeats at n: the part after n has no repeats either, and no
      card of the first n appears in it. */
  lemma SplitDistinct(s: seq<Card>, n: nat)
    requires Distinct(s) && n <= |s|
    ensures Distinct(s[n..])
    ensures forall c :: c in s[..n] ==> c !in s[n..]
  {
    forall c | c in s[..n]
      ensures c !in s[n..]
    {
      var i :| 0 <= i < n && s[i] == c;
      assert forall j :: 0 <= j < |s| - n ==> s[n..][j] == s[n + j] != s[i];
    }
  }
}
