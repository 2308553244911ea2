/** Capture resolution: what a played card takes from the table, as functions of the table
    and the played card. */
module Capture {
  import opened Results
  import opened Cards
  import opened CardLists

  /** idx lists table positions from lo up to n - 1, strictly increasing: one combination of
      table cards, written the way the combinations enumeration yields it. */
  predicate IsSelection(idx: seq<int>, lo: int, n: int)
  {
    && (forall k :: 0 <= k < |idx| ==> lo <= idx[k] < n)
    && (forall j, k :: 0 <= j < k < |idx| ==> idx[j] < idx[k])
  }

  /** The cards at the positions idx, in that order. */
  function Pick(t: seq<Card>, idx: seq<int>): seq<Card>
    requires forall k :: 0 <= k < |idx| ==> 0 <= idx[k] < |t|
  {
    seq(|idx|, k requires 0 <= k < |idx| => t[idx[k]])
  }

  /** Some non-empty combination of table cards has values summing to v. */
  ghost predicate CanCapture(t: seq<Card>, v: int)
  {
    exists idx :: IsSelection(idx, 0, |t|) && |idx| >= 1 && SumVals(Pick(t, idx)) == v
  }

  /** Lexicographic order on position lists of equal length: the order the enumeration of
      combinations of one size follows. */
  predicate LexLeq(a: seq<int>, b: seq<int>)
  {
    |a| == 0 || |b| == 0 || a[0] < b[0] || (a[0] == b[0] && LexLeq(a[1..], b[1..]))
  }

  /** The first combination of r positions from lo onwards, in enumeration order, whose
      cards sum to v; None when no such combination exists. */
  function FirstOfSize(t: seq<Card>, lo: nat, r: nat, v: int): (m: Option<seq<int>>)
    requires lo <= |t|
    ensures m.Some? ==> IsSelection(m.value, lo, |t|) && |m.value| == r && SumVals(Pick(t, m.value)) == v
    decreases |t| - lo
  {
    if r == 0 then (if v == 0 then Some([]) else None)
    else if lo == |t| then None
    else match FirstOfSize(t, lo + 1, r - 1, v - t[lo].val)
      case Some(rest) =>
        SelectionCons(t, lo, rest);
        Some([lo] + rest)
      case None => FirstOfSize(t, lo + 1, r, v)
  }

  /** Putting lo in front of a combination from lo + 1 onwards gives one from lo onwards,
      whose values add t[lo].val to those of the rest. */
  lemma SelectionCons(t: seq<Card>, lo: nat, rest: seq<int>)
    requires lo < |t| && IsSelection(rest, lo + 1, |t|)
    ensures IsSelection([lo] + rest, lo, |t|)
    ensures SumVals(Pick(t, [lo] + rest)) == t[lo].val + SumVals(Pick(t, rest))
  {
    assert ([lo] + rest)[1..] == rest;
    PickSumFirst(t, [lo] + rest);
  }

  /** max(matches, key=len) over the combinations of sizes 1..r: the first match of the
      largest size that has one. */
  function LargestUpTo(t: seq<Card>, r: nat, v: int): (m: Option<seq<int>>)
    ensures m.Some? ==> IsSelection(m.value, 0, |t|) && 1 <= |m.value| <= r && SumVals(Pick(t, m.value)) == v
  {
    if r == 0 then None
    else match FirstOfSize(t, 0, r, v)
      case Some(s) => Some(s)
      case None => LargestUpTo(t, r - 1, v)
  }

  /** The combination the subset-sum rule captures for a played value v. */
  function BestCombination(t: seq<Card>, v: int): (m: Option<seq<int>>)
    ensures m.Some? ==> IsSelection(m.value, 0, |t|) && |m.value| >= 1 && SumVals(Pick(t, m.value)) == v
  {
    LargestUpTo(t, |t|, v)
  }

  /** Position of the first table card worth v, or |t| when there is none. */
  function ValIndex(t: seq<Card>, v: int): (k: nat)
    ensures k <= |t|
    ensures forall j :: 0 <= j < k ==> t[j].val != v
    ensures k < |t| ==> t[k].val == v
  {
    if t == [] then 0
    else if t[0].val == v then 0
    else 1 + ValIndex(t[1..], v)
  }

  /** What a play produces: the captured cards (played card first) and the new table. */
  datatype Outcome = Outcome(captured: seq<Card>, table: seq<Card>)

  /** The three rules in priority order: direct match, subset sum, no capture. */
  function Resolve(t: seq<Card>, p: Card): (o: Outcome)
    ensures o.captured == [] || (|o.captured| >= 2 && o.captured[0] == p)
  {
    var k := ValIndex(t, p.val);
    if k < |t| then
      Outcome([p, t[k]], Remove(t, t[k]))
    else match BestCombination(t, p.val)
      case Some(idx) =>
        PickedSubmultiset(t, idx, 0);
        var best := Pick(t, idx);
        Outcome([p] + best, RemoveEach(t, best))
      case None => Outcome([], t + [p])
  }

  // ---------------------------------------------------------------------------------------
  // Facts about combinations

  /** A combination of positions from lo has at most |t| - lo of them. */
  lemma {:induction false} SelectionSize(idx: seq<int>, lo: int, n: int)
    requires IsSelection(idx, lo, n)
    ensures |idx| <= if n - lo < 0 then 0 else n - lo
    decreases |idx|
  {
    if |idx| > 0 {
      assert IsSelection(idx[1..], idx[0] + 1, n);
      SelectionSize(idx[1..], idx[0] + 1, n);
    }
  }

  /** The cards of a combination form a sub-multiset of the table from lo onwards. */
  lemma {:induction false} PickedSubmultiset(t: seq<Card>, idx: seq<int>, lo: nat)
    requires lo <= |t| && IsSelection(idx, lo, |t|)
    ensures multiset(Pick(t, idx)) <= multiset(t[lo..])
    decreases |idx|
  {
    if |idx| > 0 {
      var i := idx[0];
      assert IsSelection(idx[1..], i + 1, |t|);
      PickedSubmultiset(t, idx[1..], i + 1);
      PickFirst(t, idx);
      SplitAt(t, lo, i);
      AddOnBothSides(multiset(Pick(t, idx[1..])), multiset(t[i + 1..]), t[i], multiset(t[lo..i]));
    }
  }

  /** The cards of a non-empty combination: the first one, then those of the rest. */
  lemma PickFirst(t: seq<Card>, idx: seq<int>)
    requires |idx| > 0 && forall k :: 0 <= k < |idx| ==> 0 <= idx[k] < |t|
    ensures multiset(Pick(t, idx)) == multiset{t[idx[0]]} + multiset(Pick(t, idx[1..]))
  {
    assert Pick(t, idx) == [t[idx[0]]] + Pick(t, idx[1..]);
  }

  /** The table from lo splits around position i. */
  lemma SplitAt(t: seq<Card>, lo: nat, i: nat)
    requires lo <= i < |t|
    ensures multiset(t[lo..]) == multiset(t[lo..i]) + (multiset{t[i]} + multiset(t[i + 1..]))
  {
    assert t[lo..] == t[lo..i] + ([t[i]] + t[i + 1..]);
  }

  /** Adding the same card to both sides, and more cards to the larger, keeps the inclusion. */
  lemma AddOnBothSides(a: multiset<Card>, b: multiset<Card>, x: Card, c: multiset<Card>)
    requires a <= b
    ensures multiset{x} + a <= c + (multiset{x} + b)
  {
  }

  /** Every combination of r positions from lo summing to v is found by the search, and the
      one found comes first in enumeration order. */
  lemma {:induction false} FirstOfSizeIsFirst(t: seq<Card>, lo: nat, v: int, idx: seq<int>)
    requires lo <= |t| && IsSelection(idx, lo, |t|) && SumVals(Pick(t, idx)) == v
    ensures FirstOfSize(t, lo, |idx|, v).Some?
    ensures LexLeq(FirstOfSize(t, lo, |idx|, v).value, idx)
    decreases |t| - lo, 1
  {
    if |idx| > 0 {
      PickSumFirst(t, idx);
      if idx[0] == lo {
        FirstTaken(t, lo, v, idx);
      } else {
        FirstSkipped(t, lo, v, idx);
      }
    }
  }

  /** The case where the combination starts at lo: the search takes lo as well. */
  lemma {:induction false} FirstTaken(t: seq<Card>, lo: nat, v: int, idx: seq<int>)
    requires lo < |t| && IsSelection(idx, lo, |t|) && |idx| > 0 && idx[0] == lo
    requires SumVals(Pick(t, idx)) == t[lo].val + SumVals(Pick(t, idx[1..])) == v
    ensures FirstOfSize(t, lo, |idx|, v).Some?
    ensures LexLeq(FirstOfSize(t, lo, |idx|, v).value, idx)
    decreases |t| - lo, 0
  {
    var rest := idx[1..];
    assert IsSelection(rest, lo + 1, |t|);
    FirstOfSizeIsFirst(t, lo + 1, v - t[lo].val, rest);
    var m := FirstOfSize(t, lo + 1, |rest|, v - t[lo].val).value;
    assert FirstOfSize(t, lo, |idx|, v) == Some([lo] + m);
    assert ([lo] + m)[1..] == m;
  }

  /** The case where the combination starts after lo: the search finds one no later. */
  lemma {:induction false} FirstSkipped(t: seq<Card>, lo: nat, v: int, idx: seq<int>)
    requires lo <= |t| && IsSelection(idx, lo, |t|) && SumVals(Pick(t, idx)) == v
    requires |idx| > 0 && idx[0] != lo
    ensures FirstOfSize(t, lo, |idx|, v).Some?
    ensures LexLeq(FirstOfSize(t, lo, |idx|, v).value, idx)
    decreases |t| - lo, 0
  {
    assert IsSelection(idx, lo + 1, |t|);
    FirstOfSizeIsFirst(t, lo + 1, v, idx);
    if FirstOfSize(t, lo + 1, |idx| - 1, v - t[lo].val).None? {
      assert FirstOfSize(t, lo, |idx|, v) == FirstOfSize(t, lo + 1, |idx|, v);
    }
  }

  /** The values of a non-empty combination: the first card's, plus those of the rest. */
  lemma PickSumFirst(t: seq<Card>, idx: seq<int>)
    requires |idx| > 0 && forall k :: 0 <= k < |idx| ==> 0 <= idx[k] < |t|
    ensures SumVals(Pick(t, idx)) == t[idx[0]].val + SumVals(Pick(t, idx[1..]))
  {
    assert Pick(t, idx) == [t[idx[0]]] + Pick(t, idx[1..]);
  }

  /** No combination of sizes 1..r summing to v is larger than the one LargestUpTo keeps. */
  lemma {:induction false} LargestUpToMaximal(t: seq<Card>, r: nat, v: int, idx: seq<int>)
    requires IsSelection(idx, 0, |t|) && 1 <= |idx| <= r && SumVals(Pick(t, idx)) == v
    ensures LargestUpTo(t, r, v).Some?
    ensures |idx| <= |LargestUpTo(t, r, v).value|
    decreases r
  {
    if FirstOfSize(t, 0, r, v).None? {
      if |idx| == r {
        FirstOfSizeIsFirst(t, 0, v, idx);
      }
      LargestUpToMaximal(t, r - 1, v, idx);
    }
  }

  /** The subset-sum rule captures a combination summing to v exactly when one exists; no
      combination summing to v has more cards; and among those of its size it comes first
      in enumeration order, which is the one max(matches, key=len) returns. */
  lemma BestCombinationIsLargestFirst(t: seq<Card>, v: int, idx: seq<int>)
    requires IsSelection(idx, 0, |t|) && |idx| >= 1 && SumVals(Pick(t, idx)) == v
    ensures BestCombination(t, v).Some?
    ensures |idx| <= |BestCombination(t, v).value|
    ensures |idx| == |BestCombination(t, v).value| ==> LexLeq(BestCombination(t, v).value, idx)
  {
    SelectionSize(idx, 0, |t|);
    LargestUpToMaximal(t, |t|, v, idx);
    var m := BestCombination(t, v).value;
    if |idx| == |m| {
      LargestIsFirstOfSize(t, |t|, v);
      FirstOfSizeIsFirst(t, 0, v, idx);
    }
  }

  /** LargestUpTo keeps the first match of its size. */
  lemma {:induction false} LargestIsFirstOfSize(t: seq<Card>, r: nat, v: int)
    requires LargestUpTo(t, r, v).Some?
    ensures FirstOfSize(t, 0, |LargestUpTo(t, r, v).value|, v) == LargestUpTo(t, r, v)
    decreases r
  {
    if FirstOfSize(t, 0, r, v).None? {
      LargestIsFirstOfSize(t, r - 1, v);
    }
  }

  // ---------------------------------------------------------------------------------------
  // Order of the cards a removal leaves

  /** The positions 0..n-1 except k, in order. */
  function Skip(n: nat, k: nat): (idx: seq<int>)
    requires k < n
    ensures |idx| == n - 1 && IsSelection(idx, 0, n)
  {
    seq(n - 1, i requires 0 <= i < n - 1 => if i < k then i else i + 1)
  }

  /** The positions a picks, read through the positions b picks of them. */
  function Compose(a: seq<int>, b: seq<int>): seq<int>
    requires forall k :: 0 <= k < |b| ==> 0 <= b[k] < |a|
  {
    seq(|b|, i requires 0 <= i < |b| => a[b[i]])
  }

  /** list.remove drops exactly the position of the first occurrence and keeps the others in
      order. */
  lemma RemoveIsSkip(s: seq<Card>, c: Card)
    requires c in s
    ensures Pick(s, Skip(|s|, FirstIndex(s, c))) == Remove(s, c)
  {
  }

  /** A combination of a combination is a combination of the original positions. */
  lemma ComposeSelection(t: seq<Card>, a: seq<int>, b: seq<int>)
    requires IsSelection(a, 0, |t|) && IsSelection(b, 0, |a|)
    ensures IsSelection(Compose(a, b), 0, |t|)
    ensures Pick(Pick(t, a), b) == Pick(t, Compose(a, b))
  {
    var c := Compose(a, b);
    forall j, k | 0 <= j < k < |c|
      ensures c[j] < c[k]
    {
      assert b[j] < b[k];
    }
  }

  /** One list.remove on a list read from s at the positions keep gives the list read at
      keep without one of its entries. */
  lemma RemoveKeepsOrder(s: seq<Card>, keep: seq<int>, c: Card)
    requires IsSelection(keep, 0, |s|) && c in Pick(s, keep)
    ensures var keep' := Compose(keep, Skip(|keep|, FirstIndex(Pick(s, keep), c)));
      IsSelection(keep', 0, |s|) && |keep'| == |keep| - 1 && Pick(s, keep') == Remove(Pick(s, keep), c)
  {
    var skip := Skip(|keep|, FirstIndex(Pick(s, keep), c));
    RemoveIsSkip(Pick(s, keep), c);
    ComposeSelection(s, keep, skip);
  }

  /** Removing cards one by one with list.remove keeps the cards that stay in their original
      order: the result is the table read at an increasing list of its positions, one fewer
      for each card removed. These are those positions. */
  function KeptPositions(s: seq<Card>, cs: seq<Card>): (keep: seq<int>)
    requires multiset(cs) <= multiset(s)
    ensures IsSelection(keep, 0, |s|) && |keep| == |s| - |cs|
    ensures Pick(s, keep) == RemoveEach(s, cs)
    decreases |cs|
  {
    if cs == [] then
      var keep := seq(|s|, i requires 0 <= i < |s| => i);
      assert Pick(s, keep) == s;
      keep
    else
      var k := |cs| - 1;
      RemoveEachStep(s, cs, k);
      assert cs[..k + 1] == cs;
      var keep0 := KeptPositions(s, cs[..k]);
      RemoveKeepsOrder(s, keep0, cs[k]);
      Compose(keep0, Skip(|keep0|, FirstIndex(Pick(s, keep0), cs[k])))
  }

  // ---------------------------------------------------------------------------------------
  // Facts about a play

  /** Direct match: when the first card worth the played value sits at k, exactly that card
      is captured with the played card and the rest of the table keeps its order. */
  lemma DirectMatch(t: seq<Card>, p: Card, k: nat)
    requires k < |t| && t[k].val == p.val
    requires forall j :: 0 <= j < k ==> t[j].val != p.val
    ensures Resolve(t, p) == Outcome([p, t[k]], t[..k] + t[k + 1..])
  {
  }

  /** Subset sum: with no card worth the played value, but some combination summing to it,
      the play captures the played card followed by a largest such combination, and the
      captured table cards leave the table. */
  lemma SubsetMatch(t: seq<Card>, p: Card, idx: seq<int>)
    requires forall j :: 0 <= j < |t| ==> t[j].val != p.val
    requires IsSelection(idx, 0, |t|) && |idx| >= 1 && SumVals(Pick(t, idx)) == p.val
    ensures var o := Resolve(t, p); var m := BestCombination(t, p.val);
      && m.Some?
      && IsSelection(m.value, 0, |t|) && SumVals(Pick(t, m.value)) == p.val
      && |idx| <= |m.value|
      && o.captured == [p] + Pick(t, m.value)
      && multiset(o.table) == multiset(t) - multiset(Pick(t, m.value))
  {
    BestCombinationIsLargestFirst(t, p.val, idx);
  }

  /** Nothing is captured exactly when no non-empty combination sums to the played value (a
      direct match is a combination of one card); the played card then joins the table end. */
  lemma NoCapture(t: seq<Card>, p: Card)
    ensures Resolve(t, p).captured == [] <==> !CanCapture(t, p.val)
    ensures Resolve(t, p).captured == [] ==> Resolve(t, p).table == t + [p]
  {
    var k := ValIndex(t, p.val);
    if k < |t| {
      assert Pick(t, [k]) == [t[k]];
      assert IsSelection([k], 0, |t|) && SumVals(Pick(t, [k])) == p.val;
    } else if CanCapture(t, p.val) {
      var idx :| IsSelection(idx, 0, |t|) && |idx| >= 1 && SumVals(Pick(t, idx)) == p.val;
      BestCombinationIsLargestFirst(t, p.val, idx);
    }
  }

  /** A play conserves cards: the table and the played card become the new table and the
      captured cards. */
  lemma Conserves(t: seq<Card>, p: Card)
    ensures multiset(t) + multiset{p} == multiset(Resolve(t, p).table) + multiset(Resolve(t, p).captured)
  {
    var k := ValIndex(t, p.val);
    if k < |t| {
      PutBack(multiset(t), multiset{t[k]}, p);
      assert multiset([p, t[k]]) == multiset{p} + multiset{t[k]};
    } else {
      match BestCombination(t, p.val)
      case Some(idx) =>
        PickedSubmultiset(t, idx, 0);
        assert t[0..] == t;
        PutBack(multiset(t), multiset(Pick(t, idx)), p);
      case None =>
    }
  }

  /** Taking a out of m and adding x is undone by putting a back beside x. */
  lemma PutBack(m: multiset<Card>, a: multiset<Card>, x: Card)
    requires a <= m
    ensures m + multiset{x} == (m - a) + (multiset{x} + a)
  {
  }

  /** After any capture the cards left on the table keep their table order: the new table is
      the old one read at an increasing list of positions, one fewer for each table card
      captured. */
  lemma LeftoverInOrder(t: seq<Card>, p: Card)
    ensures var o := Resolve(t, p);
      o.captured != [] ==>
        exists keep :: IsSelection(keep, 0, |t|) && |keep| == |t| + 1 - |o.captured| && Pick(t, keep) == o.table
  {
    var k := ValIndex(t, p.val);
    if k < |t| {
      var keep := Skip(|t|, FirstIndex(t, t[k]));
      RemoveIsSkip(t, t[k]);
      assert Pick(t, keep) == Resolve(t, p).table;
    } else {
      match BestCombination(t, p.val)
      case Some(idx) =>
        PickedSubmultiset(t, idx, 0);
        assert t[0..] == t;
        var keep := KeptPositions(t, Pick(t, idx));
        assert Pick(t, keep) == Resolve(t, p).table;
      case None =>
    }
  }

  /** The table's total value drops by the played value on a capture (the captured table
      cards are worth the played card) and rises by it otherwise. */
  lemma TotalValueAfterPlay(t: seq<Card>, p: Card)
    ensures var o := Resolve(t, p);
      SumVals(o.table) == if o.captured == [] then SumVals(t) + p.val else SumVals(t) - p.val
    ensures var o := Resolve(t, p);
      o.captured != [] ==> SumVals(o.captured) == 2 * p.val
  {
    var k := ValIndex(t, p.val);
    if k < |t| {
      RemoveSum(t, t[k]);
      assert [p, t[k]][1..] == [t[k]] && [t[k]][1..] == [];
    } else {
      match BestCombination(t, p.val)
      case Some(idx) =>
        PickedSubmultiset(t, idx, 0);
        assert t[0..] == t;
        RemoveEachSum(t, Pick(t, idx));
        SumValsAppend([p], Pick(t, idx));
      case None =>
        SumValsAppend(t, [p]);
    }
  }
}
