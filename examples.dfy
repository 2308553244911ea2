/** The capture rules on small concrete tables. */
module CaptureExamples {
  import opened Results
  import opened Cards
  import opened CardLists
  import opened Capture

  /** A played 5 against table cards worth 5 and 3 captures the 5 directly; the 3 stays. */
  lemma DirectMatchExample(x: Card, y: Card, p: Card)
    requires x.val == 5 && y.val == 3 && p.val == 5
    ensures Resolve([x, y], p) == Outcome([p, x], [y])
  {
    DirectMatch([x, y], p, 0);
    assert [x, y][..0] + [x, y][1..] == [y];
  }

  /** Against cards worth 2 and 3 the search for 5 settles on both. */
  lemma SubsetChoice(t: seq<Card>)
    requires |t| == 2 && t[0].val == 2 && t[1].val == 3
    ensures BestCombination(t, 5) == Some([0, 1])
  {
    assert Pick(t, [0, 1]) == [t[0], t[1]] == t;
    SumTwo(t[0], t[1]);
    BestCombinationIsLargestFirst(t, 5, [0, 1]);
    var m := BestCombination(t, 5).value;
    SelectionSize(m, 0, |t|);
    assert |m| == 2 && 0 <= m[0] < m[1] < 2;
    assert m == [m[0], m[1]];
  }

  /** With no 5 on the table, a played 5 takes the 2 and the 3 together. */
  lemma SubsetExample(t: seq<Card>, p: Card)
    requires |t| == 2 && t[0].val == 2 && t[1].val == 3 && p.val == 5
    ensures Resolve(t, p).captured == [p, t[0], t[1]]
  {
    SubsetChoice(t);
    assert Pick(t, [0, 1]) == t;
    assert ValIndex(t, 5) == 2;
  }

  /** In the same play the table is cleared. */
  lemma SubsetClearsTable(t: seq<Card>, p: Card)
    requires |t| == 2 && t[0].val == 2 && t[1].val == 3 && p.val == 5
    ensures Resolve(t, p).table == []
  {
    SubsetChoice(t);
    assert Pick(t, [0, 1]) == t;
    assert ValIndex(t, 5) == 2;
    assert |multiset(Resolve(t, p).table)| == 0;
  }

  /** The sum over two cards. */
  lemma SumTwo(x: Card, y: Card)
    ensures SumVals([x, y]) == x.val + y.val
  {
    assert [x, y][0] == x && [x, y][1..] == [y];
    assert [y][0] == y && [y][1..] == [];
    assert SumVals([y]) == y.val;
  }

  /** The sum over three cards. */
  lemma SumThree(x: Card, y: Card, z: Card)
    ensures SumVals([x, y, z]) == x.val + y.val + z.val
  {
    assert [x, y, z][0] == x && [x, y, z][1..] == [y, z];
    assert [y, z][0] == y && [y, z][1..] == [z];
    assert [z][0] == z && [z][1..] == [];
    assert SumVals([z]) == z.val;
    assert SumVals([y, z]) == y.val + z.val;
  }

  /** On cards worth 1, 1, 2, 3, the only three-position combination summing to 4 is [0, 1, 2]. */
  lemma OnlyOneToOneTwo(t: seq<Card>, m: seq<int>)
    requires |t| == 4 && t[0].val == 1 && t[1].val == 1 && t[2].val == 2 && t[3].val == 3
    requires IsSelection(m, 0, 4) && |m| == 3 && SumVals(Pick(t, m)) == 4
    ensures m == [0, 1, 2]
  {
    assert m[0] < m[1] < m[2];
    assert Pick(t, m) == [t[m[0]], t[m[1]], t[m[2]]];
    SumThree(t[m[0]], t[m[1]], t[m[2]]);
  }

  /** Against cards worth 1, 1, 2, 3 the search for 4 settles on the first three. */
  lemma GreedyChoice(t: seq<Card>)
    requires |t| == 4 && t[0].val == 1 && t[1].val == 1 && t[2].val == 2 && t[3].val == 3
    ensures BestCombination(t, 4) == Some([0, 1, 2])
  {
    assert Pick(t, [0, 1, 2]) == [t[0], t[1], t[2]];
    SumThree(t[0], t[1], t[2]);
    BestCombinationIsLargestFirst(t, 4, [0, 1, 2]);
    var m := BestCombination(t, 4).value;
    SelectionSize(m, 0, |t|);
    if |m| == 4 {
      assert m[0] < m[1] < m[2] < m[3];
      assert m == [0, 1, 2, 3];
      assert Pick(t, m) == [t[0]] + [t[1], t[2], t[3]];
      SumThree(t[1], t[2], t[3]);
      assert false;
    }
    OnlyOneToOneTwo(t, m);
  }

  /** A played 4 against table cards worth 1, 1, 2, 3 takes the three cards 1 + 1 + 2 rather
      than a pair 1 + 3: the larger capture wins. */
  lemma GreedyExample(t: seq<Card>, p: Card)
    requires |t| == 4 && t[0].val == 1 && t[1].val == 1 && t[2].val == 2 && t[3].val == 3
    requires p.val == 4
    ensures Resolve(t, p).captured == [p, t[0], t[1], t[2]]
  {
    GreedyChoice(t);
    assert Pick(t, [0, 1, 2]) == [t[0], t[1], t[2]];
    assert ValIndex(t, 4) == 4;
  }

  /** In the same play the 3 is all that stays on the table. */
  lemma GreedyLeavesThree(t: seq<Card>, p: Card)
    requires |t| == 4 && t[0].val == 1 && t[1].val == 1 && t[2].val == 2 && t[3].val == 3
    requires p.val == 4
    ensures Resolve(t, p).table == [t[3]]
  {
    GreedyLeftover(t, p);
    SingletonOf(Resolve(t, p).table, t[3]);
  }

  /** Playing a 4 on 1, 1, 2, 3 leaves exactly the 3 on the table, counted as a multiset. */
  lemma GreedyLeftover(t: seq<Card>, p: Card)
    requires |t| == 4 && t[0].val == 1 && t[1].val == 1 && t[2].val == 2 && t[3].val == 3
    requires p.val == 4
    ensures multiset(Resolve(t, p).table) == multiset{t[3]}
  {
    GreedyChoice(t);
    assert Pick(t, [0, 1, 2]) == [t[0], t[1], t[2]];
    assert ValIndex(t, 4) == 4;
    assert t == [t[0], t[1], t[2]] + [t[3]];
  }

  /** A list holding exactly one card, once, is that one-card list. */
  lemma SingletonOf(s: seq<Card>, c: Card)
    requires multiset(s) == multiset{c}
    ensures s == [c]
  {
    assert |s| == |multiset(s)| == 1;
    assert s[0] in multiset(s);
  }

  /** On an empty table nothing is captured and the played card becomes the whole table. */
  lemma EmptyTableExample(p: Card)
    ensures Resolve([], p) == Outcome([], [p])
  {
    NoCapture([], p);
  }
}
