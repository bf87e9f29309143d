/**
 * pandas' Series.value_counts() as used for the congestion bar chart: one bar
 * per distinct value of the column, holding how many rows carry it, the
 * tallest bar first.
 */
module Frequencies {
  import opened Seqs

  /** One entry of the result: a value of the column and its frequency. */
  datatype Bar<T> = Bar(value: T, count: nat)

  /** Sum of the counts of all bars. */
  function Total<T>(bars: seq<Bar<T>>): nat
  {
    if bars == [] then 0 else bars[0].count + Total(bars[1..])
  }

  /** Bars are ordered by count, highest first. */
  predicate Descending<T>(bars: seq<Bar<T>>) {
    forall i, j :: 0 <= i < j < |bars| ==> bars[i].count >= bars[j].count
  }

  /** No value has two bars. */
  predicate DistinctValues<T(==)>(bars: seq<Bar<T>>) {
    forall i, j :: 0 <= i < j < |bars| ==> bars[i].value != bars[j].value
  }

  /** The value v has a bar. */
  predicate HasBar<T(==)>(bars: seq<Bar<T>>, v: T) {
    exists i :: 0 <= i < |bars| && bars[i].value == v
  }

  /** The distinct values of a column, in the order they first appear. */
  function FirstSeen<T(==)>(column: seq<T>): (values: seq<T>)
    ensures Distinct(values)
    ensures forall i :: 0 <= i < |values| ==> values[i] in column
    ensures forall i :: 0 <= i < |column| ==> column[i] in values
    decreases |column|
  {
    if column == [] then []
    else
      var seen := FirstSeen(column[..|column| - 1]);
      var last := column[|column| - 1];
      assert forall i :: 0 <= i < |column| - 1 ==> column[i] == column[..|column| - 1][i];
      if last in seen then seen else seen + [last]
  }

  /** The position of the first row holding v; the column's length when no row does. */
  function FirstIndex<T(==)>(column: seq<T>, v: T): (k: nat)
    ensures k <= |column|
    ensures k < |column| <==> v in column
    ensures k < |column| ==> column[k] == v && v !in column[..k]
  {
    if column == [] then 0
    else if column[0] == v then 0
    else
      var k := 1 + FirstIndex(column[1..], v);
      assert column == [column[0]] + column[1..];
      assert k < |column| ==> column[..k] == [column[0]] + column[1..][..k - 1];
      k
  }

  /** A row added at the end does not move the first row of a value already present. */
  lemma FirstIndexOneMoreRow<T>(column: seq<T>, x: T, v: T)
    ensures v in column ==> FirstIndex(column + [x], v) == FirstIndex(column, v)
    ensures v !in column && v == x ==> FirstIndex(column + [x], v) == |column|
  {
    var longer := column + [x];
    var k, k' := FirstIndex(longer, v), FirstIndex(column, v);
    assert longer[..|column|] == column;
    if v in column {
      assert longer[k'] == v;
    }
  }

  /** FirstSeen lists the values in the order of the rows where they first appear. */
  lemma {:induction false} FirstSeenInOrder<T>(column: seq<T>)
    ensures forall i, j :: 0 <= i < j < |FirstSeen(column)| ==>
      FirstIndex(column, FirstSeen(column)[i]) < FirstIndex(column, FirstSeen(column)[j])
    decreases |column|
  {
    if column != [] {
      var front := column[..|column| - 1];
      var last := column[|column| - 1];
      assert column == front + [last];
      FirstSeenInOrder(front);
      var seen := FirstSeen(front);
      forall i | 0 <= i < |seen| ensures FirstIndex(column, seen[i]) == FirstIndex(front, seen[i]) < |front| {
        FirstIndexOneMoreRow(front, last, seen[i]);
      }
      if last !in seen {
        FirstIndexOneMoreRow(front, last, last);
      }
    }
  }

  /** One bar for each of `values`, counting its rows in `column`. */
  function BarsOf<T(==)>(values: seq<T>, column: seq<T>): seq<Bar<T>>
  {
    seq(|values|, i requires 0 <= i < |values| => Bar(values[i], multiset(column)[values[i]]))
  }

  /** The unsorted tally: a bar per distinct value, in first-seen order. */
  function Tally<T(==)>(column: seq<T>): seq<Bar<T>>
  {
    BarsOf(FirstSeen(column), column)
  }

  /**
   * Places a bar in a descending sequence, in front of the bars with the same
   * count, so that among equal counts the earlier bar stays first.
   */
  function Insert<T(==)>(b: Bar<T>, bars: seq<Bar<T>>): (r: seq<Bar<T>>)
    ensures |r| == |bars| + 1
    ensures multiset(r) == multiset(bars) + multiset{b}
    ensures Total(r) == b.count + Total(bars)
  {
    if bars == [] || b.count >= bars[0].count then [b] + bars
    else
      var r := [bars[0]] + Insert(b, bars[1..]);
      assert bars == [bars[0]] + bars[1..];
      r
  }

  /** A stable sort of bars by count, highest first. */
  function SortByCount<T(==)>(bars: seq<Bar<T>>): (r: seq<Bar<T>>)
    ensures |r| == |bars|
    ensures multiset(r) == multiset(bars)
    ensures Total(r) == Total(bars)
    ensures Descending(r)
  {
    if bars == [] then []
    else
      assert bars == [bars[0]] + bars[1..];
      InsertKeepsDescending(bars[0], SortByCount(bars[1..]));
      Insert(bars[0], SortByCount(bars[1..]))
  }

  /** value_counts(): the tally sorted by count, highest first. */
  function ValueCounts<T(==)>(column: seq<T>): (bars: seq<Bar<T>>)
    ensures Descending(bars)
    ensures DistinctValues(bars)
    ensures Total(bars) == |column|
  {
    SortKeepsDistinctValues(Tally(column));
    TallyTotal(column);
    SortByCount(Tally(column))
  }

  /** A property every bar has survives insertion. */
  lemma {:induction false} InsertKeepsAll<T>(p: Bar<T> -> bool, b: Bar<T>, bars: seq<Bar<T>>)
    requires p(b) && forall i :: 0 <= i < |bars| ==> p(bars[i])
    ensures forall i :: 0 <= i < |Insert(b, bars)| ==> p(Insert(b, bars)[i])
  {
    if bars != [] && b.count < bars[0].count {
      InsertKeepsAll(p, b, bars[1..]);
      assert Insert(b, bars) == [bars[0]] + Insert(b, bars[1..]);
    }
  }

  /** A property every bar has survives sorting. */
  lemma {:induction false} SortKeepsAll<T>(p: Bar<T> -> bool, bars: seq<Bar<T>>)
    requires forall i :: 0 <= i < |bars| ==> p(bars[i])
    ensures forall i :: 0 <= i < |SortByCount(bars)| ==> p(SortByCount(bars)[i])
  {
    if bars != [] {
      SortKeepsAll(p, bars[1..]);
      InsertKeepsAll(p, bars[0], SortByCount(bars[1..]));
    }
  }

  lemma {:induction false} InsertKeepsDescending<T>(b: Bar<T>, bars: seq<Bar<T>>)
    requires Descending(bars)
    ensures Descending(Insert(b, bars))
  {
    var r := Insert(b, bars);
    if bars == [] || b.count >= bars[0].count {
      assert forall j :: 1 <= j < |r| ==> r[j] == bars[j - 1];
    } else {
      var tail := Insert(b, bars[1..]);
      assert r == [bars[0]] + tail;
      InsertKeepsDescending(b, bars[1..]);
      InsertKeepsAll((x: Bar<T>) => x.count <= bars[0].count, b, bars[1..]);
    }
  }

  lemma {:induction false} InsertKeepsDistinctValues<T>(b: Bar<T>, bars: seq<Bar<T>>)
    requires DistinctValues(bars)
    requires forall i :: 0 <= i < |bars| ==> bars[i].value != b.value
    ensures DistinctValues(Insert(b, bars))
  {
    if bars != [] && b.count < bars[0].count {
      InsertKeepsDistinctValues(b, bars[1..]);
      assert Insert(b, bars) == [bars[0]] + Insert(b, bars[1..]);
      InsertKeepsAll((x: Bar<T>) => x.value != bars[0].value, b, bars[1..]);
    }
  }

  lemma {:induction false} SortKeepsDistinctValues<T>(bars: seq<Bar<T>>)
    requires DistinctValues(bars)
    ensures DistinctValues(SortByCount(bars))
  {
    if bars != [] {
      SortKeepsDistinctValues(bars[1..]);
      SortKeepsAll((x: Bar<T>) => x.value != bars[0].value, bars[1..]);
      InsertKeepsDistinctValues(bars[0], SortByCount(bars[1..]));
    }
  }

  /** Bars with equal counts appear in increasing rank. */
  ghost predicate TiesInOrder<T>(bars: seq<Bar<T>>, rank: Bar<T> -> int) {
    forall i, j :: 0 <= i < j < |bars| && bars[i].count == bars[j].count ==> rank(bars[i]) < rank(bars[j])
  }

  /** Inserting a bar ranked below all others keeps ties in rank order. */
  lemma {:induction false} InsertKeepsTiesInOrder<T>(rank: Bar<T> -> int, b: Bar<T>, bars: seq<Bar<T>>)
    requires TiesInOrder(bars, rank)
    requires forall i :: 0 <= i < |bars| ==> rank(b) < rank(bars[i])
    ensures TiesInOrder(Insert(b, bars), rank)
  {
    var r := Insert(b, bars);
    if bars == [] || b.count >= bars[0].count {
      assert forall j :: 1 <= j < |r| ==> r[j] == bars[j - 1];
    } else {
      var tail := Insert(b, bars[1..]);
      assert r == [bars[0]] + tail;
      InsertKeepsTiesInOrder(rank, b, bars[1..]);
      InsertKeepsAll((x: Bar<T>) => x.count == bars[0].count ==> rank(bars[0]) < rank(x), b, bars[1..]);
    }
  }

  /**
   * The sort is stable: of two bars with the same count, the one that came
   * first in the input comes first in the output.
   */
  lemma {:induction false} SortIsStable<T>(rank: Bar<T> -> int, bars: seq<Bar<T>>)
    requires forall i, j :: 0 <= i < j < |bars| ==> rank(bars[i]) < rank(bars[j])
    ensures TiesInOrder(SortByCount(bars), rank)
  {
    if bars != [] {
      SortIsStable(rank, bars[1..]);
      SortKeepsAll((x: Bar<T>) => rank(bars[0]) < rank(x), bars[1..]);
      InsertKeepsTiesInOrder(rank, bars[0], SortByCount(bars[1..]));
    }
  }

  lemma {:induction false} TotalAppend<T>(front: seq<Bar<T>>, back: seq<Bar<T>>)
    ensures Total(front + back) == Total(front) + Total(back)
  {
    if front == [] {
      assert front + back == back;
    } else {
      assert (front + back)[1..] == front[1..] + back;
      TotalAppend(front[1..], back);
    }
  }

  /** One more row with value x adds one to the bar of x, if x has one. */
  lemma {:induction false} BarsOfOneMoreRow<T>(values: seq<T>, column: seq<T>, x: T)
    requires Distinct(values)
    ensures Total(BarsOf(values, column + [x])) == Total(BarsOf(values, column)) + (if x in values then 1 else 0)
  {
    if values != [] {
      var rest := values[1..];
      assert BarsOf(values, column + [x]) == [Bar(values[0], multiset(column + [x])[values[0]])] + BarsOf(rest, column + [x]);
      assert BarsOf(values, column) == [Bar(values[0], multiset(column)[values[0]])] + BarsOf(rest, column);
      assert Distinct(rest);
      BarsOfOneMoreRow(rest, column, x);
      assert x in values <==> x == values[0] || x in rest;
      assert x == values[0] ==> x !in rest;
    }
  }

  /** Every row of the column is counted exactly once by the tally. */
  lemma {:induction false} TallyTotal<T>(column: seq<T>)
    ensures Total(Tally(column)) == |column|
    decreases |column|
  {
    if column != [] {
      var front := column[..|column| - 1];
      var last := column[|column| - 1];
      assert column == front + [last];
      var seen := FirstSeen(front);
      TallyTotal(front);
      BarsOfOneMoreRow(seen, front, last);
      if last !in seen {
        assert BarsOf(seen + [last], column) == BarsOf(seen, column) + [Bar(last, multiset(column)[last])];
        TotalAppend(BarsOf(seen, column), [Bar(last, multiset(column)[last])]);
        assert multiset(front)[last] == 0;
      }
    }
  }

  /** Each bar of the tally counts a value of the column, so it is not empty. */
  lemma TallyBars<T>(column: seq<T>)
    ensures forall i :: 0 <= i < |Tally(column)| ==>
      Tally(column)[i].value in column && Tally(column)[i].count == multiset(column)[Tally(column)[i].value] > 0
  {
  }

  /** The tally has a bar for a value exactly when the column holds it. */
  lemma TallyCoversColumn<T>(column: seq<T>, v: T)
    ensures HasBar(Tally(column), v) <==> v in column
  {
    var seen := FirstSeen(column);
    if v in column {
      var k :| 0 <= k < |column| && column[k] == v;
      var i :| 0 <= i < |seen| && seen[i] == column[k];
      assert Tally(column)[i].value == v;
    }
  }

  /** Each bar of value_counts() counts a value of the column, so it is not empty. */
  lemma ValueCountsBars<T>(column: seq<T>)
    ensures forall i :: 0 <= i < |ValueCounts(column)| ==>
      ValueCounts(column)[i].value in column &&
      ValueCounts(column)[i].count == multiset(column)[ValueCounts(column)[i].value] > 0
  {
    TallyBars(column);
    SortKeepsAll((x: Bar<T>) => x.value in column && x.count == multiset(column)[x.value] > 0, Tally(column));
  }

  /** Every value of the column has a bar in value_counts(). */
  lemma ValueCountsCover<T>(column: seq<T>, v: T)
    requires v in column
    ensures HasBar(ValueCounts(column), v)
  {
    var tally := Tally(column);
    var bars := ValueCounts(column);
    TallyCoversColumn(column, v);
    var i :| 0 <= i < |tally| && tally[i].value == v;
    assert tally[i] in multiset(tally);
    assert tally[i] in multiset(bars);
    var j :| 0 <= j < |bars| && bars[j] == tally[i];
  }

  /** Among bars of equal count, the value that appears first in the column comes first. */
  lemma ValueCountsTiesInOrder<T>(column: seq<T>)
    ensures forall i, j :: 0 <= i < j < |ValueCounts(column)| && ValueCounts(column)[i].count == ValueCounts(column)[j].count ==>
      FirstIndex(column, ValueCounts(column)[i].value) < FirstIndex(column, ValueCounts(column)[j].value)
  {
    var rank := (x: Bar<T>) => FirstIndex(column, x.value);
    FirstSeenInOrder(column);
    SortIsStable(rank, Tally(column));
  }

  /**
   * What value_counts() returns: bars sorted by count, highest first, and
   * among equal counts in the order their values first appear; one bar for
   * each value occurring in the column and for no other; each bar holding
   * the number of rows with its value, so no bar is empty; the counts adding
   * up to the number of rows.
   */
  lemma ValueCountsSpec<T>(column: seq<T>)
    ensures Descending(ValueCounts(column))
    ensures DistinctValues(ValueCounts(column))
    ensures forall v :: HasBar(ValueCounts(column), v) <==> v in column
    ensures forall i :: 0 <= i < |ValueCounts(column)| ==>
      ValueCounts(column)[i].count == multiset(column)[ValueCounts(column)[i].value] > 0
    ensures Total(ValueCounts(column)) == |column|
    ensures forall i, j :: 0 <= i < j < |ValueCounts(column)| && ValueCounts(column)[i].count == ValueCounts(column)[j].count ==>
      FirstIndex(column, ValueCounts(column)[i].value) < FirstIndex(column, ValueCounts(column)[j].value)
  {
    ValueCountsTiesInOrder(column);
    SortKeepsDistinctValues(Tally(column));
    TallyTotal(column);
    ValueCountsBars(column);
    forall v | v in column ensures HasBar(ValueCounts(column), v) {
      ValueCountsCover(column, v);
    }
  }

  /** The values that have a bar. */
  ghost function ValueSet<T>(bars: seq<Bar<T>>): set<T>
  {
    set i | 0 <= i < |bars| :: bars[i].value
  }

  /** With distinct values there are as many bars as values that have one. */
  lemma {:induction false} ValueSetSize<T>(bars: seq<Bar<T>>)
    requires DistinctValues(bars)
    ensures |ValueSet(bars)| == |bars|
  {
    if bars != [] {
      var front := bars[..|bars| - 1];
      var last := bars[|bars| - 1];
      assert DistinctValues(front);
      ValueSetSize(front);
      assert ValueSet(bars) == ValueSet(front) + {last.value};
      assert last.value !in ValueSet(front);
    }
  }
}
