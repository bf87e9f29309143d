/**
 * The read-only projections of the classified table that feed the dashboard's
 * pages: the overview preview, the plot sample of the analysis page and the
 * congestion counts behind its bar chart.
 */
module Views {
  import opened Seqs
  import opened Congestion
  import opened Frame
  import opened Frequencies

  /** Rows shown in the overview preview. */
  const PreviewRows: nat := 50
  /** Largest number of rows the analysis charts draw. */
  const SampleCap: nat := 1500
  /** The fixed random_state of the plot sample. */
  const SampleSeed: int := 42

  /**
   * The random generator behind DataFrame.sample, seen from outside: given the
   * number of rows, how many to draw and a seed, the row positions it draws.
   */
  type Sampler = (nat, nat, int) -> seq<nat>

  /** k distinct positions of a table with n rows: a draw without replacement. */
  predicate IsDraw(draw: seq<nat>, n: nat, k: nat) {
    |draw| == k && Distinct(draw) && forall i :: 0 <= i < |draw| ==> draw[i] < n
  }

  /** The rows at the drawn positions, in the order drawn. */
  function Pick<T>(table: seq<T>, draw: seq<nat>): seq<T>
    requires forall i :: 0 <= i < |draw| ==> draw[i] < |table|
  {
    seq(|draw|, i requires 0 <= i < |draw| => table[draw[i]])
  }

  /** The overview preview: the first 50 rows in their original order, all of them when there are fewer. */
  function Preview(table: seq<Row>): (preview: seq<Row>)
    ensures |preview| == Min(PreviewRows, |table|)
    ensures preview <= table
  {
    if |table| <= PreviewRows then table else table[..PreviewRows]
  }

  /**
   * Drawing rows at distinct positions never yields a row more often than the
   * table holds it.
   */
  lemma {:induction false} PickIsSubMultiset<T>(table: seq<T>, draw: seq<nat>)
    requires forall i :: 0 <= i < |draw| ==> draw[i] < |table|
    requires Distinct(draw)
    ensures multiset(Pick(table, draw)) <= multiset(table)
    decreases |table|
  {
    if draw == [] {
      assert Pick(table, draw) == [];
    } else {
      assert draw[0] < |table|;
      var last := |table| - 1;
      var front := table[..last];
      assert table == front + [table[last]];
      if m :| 0 <= m < |draw| && draw[m] == last {
        var rest := draw[..m] + draw[m + 1..];
        forall i | 0 <= i < |rest| ensures rest[i] < last {
          if i < m {
            assert rest[i] == draw[i];
          } else {
            assert rest[i] == draw[i + 1];
          }
        }
        PickIsSubMultiset(front, rest);
        assert Pick(table, draw) == Pick(front, draw[..m]) + [table[last]] + Pick(front, draw[m + 1..]);
        assert Pick(front, rest) == Pick(front, draw[..m]) + Pick(front, draw[m + 1..]);
      } else {
        PickIsSubMultiset(front, draw);
        assert Pick(table, draw) == Pick(front, draw);
      }
    }
  }

  /**
   * The rows the analysis charts draw: a table over the cap is replaced by
   * SampleCap rows drawn without replacement with the fixed seed; a smaller
   * one is used as it is.
   */
  function PlotData(table: seq<Row>, sample: Sampler): (plot: seq<Row>)
    requires |table| > SampleCap ==> IsDraw(sample(|table|, SampleCap, SampleSeed), |table|, SampleCap)
    ensures |plot| == Min(|table|, SampleCap)
    ensures |table| <= SampleCap ==> plot == table
    ensures multiset(plot) <= multiset(table)
    ensures |table| > SampleCap ==> plot == Pick(table, sample(|table|, SampleCap, SampleSeed))
  {
    if |table| > SampleCap then
      var draw := sample(|table|, SampleCap, SampleSeed);
      PickIsSubMultiset(table, draw);
      Pick(table, draw)
    else
      table
  }

  /** The "Congestion Level" column, as the text the table holds. */
  function LevelNames(table: seq<Row>): seq<string>
  {
    seq(|table|, i requires 0 <= i < |table| => Name(table[i].level))
  }

  /** How many rows of the table carry a level. */
  function RowsWith(table: seq<Row>, level: Level): nat
  {
    if table == [] then 0
    else (if table[0].level == level then 1 else 0) + RowsWith(table[1..], level)
  }

  /** Every row carries exactly one of the three levels. */
  lemma {:induction false} RowsPerLevelSum(table: seq<Row>)
    ensures RowsWith(table, Low) + RowsWith(table, Medium) + RowsWith(table, High) == |table|
  {
    if table != [] {
      RowsPerLevelSum(table[1..]);
    }
  }

  /** The frequency counts of the Congestion Level column over the whole table. */
  function CongestionCounts(table: seq<Row>): (bars: seq<Bar<string>>)
    ensures Descending(bars)
    ensures DistinctValues(bars)
    ensures forall i :: 0 <= i < |bars| ==> bars[i].value in Labels
    ensures Total(bars) == |table|
  {
    ValueCountsBars(LevelNames(table));
    ValueCounts(LevelNames(table))
  }

  /** Counting the texts of the column counts the rows of each level. */
  lemma {:induction false} NamesCountRows(table: seq<Row>, level: Level)
    ensures multiset(LevelNames(table))[Name(level)] == RowsWith(table, level)
  {
    if table != [] {
      NamesCountRows(table[1..], level);
      assert LevelNames(table) == [Name(table[0].level)] + LevelNames(table[1..]);
      NameInjective(table[0].level, level);
    }
  }

  /** Every bar is labelled "Low", "Medium" or "High". */
  lemma CongestionLabels(table: seq<Row>)
    ensures forall i :: 0 <= i < |CongestionCounts(table)| ==> CongestionCounts(table)[i].value in Labels
  {
    var names := LevelNames(table);
    var bars := CongestionCounts(table);
    ValueCountsBars(names);
    forall i | 0 <= i < |bars| ensures bars[i].value in Labels {
      var k :| 0 <= k < |names| && names[k] == bars[i].value;
    }
  }

  /** One bar per label at most, so at most three bars. */
  lemma CongestionBarsAtMostThree(table: seq<Row>)
    ensures |CongestionCounts(table)| <= 3
  {
    var bars := CongestionCounts(table);
    CongestionLabels(table);
    ValueCountsSpec(LevelNames(table));
    ValueSetSize(bars);
    SubsetSize(ValueSet(bars), Labels);
    LabelsSize();
  }

  /** A level has a bar exactly when some row carries it, and the bar counts those rows. */
  lemma CongestionBarOf(table: seq<Row>, level: Level)
    ensures HasBar(CongestionCounts(table), Name(level)) <==> RowsWith(table, level) > 0
    ensures forall i :: 0 <= i < |CongestionCounts(table)| && CongestionCounts(table)[i].value == Name(level) ==>
      CongestionCounts(table)[i].count == RowsWith(table, level)
  {
    var names := LevelNames(table);
    ValueCountsSpec(names);
    NamesCountRows(table, level);
  }

  /**
   * The bars of the congestion chart: tallest first, and among equal heights
   * in the order of the first row carrying each label; one bar per label at
   * most, every bar labelled "Low", "Medium" or "High", so at most three; a
   * level has a bar exactly when some row carries it, and its bar holds the
   * number of such rows; the bars add up to the number of rows.
   */
  lemma CongestionCountsSpec(table: seq<Row>)
    ensures Descending(CongestionCounts(table))
    ensures DistinctValues(CongestionCounts(table))
    ensures |CongestionCounts(table)| <= 3
    ensures forall i :: 0 <= i < |CongestionCounts(table)| ==>
      CongestionCounts(table)[i].value in Labels
    ensures forall level :: HasBar(CongestionCounts(table), Name(level)) <==> RowsWith(table, level) > 0
    ensures forall i, level :: 0 <= i < |CongestionCounts(table)| && CongestionCounts(table)[i].value == Name(level) ==>
      CongestionCounts(table)[i].count == RowsWith(table, level)
    ensures Total(CongestionCounts(table)) == |table|
    ensures forall i, j :: 0 <= i < j < |CongestionCounts(table)| && CongestionCounts(table)[i].count == CongestionCounts(table)[j].count ==>
      FirstIndex(LevelNames(table), CongestionCounts(table)[i].value) < FirstIndex(LevelNames(table), CongestionCounts(table)[j].value)
  {
    ValueCountsSpec(LevelNames(table));
    CongestionLabels(table);
    CongestionBarsAtMostThree(table);
    forall level ensures HasBar(CongestionCounts(table), Name(level)) <==> RowsWith(table, level) > 0 {
      CongestionBarOf(table, level);
    }
    forall i, level | 0 <= i < |CongestionCounts(table)| && CongestionCounts(table)[i].value == Name(level)
      ensures CongestionCounts(table)[i].count == RowsWith(table, level)
    {
      CongestionBarOf(table, level);
    }
  }

  /** What the analysis page computes from the classified table. */
  datatype AnalysisView = AnalysisView(plotData: seq<Row>, congestionBars: seq<Bar<string>>)

  /**
   * The analysis page: the histogram and the scatter plot draw the plot sample,
   * while the congestion bars count the whole table, so they add up to every
   * row even when the charts above them show only SampleCap rows.
   */
  function Analysis(table: seq<Row>, sample: Sampler): (view: AnalysisView)
    requires |table| > SampleCap ==> IsDraw(sample(|table|, SampleCap, SampleSeed), |table|, SampleCap)
    ensures view.plotData == PlotData(table, sample)
    ensures |view.plotData| == Min(|table|, SampleCap)
    ensures view.congestionBars == CongestionCounts(table)
    ensures Total(view.congestionBars) == |table|
  {
    CongestionCountsSpec(table);
    AnalysisView(PlotData(table, sample), CongestionCounts(table))
  }

  /** A table holding each level exactly once charts three bars of height one. */
  lemma OneRowPerLevel(table: seq<Row>)
    requires forall level :: RowsWith(table, level) == 1
    ensures |CongestionCounts(table)| == 3
    ensures forall level :: HasBar(CongestionCounts(table), Name(level))
    ensures forall i :: 0 <= i < |CongestionCounts(table)| ==> CongestionCounts(table)[i].count == 1
  {
    var bars := CongestionCounts(table);
    CongestionLabels(table);
    forall i | 0 <= i < |bars| ensures bars[i].count == 1 {
      CongestionBarOf(table, LevelOf(bars[i].value));
    }
    forall level ensures HasBar(bars, Name(level)) {
      CongestionBarOf(table, level);
    }
    forall x | x in Labels ensures x in ValueSet(bars) {
      assert HasBar(bars, Name(LevelOf(x)));
    }
    assert ValueSet(bars) == Labels;
    assert DistinctValues(bars) by {
      ValueCountsSpec(LevelNames(table));
    }
    ValueSetSize(bars);
    LabelsSize();
  }

  /**
   * A table holding each level exactly once has three rows, and its chart
   * shows their labels in row order, each bar of height one.
   */
  lemma OneRowPerLevelInOrder(table: seq<Row>)
    requires forall level :: RowsWith(table, level) == 1
    ensures |table| == 3 && |CongestionCounts(table)| == 3
    ensures forall i :: 0 <= i < 3 ==> CongestionCounts(table)[i] == Bar(LevelNames(table)[i], 1)
  {
    var bars := CongestionCounts(table);
    var names := LevelNames(table);
    assert |table| == 3 by {
      RowsPerLevelSum(table);
    }
    assert |bars| == 3 && forall i :: 0 <= i < 3 ==> bars[i].count == 1 by {
      OneRowPerLevel(table);
    }
    assert forall i :: 0 <= i < 3 ==> FirstIndex(names, bars[i].value) < 3 by {
      ValueCountsBars(names);
    }
    assert FirstIndex(names, bars[0].value) < FirstIndex(names, bars[1].value) < FirstIndex(names, bars[2].value) by {
      ValueCountsTiesInOrder(names);
    }
    forall i | 0 <= i < 3 ensures bars[i] == Bar(names[i], 1) {
      assert FirstIndex(names, bars[i].value) == i;
    }
  }

  /** The table of three rows at 50, 35 and 20 km/h, once classified. */
  function ThreeRows(volume: real, others: seq<string>): seq<Row>
  {
    Classify([Record(volume, 50.0, others), Record(volume, 35.0, others), Record(volume, 20.0, others)])
  }

  /**
   * Three rows at 50, 35 and 20 km/h are labelled Low, Medium and High, and
   * the chart gets one bar of height one per label, in that order.
   */
  lemma ThreeRowExample(volume: real, others: seq<string>)
    ensures LevelNames(ThreeRows(volume, others)) == ["Low", "Medium", "High"]
    ensures CongestionCounts(ThreeRows(volume, others)) == [Bar("Low", 1), Bar("Medium", 1), Bar("High", 1)]
  {
    var table := ThreeRows(volume, others);
    assert table[0].level == Low && table[1].level == Medium && table[2].level == High;
    assert LevelNames(table) == ["Low", "Medium", "High"];
    assert table[1..][0] == table[1] && table[1..][1..][0] == table[2] && table[1..][1..][1..] == [];
    forall level ensures RowsWith(table, level) == 1 {
      assert RowsWith(table[1..][1..], level) == if level == High then 1 else 0;
      assert RowsWith(table[1..], level) == if level == Low then 0 else 1;
    }
    OneRowPerLevelInOrder(table);
  }
}
