/**
 * The loaded traffic table and the step that adds the derived
 * "Congestion Level" column to it.
 */
module Frame {
  import opened Congestion

  /**
   * One row as read from the CSV file: the two columns the dashboard uses
   * ("Traffic Volume", "Average Speed (km/h)") and every other column, kept opaque.
   */
  datatype Record = Record(volume: real, speed: real, others: seq<string>)

  /** A row once "Congestion Level" has been added to the table. */
  datatype Row = Row(record: Record, level: Level)

  /**
   * The table after the derived-column step, as a value: the same rows in the
   * same order, each row's columns untouched, each row labelled from its own speed.
   */
  function Classify(records: seq<Record>): (rows: seq<Row>)
    ensures |rows| == |records|
    ensures forall i :: 0 <= i < |records| ==>
      rows[i].record == records[i] && rows[i].level == GetCongestion(records[i].speed)
  {
    if records == [] then []
    else [Row(records[0], GetCongestion(records[0].speed))] + Classify(records[1..])
  }

  /** Joins the loaded rows with a column of labels, position by position. */
  function Attach(records: seq<Record>, levels: seq<Level>): seq<Row>
    requires |levels| == |records|
  {
    seq(|records|, i requires 0 <= i < |records| => Row(records[i], levels[i]))
  }

  /**
   * Rows are labelled independently of each other: classifying a table in two
   * pieces and joining the results gives the same table.
   */
  lemma ClassifySplit(front: seq<Record>, back: seq<Record>)
    ensures Classify(front + back) == Classify(front) + Classify(back)
  {
  }

  /**
   * The pandas DataFrame the dashboard loads. The CSV columns are `records`;
   * the "Congestion Level" column is `congestion`, null until it is added.
   */
  class DataFrame {
    var records: seq<Record>
    var congestion: array?<Level>

    ghost predicate Valid()
      reads this
    {
      congestion != null ==> congestion.Length == |records|
    }

    /** The table as loaded: no derived column yet. */
    constructor (loaded: seq<Record>)
      ensures Valid()
      ensures records == loaded && congestion == null
    {
      records := loaded;
      congestion := null;
    }

    /** The table with its derived column, row by row. */
    function Rows(): seq<Row>
      reads this, congestion
      requires Valid() && congestion != null
    {
      Attach(records, congestion[..])
    }

    /**
     * Adds the Congestion Level column, the classifier applied to every row's
     * speed: a fresh column is filled row by row and attached to the table, replacing
     * any earlier one; the loaded columns are not touched.
     */
    method AddCongestionLevel()
      requires Valid()
      modifies this
      ensures Valid()
      ensures records == old(records)
      ensures congestion != null && fresh(congestion)
      ensures Rows() == Classify(records)
    {
      var loaded := records;
      var column := new Level[|loaded|];
      var i := 0;
      while i < |loaded|
        modifies column
        invariant 0 <= i <= |loaded|
        invariant forall k :: 0 <= k < i ==> column[k] == GetCongestion(loaded[k].speed)
      {
        column[i] := GetCongestion(loaded[i].speed);
        i := i + 1;
      }
      congestion := column;
    }
  }
}
