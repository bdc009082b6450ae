/**
 * `sort_values("score_0_100", ascending=False)` of src/scoring.py: rows ordered by
 * their 0-100 score, highest first, rows without a score last. pandas does not
 * promise an order among equal scores, so the model claims only the ordering and
 * that the rows are a permutation of the input.
 */
module Ranking {
  import opened Frames

  const ScoreColumn: string := "score_0_100"

  function Key(row: Row): Value
  {
    NumberIn(row, ScoreColumn)
  }

  /** `a` may come before `b` in a descending order that puts NaN last. */
  predicate Precedes(a: Value, b: Value)
  {
    b.NaN? || (a.Val? && a.x >= b.x)
  }

  /** Any two scores can be ordered one way or the other. */
  lemma PrecedesTotal(a: Value, b: Value)
    ensures Precedes(a, b) || Precedes(b, a)
  {
  }

  predicate SortedByScore(rows: seq<Row>)
  {
    forall i, j :: 0 <= i < j < |rows| ==> Precedes(Key(rows[i]), Key(rows[j]))
  }

  /** Inserts a row into a sorted sequence before the first row it may precede. */
  function Insert(row: Row, sorted: seq<Row>): (r: seq<Row>)
    ensures |r| == |sorted| + 1
    ensures multiset(r) == multiset(sorted) + multiset{row}
  {
    if sorted == [] then [row]
    else if Precedes(Key(row), Key(sorted[0])) then [row] + sorted
    else
      assert sorted == [sorted[0]] + sorted[1..];
      [sorted[0]] + Insert(row, sorted[1..])
  }

  lemma {:induction false} InsertSorted(row: Row, sorted: seq<Row>)
    requires SortedByScore(sorted)
    ensures SortedByScore(Insert(row, sorted))
  {
    if sorted != [] && Precedes(Key(row), Key(sorted[0])) {
      forall j | 0 <= j < |sorted|
        ensures Precedes(Key(row), Key(sorted[j]))
      {
      }
      ConsSortedByScore(row, sorted);
    } else if sorted != [] {
      var rest := sorted[1..];
      InsertSorted(row, rest);
      var ins := Insert(row, rest);
      forall j | 0 <= j < |ins|
        ensures Precedes(Key(sorted[0]), Key(ins[j]))
      {
        HeadPrecedesInserted(row, sorted, j);
      }
      ConsSortedByScore(sorted[0], ins);
    }
  }

  /** A row that may precede every row of a sorted sequence may go in front of it. */
  lemma ConsSortedByScore(h: Row, s: seq<Row>)
    requires SortedByScore(s)
    requires forall j :: 0 <= j < |s| ==> Precedes(Key(h), Key(s[j]))
    ensures SortedByScore([h] + s)
  {
    var r := [h] + s;
    assert forall j :: 0 < j < |r| ==> r[j] == s[j - 1];
  }

  /** The head of a sorted sequence precedes whatever inserting a later row into its tail gives. */
  lemma HeadPrecedesInserted(row: Row, sorted: seq<Row>, j: nat)
    requires SortedByScore(sorted) && sorted != [] && !Precedes(Key(row), Key(sorted[0]))
    requires j < |Insert(row, sorted[1..])|
    ensures Precedes(Key(sorted[0]), Key(Insert(row, sorted[1..])[j]))
  {
    var rest := sorted[1..];
    var ins := Insert(row, rest);
    assert ins[j] in multiset(ins);
    if ins[j] != row {
      assert ins[j] in multiset(rest);
      var k :| 0 <= k < |rest| && rest[k] == ins[j];
      assert sorted[k + 1] == ins[j];
    }
  }

  /** Insertion sort by the score column. */
  function SortByScore(rows: seq<Row>): (r: seq<Row>)
    ensures |r| == |rows|
    ensures multiset(r) == multiset(rows)
  {
    if rows == [] then []
    else
      assert rows == [rows[0]] + rows[1..];
      Insert(rows[0], SortByScore(rows[1..]))
  }

  /** The sorted rows are in descending score order with NaN last. */
  lemma {:induction false} SortByScoreSorted(rows: seq<Row>)
    ensures SortedByScore(SortByScore(rows))
  {
    if rows != [] {
      SortByScoreSorted(rows[1..]);
      InsertSorted(rows[0], SortByScore(rows[1..]));
    }
  }
}
