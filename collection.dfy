/** The contract shared by every `collect` function: rows are taken in order,
    each row turns into a few `set` calls, and the first row that cannot be
    read ends the pass with an error, keeping the `set` calls already made.
    `Collected` folds a per-row projection over the rows; the lemmas say what
    the resulting observations and outcome are, and what readings a gauge
    holds once they are applied. */
module Collection {
  import opened Gauges

  /** Why a `collect` call stopped: the result had no row 0, a row was shorter than
      the column read from it, or a reading handed to `set` was not a number. */
  datatype CollectError =
    | MissingRow
    | MissingColumn(row: nat, column: nat)
    | NotANumber(row: nat, column: nat)

  datatype Outcome = Done | Failed(error: CollectError)

  /** The `set` calls that took effect, in order, and how the call ended. */
  datatype Run = Run(observations: seq<Observation>, outcome: Outcome)

  /** The run of a `collect` loop whose body, for row number `i`, is `project(rows[i], i)`. */
  function Collected(rows: seq<Row>, project: (Row, nat) -> Run): (r: Run)
    ensures r.outcome == Done <==> forall k :: 0 <= k < |rows| ==> project(rows[k], k).outcome == Done
    decreases |rows|
  {
    if |rows| == 0 then Run([], Done)
    else
      var n := |rows| - 1;
      var before := Collected(rows[..n], project);
      assert forall k :: 0 <= k < n ==> rows[..n][k] == rows[k];
      if before.outcome.Failed? then before
      else
        var last := project(rows[n], n);
        Run(before.observations + last.observations, last.outcome)
  }

  /** One more row of the loop: nothing after a failure, otherwise that row's calls. */
  lemma CollectedStep(rows: seq<Row>, project: (Row, nat) -> Run, i: nat)
    requires i < |rows|
    ensures var before := Collected(rows[..i], project);
            Collected(rows[..i + 1], project)
            == if before.outcome.Failed? then before
               else Run(before.observations + project(rows[i], i).observations, project(rows[i], i).outcome)
  {
    assert rows[..i + 1][..i] == rows[..i];
  }

  /** Once a row fails, the rows after it change nothing. */
  lemma {:induction false} FailureSticks(rows: seq<Row>, project: (Row, nat) -> Run, k: nat)
    requires k <= |rows|
    requires Collected(rows[..k], project).outcome.Failed?
    ensures Collected(rows, project) == Collected(rows[..k], project)
    decreases |rows| - k
  {
    if k < |rows| {
      CollectedStep(rows, project, k);
      FailureSticks(rows, project, k + 1);
    } else {
      assert rows[..k] == rows;
    }
  }

  /** A loop that reached row `i` without error and fails there stops with that row's error. */
  lemma StopsAt(rows: seq<Row>, project: (Row, nat) -> Run, i: nat)
    requires i < |rows|
    requires Collected(rows[..i], project).outcome == Done
    requires project(rows[i], i).outcome.Failed?
    ensures Collected(rows, project)
         == Run(Collected(rows[..i], project).observations + project(rows[i], i).observations,
                project(rows[i], i).outcome)
  {
    CollectedStep(rows, project, i);
    FailureSticks(rows, project, i + 1);
  }

  /** The error is the first failing row's, and the calls kept are those of the rows
      before it plus the calls that row made before it failed. */
  lemma FirstFailure(rows: seq<Row>, project: (Row, nat) -> Run, k: nat)
    requires k < |rows|
    requires forall j :: 0 <= j < k ==> project(rows[j], j).outcome == Done
    requires project(rows[k], k).outcome.Failed?
    ensures Collected(rows, project)
         == Run(Collected(rows[..k], project).observations + project(rows[k], k).observations,
                project(rows[k], k).outcome)
  {
    assert forall j :: 0 <= j < k ==> rows[..k][j] == rows[j];
    StopsAt(rows, project, k);
  }

  /** Every observation of a run was made by the projection of one of the rows. */
  lemma {:induction false} CollectedFrom(rows: seq<Row>, project: (Row, nat) -> Run, o: Observation)
    requires o in Collected(rows, project).observations
    ensures exists k :: 0 <= k < |rows| && o in project(rows[k], k).observations
    decreases |rows|
  {
    var n := |rows| - 1;
    var before := Collected(rows[..n], project);
    if before.outcome.Failed? || o in before.observations {
      CollectedFrom(rows[..n], project, o);
      var k :| 0 <= k < n && o in project(rows[..n][k], k).observations;
      assert rows[..n][k] == rows[k];
    } else {
      assert o in project(rows[n], n).observations;
    }
  }

  /** A key that no row's projection writes keeps its reading, whether the pass
      finished or stopped early. */
  lemma {:induction false} CollectedUntouched(t: Table, metric: string, rows: seq<Row>,
                                              project: (Row, nat) -> Run, key: seq<string>)
    requires forall k, o :: 0 <= k < |rows| && o in project(rows[k], k).observations && o.metric == metric
                            ==> o.labels != key
    ensures key in Apply(t, metric, Collected(rows, project).observations) <==> key in t
    ensures key in t ==> Apply(t, metric, Collected(rows, project).observations)[key] == t[key]
  {
    var obs := Collected(rows, project).observations;
    forall i | 0 <= i < |obs| && obs[i].metric == metric
      ensures obs[i].labels != key
    {
      CollectedFrom(rows, project, obs[i]);
    }
    ApplyUntouched(t, metric, obs, key);
  }

  /** Last write wins: if row `j` writes `o` for a key exactly once, and no later row writes
      that key, a finished pass leaves `o`'s reading there, whatever earlier rows wrote. */
  lemma {:induction false} CollectedLastWins(t: Table, metric: string, rows: seq<Row>,
                                             project: (Row, nat) -> Run, j: nat, o: Observation)
    requires Collected(rows, project).outcome == Done
    requires j < |rows| && o in project(rows[j], j).observations && o.metric == metric
    requires forall o' :: o' in project(rows[j], j).observations && o'.metric == metric && o'.labels == o.labels
                          ==> o'.value == o.value
    requires forall k, o' :: j < k < |rows| && o' in project(rows[k], k).observations && o'.metric == metric
                             ==> o'.labels != o.labels
    ensures o.labels in Apply(t, metric, Collected(rows, project).observations)
    ensures Apply(t, metric, Collected(rows, project).observations)[o.labels] == o.value
    decreases |rows|
  {
    var n := |rows| - 1;
    var prefix := rows[..n];
    var before := Collected(prefix, project);
    var last := project(rows[n], n).observations;
    assert Collected(rows, project) == Run(before.observations + last, Done) by {
      assert before.outcome == Done by {
        assert forall k :: 0 <= k < n ==> prefix[k] == rows[k];
      }
    }
    ApplyAppend(t, metric, before.observations, last);
    var mid := Apply(t, metric, before.observations);
    if j == n {
      ApplyWritten(mid, metric, last, o);
    } else {
      assert o.labels in mid && mid[o.labels] == o.value by {
        assert forall k :: 0 <= k < n ==> prefix[k] == rows[k];
        assert before.outcome == Done;
        CollectedLastWins(t, metric, prefix, project, j, o);
      }
      assert forall i :: 0 <= i < |last| && last[i].metric == metric ==> last[i].labels != o.labels by {
        forall i | 0 <= i < |last| && last[i].metric == metric
          ensures last[i].labels != o.labels
        {
          assert last[i] in project(rows[n], n).observations;
        }
      }
      ApplyUntouched(mid, metric, last, o.labels);
    }
  }
}
