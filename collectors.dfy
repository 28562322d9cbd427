/** The `collect` functions of the three query definitions. Each query
    definition owns its gauges; `Collect` takes the rows its query returned
    and writes readings through `Gauge.Set`, reading cells by position.

    Each row projection (`ConnectionsRow`, `IoStallRow`) and the local-time
    run say which `set` calls a call makes and how it ends; each `Collect`
    method is proved to leave exactly the readings of those calls, and the
    lemmas turn that into the readings a gauge holds afterwards. */
module Collectors {
  import opened Gauges
  import opened Collection
  import opened Metrics

  // ---------------------------------------------------------------------
  // mssql_instance_local_time
  // ---------------------------------------------------------------------

  /** Row 0, column 0 becomes the unlabeled reading; a missing row or cell, or a reading
      that is not a number, is an error. */
  function LocalTimeRun(rows: seq<Row>): (r: Run)
    ensures r.outcome == Done <==> |rows| > 0 && |rows[0]| > 0 && rows[0][0].Num?
  {
    if |rows| == 0 then Run([], Failed(MissingRow))
    else if |rows[0]| == 0 then Run([], Failed(MissingColumn(0, 0)))
    else if !rows[0][0].Num? then Run([], Failed(NotANumber(0, 0)))
    else Run([Observation(LocalTime.name, [], rows[0][0].n)], Done)
  }

  class LocalTimeCollector {
    const localTime: Gauge

    predicate Valid()
    {
      localTime.descriptor == LocalTime
    }

    constructor ()
      ensures Valid() && fresh(localTime) && localTime.values == map[]
    {
      localTime := new Gauge(LocalTime);
    }

    /** Sets the unlabeled gauge to the first cell of the first row. With no row the call
        fails with `MissingRow` and nothing is written; the other rows and cells are ignored. */
    method Collect(rows: seq<Row>) returns (o: Outcome)
      requires Valid()
      modifies localTime
      ensures o == LocalTimeRun(rows).outcome
      ensures localTime.values == Apply(old(localTime.values), LocalTime.name, LocalTimeRun(rows).observations)
      ensures |rows| == 0 ==> o == Failed(MissingRow)
      ensures o == Done ==> localTime.values == old(localTime.values)[[] := rows[0][0].n]
      ensures o != Done ==> localTime.values == old(localTime.values)
    {
      if |rows| == 0 {
        return Failed(MissingRow);
      }
      var row := rows[0];
      if |row| == 0 {
        return Failed(MissingColumn(0, 0));
      }
      var value := row[0];
      var ok := localTime.Set(map[], value);
      if !ok {
        return Failed(NotANumber(0, 0));
      }
      assert LabelTuple([], map[]) == [];
      return Done;
    }
  }

  // ---------------------------------------------------------------------
  // mssql_connections
  // ---------------------------------------------------------------------

  predicate ConnectionsRowOk(row: Row)
  {
    |row| >= 2 && row[1].Num?
  }

  /** One row: column 0 is the database, column 1 the session count, written under
      `{database, state: "current"}`. Both cells are read before the `set`. */
  function ConnectionsRow(row: Row, i: nat): (r: Run)
    ensures r.outcome == Done <==> ConnectionsRowOk(row)
    ensures r.outcome.Failed? ==> r.observations == []
  {
    if |row| < 2 then Run([], Failed(MissingColumn(i, |row|)))
    else if !row[1].Num? then Run([], Failed(NotANumber(i, 1)))
    else Run([Observation(Connections.name, [LabelText(row[0]), "current"], row[1].n)], Done)
  }

  class ConnectionsCollector {
    const connections: Gauge

    predicate Valid()
    {
      connections.descriptor == Connections
    }

    constructor ()
      ensures Valid() && fresh(connections) && connections.values == map[]
    {
      connections := new Gauge(Connections);
    }

    /** Sets `{database, state: "current"}` to the count of each row, in row order. A row
        too short or with a count that is not a number stops the loop with an error; the rows
        before it stay written. */
    method Collect(rows: seq<Row>) returns (o: Outcome)
      requires Valid()
      modifies connections
      ensures o == Collected(rows, ConnectionsRow).outcome
      ensures connections.values
           == Apply(old(connections.values), Connections.name, Collected(rows, ConnectionsRow).observations)
    {
      var i := 0;
      while i < |rows|
        invariant i <= |rows|
        invariant Collected(rows[..i], ConnectionsRow).outcome == Done
        invariant connections.values
               == Apply(old(connections.values), Connections.name, Collected(rows[..i], ConnectionsRow).observations)
      {
        CollectedStep(rows, ConnectionsRow, i);
        var row := rows[i];
        ghost var before := Collected(rows[..i], ConnectionsRow).observations;
        if |row| < 2 {
          StopsAt(rows, ConnectionsRow, i);
          assert before + [] == before;
          return Failed(MissingColumn(i, |row|));
        }
        var database := row[0];
        var count := row[1];
        var ok := SetCurrent(database, count);
        if !ok {
          StopsAt(rows, ConnectionsRow, i);
          assert before + [] == before;
          return Failed(NotANumber(i, 1));
        }
        ApplySnoc(old(connections.values), Connections.name, before,
                  Observation(Connections.name, [LabelText(database), "current"], count.n));
        i := i + 1;
      }
      assert rows[..i] == rows;
      return Done;
    }

    /** `connections.set({database, state: "current"}, count)`. */
    method SetCurrent(database: Cell, count: Cell) returns (ok: bool)
      requires Valid()
      modifies connections
      ensures ok <==> count.Num?
      ensures ok ==> connections.values == old(connections.values)[[LabelText(database), "current"] := count.n]
      ensures !ok ==> connections.values == old(connections.values)
    {
      var labels := map["database" := database, "state" := Str("current")];
      ok := connections.Set(labels, count);
      assert LabelTuple(Connections.labelNames, labels) == [LabelText(database), "current"];
    }
  }

  /** The call finishes exactly when every row has a count that is a number. */
  lemma ConnectionsDone(rows: seq<Row>)
    ensures Collected(rows, ConnectionsRow).outcome == Done
        <==> forall k :: 0 <= k < |rows| ==> ConnectionsRowOk(rows[k])
  {
  }

  /** The first bad row decides the error, and only the rows before it are written. */
  lemma ConnectionsFirstError(t: Table, rows: seq<Row>, k: nat)
    requires k < |rows| && !ConnectionsRowOk(rows[k])
    requires forall j :: 0 <= j < k ==> ConnectionsRowOk(rows[j])
    ensures Collected(rows, ConnectionsRow).outcome
         == Failed(if |rows[k]| < 2 then MissingColumn(k, |rows[k]|) else NotANumber(k, 1))
    ensures Apply(t, Connections.name, Collected(rows, ConnectionsRow).observations)
         == Apply(t, Connections.name, Collected(rows[..k], ConnectionsRow).observations)
  {
    FirstFailure(rows, ConnectionsRow, k);
    assert Collected(rows[..k], ConnectionsRow).observations + [] == Collected(rows[..k], ConnectionsRow).observations;
  }

  /** After a finished call, each row's database reads that row's count, provided no later
      row names the same database (with repeated names, the last row wins). */
  lemma ConnectionsReading(t: Table, rows: seq<Row>, j: nat)
    requires forall k :: 0 <= k < |rows| ==> |rows[k]| >= 2 && rows[k][1].Num?
    requires j < |rows|
    requires forall k :: j < k < |rows| ==> LabelText(rows[k][0]) != LabelText(rows[j][0])
    ensures var r := Apply(t, Connections.name, Collected(rows, ConnectionsRow).observations);
            [LabelText(rows[j][0]), "current"] in r && r[[LabelText(rows[j][0]), "current"]] == rows[j][1].n
  {
    var o := Observation(Connections.name, [LabelText(rows[j][0]), "current"], rows[j][1].n);
    forall k, o' | j < k < |rows| && o' in ConnectionsRow(rows[k], k).observations && o'.metric == Connections.name
      ensures o'.labels != o.labels
    {
      assert o'.labels[0] == LabelText(rows[k][0]);
    }
    CollectedLastWins(t, Connections.name, rows, ConnectionsRow, j, o);
  }

  /** A label tuple that no row writes keeps its reading: a database missing from the rows is
      neither removed nor reset to zero, whether the call finished or failed. */
  lemma ConnectionsUntouched(t: Table, rows: seq<Row>, key: seq<string>)
    requires forall k :: 0 <= k < |rows| && |rows[k]| > 0 ==> key != [LabelText(rows[k][0]), "current"]
    ensures var r := Apply(t, Connections.name, Collected(rows, ConnectionsRow).observations);
            (key in r <==> key in t) && (key in t ==> r[key] == t[key])
  {
    CollectedUntouched(t, Connections.name, rows, ConnectionsRow, key);
  }

  // ---------------------------------------------------------------------
  // mssql_io_stall
  // ---------------------------------------------------------------------

  predicate IoStallRowOk(row: Row)
  {
    |row| >= 6 && row[1].Num? && row[2].Num? && row[3].Num? && row[4].Num? && row[5].Num?
  }

  /** One row: database, read, write, total, queued read and queued write stall, in columns
      0 to 5, all read before any `set`. Then the total is set under `{database}` and the four
      kinds under `{database, type}`, in that order; a reading that is not a number stops the
      row after the `set` calls before it. */
  function IoStallRow(row: Row, i: nat): (r: Run)
    ensures r.outcome == Done <==> IoStallRowOk(row)
  {
    if |row| < 6 then Run([], Failed(MissingColumn(i, |row|)))
    else
      var db := LabelText(row[0]);
      if !row[3].Num? then Run([], Failed(NotANumber(i, 3)))
      else
        var total := [Observation(IoStallTotal.name, [db], row[3].n)];
        if !row[1].Num? then Run(total, Failed(NotANumber(i, 1)))
        else
          IoStallRest(row, i, total + [Observation(IoStall.name, [db, "read"], row[1].n)])
  }

  /** Once the total and the read stall are numbers, the row continues as `IoStallRest`. */
  lemma IoStallRowReadDone(row: Row, i: nat)
    requires |row| >= 6 && row[3].Num? && row[1].Num?
    ensures IoStallRow(row, i)
         == IoStallRest(row, i, [Observation(IoStallTotal.name, [LabelText(row[0])], row[3].n),
                                 Observation(IoStall.name, [LabelText(row[0]), "read"], row[1].n)])
  {
  }

  /** The rest of a row's `set` calls once the total and the read stall are written
      (split from `IoStallRow` only to keep each proof step small). */
  function IoStallRest(row: Row, i: nat, read: seq<Observation>): (r: Run)
    requires |row| >= 6
    ensures r.outcome == Done <==> row[2].Num? && row[4].Num? && row[5].Num?
  {
    var db := LabelText(row[0]);
    if !row[2].Num? then Run(read, Failed(NotANumber(i, 2)))
    else
      var write := read + [Observation(IoStall.name, [db, "write"], row[2].n)];
      if !row[4].Num? then Run(write, Failed(NotANumber(i, 4)))
      else
        var queuedRead := write + [Observation(IoStall.name, [db, "queued_read"], row[4].n)];
        if !row[5].Num? then Run(queuedRead, Failed(NotANumber(i, 5)))
        else Run(queuedRead + [Observation(IoStall.name, [db, "queued_write"], row[5].n)], Done)
  }

  class IoStallCollector {
    const stall: Gauge
    const total: Gauge

    predicate Valid()
    {
      stall.descriptor == IoStall && total.descriptor == IoStallTotal
    }

    constructor ()
      ensures Valid() && fresh(stall) && fresh(total) && stall.values == map[] && total.values == map[]
    {
      stall := new Gauge(IoStall);
      total := new Gauge(IoStallTotal);
    }

    /** Fans each row out into five readings over the two gauges, row by row. */
    method Collect(rows: seq<Row>) returns (o: Outcome)
      requires Valid()
      modifies stall, total
      ensures o == Collected(rows, IoStallRow).outcome
      ensures total.values == Apply(old(total.values), IoStallTotal.name, Collected(rows, IoStallRow).observations)
      ensures stall.values == Apply(old(stall.values), IoStall.name, Collected(rows, IoStallRow).observations)
    {
      var i := 0;
      while i < |rows|
        invariant i <= |rows|
        invariant Collected(rows[..i], IoStallRow).outcome == Done
        invariant total.values == Apply(old(total.values), IoStallTotal.name, Collected(rows[..i], IoStallRow).observations)
        invariant stall.values == Apply(old(stall.values), IoStall.name, Collected(rows[..i], IoStallRow).observations)
      {
        ghost var before := Collected(rows[..i], IoStallRow).observations;
        var r := CollectRow(rows[i], i);
        ApplyAppend(old(total.values), IoStallTotal.name, before, IoStallRow(rows[i], i).observations);
        ApplyAppend(old(stall.values), IoStall.name, before, IoStallRow(rows[i], i).observations);
        if r.Failed? {
          StopsAt(rows, IoStallRow, i);
          return r;
        }
        CollectedStep(rows, IoStallRow, i);
        i := i + 1;
      }
      assert rows[..i] == rows;
      return Done;
    }

    /** The body of the loop for row number `i`: all six cells are read first, then the
        total and the four kinds are set, in the order of `IoStallRow`. */
    method CollectRow(row: Row, i: nat) returns (o: Outcome)
      requires Valid()
      modifies stall, total
      ensures o == IoStallRow(row, i).outcome
      ensures total.values == Apply(old(total.values), IoStallTotal.name, IoStallRow(row, i).observations)
      ensures stall.values == Apply(old(stall.values), IoStall.name, IoStallRow(row, i).observations)
    {
      if |row| < 6 {
        return Failed(MissingColumn(i, |row|));
      }
      var database, read, write, stalled, queuedRead, queuedWrite := row[0], row[1], row[2], row[3], row[4], row[5];
      var db := LabelText(database);
      ghost var t0, s0 := total.values, stall.values;
      ghost var mine: seq<Observation> := [];

      var ok := SetTotal(database, stalled);
      if !ok {
        return Failed(NotANumber(i, 3));
      }
      mine := Record(t0, s0, mine, Observation(IoStallTotal.name, [db], stalled.n));

      ok := SetKind(database, "read", read);
      if !ok {
        return Failed(NotANumber(i, 1));
      }
      mine := Record(t0, s0, mine, Observation(IoStall.name, [db, "read"], read.n));
      IoStallRowReadDone(row, i);

      ok := SetKind(database, "write", write);
      if !ok {
        return Failed(NotANumber(i, 2));
      }
      mine := Record(t0, s0, mine, Observation(IoStall.name, [db, "write"], write.n));

      ok := SetKind(database, "queued_read", queuedRead);
      if !ok {
        return Failed(NotANumber(i, 4));
      }
      mine := Record(t0, s0, mine, Observation(IoStall.name, [db, "queued_read"], queuedRead.n));

      ok := SetKind(database, "queued_write", queuedWrite);
      if !ok {
        return Failed(NotANumber(i, 5));
      }
      mine := Record(t0, s0, mine, Observation(IoStall.name, [db, "queued_write"], queuedWrite.n));
      return Done;
    }

    /** `total.set({database}, value)`. */
    method SetTotal(database: Cell, value: Cell) returns (ok: bool)
      requires Valid()
      modifies total
      ensures ok <==> value.Num?
      ensures ok ==> total.values == old(total.values)[[LabelText(database)] := value.n]
      ensures !ok ==> total.values == old(total.values)
    {
      var labels := map["database" := database];
      ok := total.Set(labels, value);
      assert LabelTuple(IoStallTotal.labelNames, labels) == [LabelText(database)];
    }

    /** `stall.set({database, type: kind}, value)`. */
    method SetKind(database: Cell, kind: string, value: Cell) returns (ok: bool)
      requires Valid()
      modifies stall
      ensures ok <==> value.Num?
      ensures ok ==> stall.values == old(stall.values)[[LabelText(database), kind] := value.n]
      ensures !ok ==> stall.values == old(stall.values)
    {
      var labels := map["database" := database, "type" := Str(kind)];
      ok := stall.Set(labels, value);
      assert LabelTuple(IoStall.labelNames, labels) == [LabelText(database), kind];
    }
  }

  /** The call finishes exactly when every row has six cells and numbers in columns 1 to 5. */
  lemma IoStallDone(rows: seq<Row>)
    ensures Collected(rows, IoStallRow).outcome == Done
        <==> forall k :: 0 <= k < |rows| ==> IoStallRowOk(rows[k])
  {
  }

  /** A complete row makes exactly five `set` calls: the total, then read, write,
      queued read and queued write stall, each under the row's database. */
  lemma IoStallFanOut(row: Row, i: nat)
    requires IoStallRowOk(row)
    ensures IoStallRow(row, i).observations
         == [Observation(IoStallTotal.name, [LabelText(row[0])], row[3].n),
             Observation(IoStall.name, [LabelText(row[0]), "read"], row[1].n),
             Observation(IoStall.name, [LabelText(row[0]), "write"], row[2].n),
             Observation(IoStall.name, [LabelText(row[0]), "queued_read"], row[4].n),
             Observation(IoStall.name, [LabelText(row[0]), "queued_write"], row[5].n)]
  {
    IoStallRowReadDone(row, i);
  }

  /** Every `set` call a row makes, complete or not, is labeled with that row's database. */
  lemma IoStallRowDatabase(row: Row, i: nat, o: Observation)
    requires o in IoStallRow(row, i).observations
    ensures |row| > 0 && |o.labels| > 0 && o.labels[0] == LabelText(row[0])
  {
    if |row| >= 6 && row[3].Num? && row[1].Num? {
      IoStallRowReadDone(row, i);
    }
  }

  /** Within one row, no two `set` calls write the same label tuple of the same gauge. */
  lemma IoStallRowKeysDistinct(row: Row, i: nat)
    requires IoStallRowOk(row)
    ensures forall o, o' ::
              (o in IoStallRow(row, i).observations && o' in IoStallRow(row, i).observations
               && o.metric == o'.metric && o.labels == o'.labels) ==> o == o'
  {
    IoStallFanOut(row, i);
  }

  /** Last write wins for one `set` call of row `j` of a finished call. */
  lemma IoStallLastWins(t: Table, metric: string, rows: seq<Row>, j: nat, o: Observation)
    requires forall k :: 0 <= k < |rows| ==> IoStallRowOk(rows[k])
    requires j < |rows| && |rows[j]| > 0
    requires forall k :: j < k < |rows| && |rows[k]| > 0 ==> LabelText(rows[k][0]) != LabelText(rows[j][0])
    requires o in IoStallRow(rows[j], j).observations && o.metric == metric
    ensures o.labels in Apply(t, metric, Collected(rows, IoStallRow).observations)
    ensures Apply(t, metric, Collected(rows, IoStallRow).observations)[o.labels] == o.value
  {
    IoStallRowKeysDistinct(rows[j], j);
    IoStallRowDatabase(rows[j], j, o);
    forall k, o' | j < k < |rows| && o' in IoStallRow(rows[k], k).observations
      ensures o'.labels != o.labels
    {
      IoStallRowDatabase(rows[k], k, o');
    }
    CollectedLastWins(t, metric, rows, IoStallRow, j, o);
  }

  /** After a finished call, each row's database reads that row's five values, provided no
      later row names the same database (with repeated names, the last row wins). */
  lemma IoStallReadings(t: Table, s: Table, rows: seq<Row>, j: nat)
    requires forall k :: 0 <= k < |rows| ==> IoStallRowOk(rows[k])
    requires j < |rows| && IoStallRowOk(rows[j])
    requires forall k :: j < k < |rows| && |rows[k]| > 0 ==> LabelText(rows[k][0]) != LabelText(rows[j][0])
    ensures var obs := Collected(rows, IoStallRow).observations;
            var db := LabelText(rows[j][0]);
            var totals := Apply(t, IoStallTotal.name, obs);
            var stalls := Apply(s, IoStall.name, obs);
            && [db] in totals && totals[[db]] == rows[j][3].n
            && [db, "read"] in stalls && stalls[[db, "read"]] == rows[j][1].n
            && [db, "write"] in stalls && stalls[[db, "write"]] == rows[j][2].n
            && [db, "queued_read"] in stalls && stalls[[db, "queued_read"]] == rows[j][4].n
            && [db, "queued_write"] in stalls && stalls[[db, "queued_write"]] == rows[j][5].n
  {
    IoStallFanOut(rows[j], j);
    var mine := IoStallRow(rows[j], j).observations;
    var obs := Collected(rows, IoStallRow).observations;
    var totals := Apply(t, IoStallTotal.name, obs);
    var stalls := Apply(s, IoStall.name, obs);
    assert mine[0].labels in totals && totals[mine[0].labels] == mine[0].value by {
      IoStallLastWins(t, IoStallTotal.name, rows, j, mine[0]);
    }
    assert mine[1].labels in stalls && stalls[mine[1].labels] == mine[1].value by {
      IoStallLastWins(s, IoStall.name, rows, j, mine[1]);
    }
    assert mine[2].labels in stalls && stalls[mine[2].labels] == mine[2].value by {
      IoStallLastWins(s, IoStall.name, rows, j, mine[2]);
    }
    assert mine[3].labels in stalls && stalls[mine[3].labels] == mine[3].value by {
      IoStallLastWins(s, IoStall.name, rows, j, mine[3]);
    }
    assert mine[4].labels in stalls && stalls[mine[4].labels] == mine[4].value by {
      IoStallLastWins(s, IoStall.name, rows, j, mine[4]);
    }
  }

  /** A database that no row names keeps its total and its stall readings of every kind,
      whether the call finished or failed. */
  lemma IoStallUntouched(t: Table, s: Table, rows: seq<Row>, db: string, kind: string)
    requires forall k :: 0 <= k < |rows| && |rows[k]| > 0 ==> LabelText(rows[k][0]) != db
    ensures var totals := Apply(t, IoStallTotal.name, Collected(rows, IoStallRow).observations);
            ([db] in totals <==> [db] in t) && ([db] in t ==> totals[[db]] == t[[db]])
    ensures var stalls := Apply(s, IoStall.name, Collected(rows, IoStallRow).observations);
            ([db, kind] in stalls <==> [db, kind] in s) && ([db, kind] in s ==> stalls[[db, kind]] == s[[db, kind]])
  {
    forall k, o | 0 <= k < |rows| && o in IoStallRow(rows[k], k).observations
      ensures o.labels[0] != db
    {
      IoStallRowDatabase(rows[k], k, o);
    }
    CollectedUntouched(t, IoStallTotal.name, rows, IoStallRow, [db]);
    CollectedUntouched(s, IoStall.name, rows, IoStallRow, [db, kind]);
  }

  // ---------------------------------------------------------------------
  // Properties shared by the three queries
  // ---------------------------------------------------------------------

  /** Running a `collect` twice on the same rows leaves every gauge as one run does, since
      `set` overwrites and never accumulates; this holds for a call that stops early too. */
  lemma CollectTwice(t: Table, s: Table, rows: seq<Row>)
    ensures var obs := LocalTimeRun(rows).observations;
            Apply(Apply(t, LocalTime.name, obs), LocalTime.name, obs) == Apply(t, LocalTime.name, obs)
    ensures var obs := Collected(rows, ConnectionsRow).observations;
            Apply(Apply(t, Connections.name, obs), Connections.name, obs) == Apply(t, Connections.name, obs)
    ensures var obs := Collected(rows, IoStallRow).observations;
            && Apply(Apply(t, IoStallTotal.name, obs), IoStallTotal.name, obs) == Apply(t, IoStallTotal.name, obs)
            && Apply(Apply(s, IoStall.name, obs), IoStall.name, obs) == Apply(s, IoStall.name, obs)
  {
    ApplyIdempotent(t, LocalTime.name, LocalTimeRun(rows).observations);
    ApplyIdempotent(t, Connections.name, Collected(rows, ConnectionsRow).observations);
    ApplyIdempotent(t, IoStallTotal.name, Collected(rows, IoStallRow).observations);
    ApplyIdempotent(s, IoStall.name, Collected(rows, IoStallRow).observations);
  }

  /** The gauge an observation goes to belongs to the query definition, and the observation
      carries one label value per declared label name. */
  predicate DeclaredBy(o: Observation, q: QueryDefinition)
  {
    exists i :: 0 <= i < |q.metrics| && q.metrics[i].name == o.metric && |o.labels| == |q.metrics[i].labelNames|
  }

  /** Every `set` call of every `collect` goes to one of its own query definition's gauges
      with exactly the declared number of label values. */
  lemma ObservationsDeclared(rows: seq<Row>)
    ensures forall o :: o in LocalTimeRun(rows).observations ==> DeclaredBy(o, LocalTimeQuery)
    ensures forall o :: o in Collected(rows, ConnectionsRow).observations ==> DeclaredBy(o, ConnectionsQuery)
    ensures forall o :: o in Collected(rows, IoStallRow).observations ==> DeclaredBy(o, IoStallQuery)
  {
    forall o | o in LocalTimeRun(rows).observations
      ensures DeclaredBy(o, LocalTimeQuery)
    {
      assert LocalTimeQuery.metrics[0] == LocalTime;
    }
    forall o | o in Collected(rows, ConnectionsRow).observations
      ensures DeclaredBy(o, ConnectionsQuery)
    {
      CollectedFrom(rows, ConnectionsRow, o);
      assert ConnectionsQuery.metrics[0] == Connections;
    }
    forall o | o in Collected(rows, IoStallRow).observations
      ensures DeclaredBy(o, IoStallQuery)
    {
      CollectedFrom(rows, IoStallRow, o);
      var k :| 0 <= k < |rows| && o in IoStallRow(rows[k], k).observations;
      IoStallRowDeclared(rows[k], k, o);
    }
  }

  /** Every `set` call of one I/O stall row, complete or not, is declared by its query definition. */
  lemma IoStallRowDeclared(row: Row, i: nat, o: Observation)
    requires o in IoStallRow(row, i).observations
    ensures DeclaredBy(o, IoStallQuery)
  {
    if |row| >= 6 && row[3].Num? && row[1].Num? {
      IoStallRowReadDone(row, i);
    }
    assert IoStallQuery.metrics[0] == IoStall && IoStallQuery.metrics[1] == IoStallTotal;
    if o.metric == IoStall.name {
      assert |o.labels| == 2;
    } else {
      assert o.metric == IoStallTotal.name && |o.labels| == 1;
    }
  }

  /** Bookkeeping for the proof of `IoStallCollector.CollectRow`: the row's `set` calls so far
      grow by one, and each gauge's table follows. */
  ghost function Record(t: Table, s: Table, mine: seq<Observation>, o: Observation): (r: seq<Observation>)
    ensures r == mine + [o]
    ensures Apply(t, IoStallTotal.name, r)
         == if o.metric == IoStallTotal.name then Apply(t, IoStallTotal.name, mine)[o.labels := o.value]
            else Apply(t, IoStallTotal.name, mine)
    ensures Apply(s, IoStall.name, r)
         == if o.metric == IoStall.name then Apply(s, IoStall.name, mine)[o.labels := o.value]
            else Apply(s, IoStall.name, mine)
  {
    ApplySnoc(t, IoStallTotal.name, mine, o);
    ApplySnoc(s, IoStall.name, mine, o);
    mine + [o]
  }
}
