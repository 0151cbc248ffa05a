/** The nested-input collector (`logger_handler` of metrics.py): folds the
    root-server list into eight totals, upserts one per-source row per
    record, and then upserts one aggregate row for the day, every counter
    stored as its decimal string. */
module MetricsCollector {
  import opened Wrappers
  import opened Json
  import opened Store
  import opened Tally
  import Records
  import Decimal
  import Dates
  import Strings

  /** Where each statistic sits in a root-server record, in the order the
      loop reads them. */
  const Paths: seq<seq<string>> := [
    ["statistics", "serviceBodies", "numZones"],
    ["statistics", "serviceBodies", "numAreas"],
    ["statistics", "serviceBodies", "numGroups"],
    ["statistics", "serviceBodies", "numRegions"],
    ["statistics", "meetings", "numTotal"],
    ["statistics", "meetings", "numInPerson"],
    ["statistics", "meetings", "numVirtual"],
    ["statistics", "meetings", "numHybrid"]
  ]

  /** The attribute each statistic is stored under, slot for slot with `Paths`. */
  const Columns: seq<Attr> := [
    NumZones, NumAreas, NumGroups, NumRegions,
    NumMeetings, NumInPerson, NumVirtual, NumHybrid
  ]

  /** The counter attributes, as a set. */
  const ColumnAttrs: set<Attr> := {
    NumZones, NumAreas, NumGroups, NumRegions,
    NumMeetings, NumInPerson, NumVirtual, NumHybrid
  }

  /** The two renderings of the run's date, computed once when the module
      is loaded: `current_date` (`%Y-%m-%d`) and `current_date_hash`
      (`%Y%m%d`). */
  datatype Stamp = Stamp(date: string, hash: string)

  function StampOf(today: Dates.Date): Stamp
    requires today.Valid()
  {
    Stamp(Dates.Label(today), Dates.Hash(today))
  }

  /** The id of a per-source row: the date hash followed by `str(sourceId)`. */
  function PerSourceKey(today: Dates.Date, sourceId: string): string
    requires today.Valid()
  {
    Dates.Hash(today) + sourceId
  }

  /** The slot of `Columns` that holds counter attribute `a`. */
  function Slot(a: Attr): (j: nat)
    requires a in ColumnAttrs
    ensures j < 8 && Columns[j] == a
  {
    match a
    case NumZones => 0
    case NumAreas => 1
    case NumGroups => 2
    case NumRegions => 3
    case NumMeetings => 4
    case NumInPerson => 5
    case NumVirtual => 6
    case NumHybrid => 7
  }

  /** Counter attribute `a` as stored: the decimal string (`str`) of its slot. */
  function Counter(a: Attr, counts: Counts): Value
    requires a in ColumnAttrs && |counts| == 8
  {
    JStr(Decimal.IntToString(counts[Slot(a)]))
  }

  /** The per-source item written for one record under the id `key`. */
  function SourceItem(key: string, date: string, sourceId: string, name: Value, counts: Counts): Item
    requires |counts| == 8
  {
    map a | a in {Id, Date, Name, SourceId} + ColumnAttrs ::
      match a
      case Id => JStr(key)
      case Date => JStr(date)
      case Name => name
      case SourceId => JStr(sourceId)
      case _ => Counter(a, counts)
  }

  /** The aggregate item written once the loop has finished. */
  function AggregateItem(date: string, totals: Counts): Item
    requires |totals| == 8
  {
    map a | a in {Date} + ColumnAttrs :: if a == Date then JStr(date) else Counter(a, totals)
  }

  /** What one pass of the loop body takes from one record: its eight
      statistics, and the key and item of its per-source row. */
  datatype Row = Row(counts: Counts, key: string, item: Item)

  /** One pass of the loop body: the eight `+=` reads, then the per-source
      item, whose construction reads `sourceId` (for the id) before `name`. */
  function Process(stamp: Stamp, root: Value): (r: Result<Row, Error>)
    ensures r.Success? ==> |r.value.counts| == 8
  {
    var counts :- Records.ReadCounts(root, Paths);
    var idValue :- Get(root, "sourceId");
    var id :- Str(idValue);
    var name :- Get(root, "name");
    var key := stamp.hash + id;
    Success(Row(counts, key, SourceItem(key, stamp.date, id, name, counts)))
  }

  /** The loop over the records, starting from the totals `acc` and the
      per-source table `individual`. It returns the per-source table as the
      loop leaves it, with the final totals or the error that ended it. */
  function Loop(stamp: Stamp, roots: seq<Value>, acc: Counts, individual: Table): (r: (Table, Result<Counts, Error>))
    requires |acc| == 8
    ensures r.1.Success? ==> |r.1.value| == 8
    decreases |roots|
  {
    if |roots| == 0 then (individual, Success(acc))
    else
      match Process(stamp, roots[0])
      case Failure(e) => (individual, Failure(e))
      case Success(row) => Loop(stamp, roots[1..], Add(acc, row.counts), individual[row.key := row.item])
  }

  /** The state of both tables after a run, and the exception it raised if any. */
  datatype Effect = Effect(individual: Table, aggregate: Table, error: Option<Error>)

  /** One run of the collector on the decoded root-server list. The
      aggregate put runs once, after the loop, and only when the loop
      finished; per-source rows already written stay written. */
  function LoggerHandler(today: Dates.Date, roots: seq<Value>, individual: Table, aggregate: Table): (e: Effect)
    requires today.Valid()
    ensures e.error.Some? ==> e.aggregate == aggregate
    ensures e.error.None? ==> e.aggregate.Keys == aggregate.Keys + {Dates.Label(today)}
  {
    Finish(Dates.Label(today), Loop(StampOf(today), roots, Zeros(8), individual), aggregate)
  }

  /** The aggregate put after the loop, when the loop ended without raising. */
  function Finish(day: string, run: (Table, Result<Counts, Error>), aggregate: Table): (e: Effect)
    requires run.1.Success? ==> |run.1.value| == 8
    ensures e.individual == run.0
    ensures e.error.Some? <==> run.1.Failure?
    ensures e.error.Some? ==> e.aggregate == aggregate && e.error.value == run.1.error
    ensures e.error.None? ==> e.aggregate == aggregate[day := AggregateItem(day, run.1.value)]
  {
    if run.1.Failure? then Effect(run.0, aggregate, Some(run.1.error))
    else Effect(run.0, aggregate[day := AggregateItem(day, run.1.value)], None)
  }

  // ---------------------------------------------------------------------
  // Reference definitions: what the loop is meant to achieve.

  /** The rows of the longest prefix of records the loop body gets through. */
  function Processed(stamp: Stamp, roots: seq<Value>): (rows: seq<Row>)
    ensures |rows| <= |roots|
    ensures forall i :: 0 <= i < |rows| ==> Process(stamp, roots[i]) == Success(rows[i])
    ensures forall i :: 0 <= i < |rows| ==> |rows[i].counts| == 8
    ensures |rows| < |roots| ==> Process(stamp, roots[|rows|]).Failure?
    decreases |roots|
  {
    if |roots| == 0 then []
    else
      match Process(stamp, roots[0])
      case Failure(_) => []
      case Success(row) => [row] + Processed(stamp, roots[1..])
  }

  /** The exception of the first record the loop body cannot get through. */
  function FirstError(stamp: Stamp, roots: seq<Value>): Option<Error> {
    var done := Processed(stamp, roots);
    if |done| < |roots| then Some(Process(stamp, roots[|done|]).error) else None
  }

  function CountsOf(rows: seq<Row>): (c: seq<Counts>)
    requires forall i :: 0 <= i < |rows| ==> |rows[i].counts| == 8
    ensures |c| == |rows| && Uniform(8, c)
    ensures forall i :: 0 <= i < |rows| ==> c[i] == rows[i].counts
  {
    seq(|rows|, i requires 0 <= i < |rows| => rows[i].counts)
  }

  /** The upserts `rows` make, in order. */
  function PutRows(t: Table, rows: seq<Row>): Table
    decreases |rows|
  {
    if |rows| == 0 then t else PutRows(t[rows[0].key := rows[0].item], rows[1..])
  }

  // ---------------------------------------------------------------------
  // Properties.

  /** The loop writes the rows of the records it gets through, in order;
      it ends with the starting totals plus the sum of every record's
      statistics when it gets through all of them, and with the first
      failing record's exception otherwise. */
  lemma {:induction false} LoopWrites(today: Dates.Date, roots: seq<Value>, acc: Counts, individual: Table)
    requires today.Valid() && |acc| == 8
    ensures Loop(StampOf(today), roots, acc, individual).0 == PutRows(individual, Processed(StampOf(today), roots))
    decreases |roots|
  {
    if |roots| > 0 && Process(StampOf(today), roots[0]).Success? {
      var row := Process(StampOf(today), roots[0]).value;
      LoopWrites(today, roots[1..], Add(acc, row.counts), individual[row.key := row.item]);
      assert Processed(StampOf(today), roots) == [row] + Processed(StampOf(today), roots[1..]);
    }
  }

  lemma LoopTotals(today: Dates.Date, roots: seq<Value>, acc: Counts, individual: Table)
    requires today.Valid() && |acc| == 8
    ensures var done := Processed(StampOf(today), roots);
            Loop(StampOf(today), roots, acc, individual).1 ==
              if |done| == |roots| then Success(Add(acc, Sum(8, CountsOf(done))))
              else Failure(FirstError(StampOf(today), roots).value)
  {
    if |Processed(StampOf(today), roots)| == |roots| {
      LoopCompletes(today, roots, acc, individual);
    } else {
      LoopFails(today, roots, acc, individual);
    }
  }

  /** When every record gets through, the loop ends with the starting
      totals plus the sum of every record's statistics. */
  lemma {:induction false} LoopCompletes(today: Dates.Date, roots: seq<Value>, acc: Counts, individual: Table)
    requires today.Valid() && |acc| == 8
    requires |Processed(StampOf(today), roots)| == |roots|
    ensures Loop(StampOf(today), roots, acc, individual).1 == Success(Add(acc, Sum(8, CountsOf(Processed(StampOf(today), roots)))))
    decreases |roots|
  {
    if |roots| == 0 {
      AddZeros(acc);
    } else {
      var row := Process(StampOf(today), roots[0]).value;
      var rest := Processed(StampOf(today), roots[1..]);
      assert Processed(StampOf(today), roots) == [row] + rest;
      LoopCompletes(today, roots[1..], Add(acc, row.counts), individual[row.key := row.item]);
      assert CountsOf([row] + rest)[1..] == CountsOf(rest);
      AddAssociative(acc, row.counts, Sum(8, CountsOf(rest)));
    }
  }

  /** When some record does not get through, the loop ends with the first
      failing record's exception. */
  lemma {:induction false} LoopFails(today: Dates.Date, roots: seq<Value>, acc: Counts, individual: Table)
    requires today.Valid() && |acc| == 8
    requires |Processed(StampOf(today), roots)| < |roots|
    ensures Loop(StampOf(today), roots, acc, individual).1 == Failure(Process(StampOf(today), roots[|Processed(StampOf(today), roots)|]).error)
    decreases |roots|
  {
    if Process(StampOf(today), roots[0]).Success? {
      var row := Process(StampOf(today), roots[0]).value;
      var rest := Processed(StampOf(today), roots[1..]);
      assert Processed(StampOf(today), roots) == [row] + rest;
      LoopFails(today, roots[1..], Add(acc, row.counts), individual[row.key := row.item]);
      assert roots[1..][|rest|] == roots[|rest| + 1];
    }
  }

  /** A run writes the per-source rows of the records it gets through; it
      raises exactly when some record cannot be got through, and then the
      aggregate table is untouched; otherwise the aggregate row for the
      day holds the decimal strings of the summed statistics. */
  lemma LoggerHandlerSpec(today: Dates.Date, roots: seq<Value>, individual: Table, aggregate: Table)
    requires today.Valid()
    ensures var e := LoggerHandler(today, roots, individual, aggregate);
            var done := Processed(StampOf(today), roots);
            && e.individual == PutRows(individual, done)
            && e.error == FirstError(StampOf(today), roots)
            && (e.error.None? <==> forall i :: 0 <= i < |roots| ==> Process(StampOf(today), roots[i]).Success?)
            && (e.error.Some? ==> e.aggregate == aggregate)
            && (e.error.None? ==>
                  e.aggregate == aggregate[Dates.Label(today) := AggregateItem(Dates.Label(today), Sum(8, CountsOf(done)))])
  {
    LoopWrites(today, roots, Zeros(8), individual);
    LoopTotals(today, roots, Zeros(8), individual);
    var done := Processed(StampOf(today), roots);
    AddZeros(Sum(8, CountsOf(done)));
  }

  /** The keys the rows write. */
  function RowKeys(rows: seq<Row>): set<string> {
    set i | 0 <= i < |rows| :: rows[i].key
  }

  /** Row `i` is the last one that writes its key. */
  predicate LastWrite(rows: seq<Row>, i: nat)
    requires i < |rows|
  {
    forall j :: i < j < |rows| ==> rows[j].key != rows[i].key
  }

  /** Upserting rows in order: the table gains their keys, every key they
      do not write keeps its item, and a key written several times holds
      the item of its last write. */
  lemma {:induction false} PutRowsSpec(t: Table, rows: seq<Row>)
    ensures PutRows(t, rows).Keys == t.Keys + RowKeys(rows)
    ensures forall k :: k in t && k !in RowKeys(rows) ==> PutRows(t, rows)[k] == t[k]
    ensures forall i :: 0 <= i < |rows| && LastWrite(rows, i) ==> PutRows(t, rows)[rows[i].key] == rows[i].item
    decreases |rows|
  {
    if |rows| > 0 {
      var t' := t[rows[0].key := rows[0].item];
      PutRowsSpec(t', rows[1..]);
      assert RowKeys(rows) == {rows[0].key} + RowKeys(rows[1..]) by {
        forall k | k in RowKeys(rows)
          ensures k in {rows[0].key} + RowKeys(rows[1..])
        {
          var i :| 0 <= i < |rows| && rows[i].key == k;
          if i > 0 {
            assert rows[1..][i - 1] == rows[i];
          }
        }
        forall k | k in RowKeys(rows[1..])
          ensures k in RowKeys(rows)
        {
          var i :| 0 <= i < |rows[1..]| && rows[1..][i].key == k;
          assert rows[i + 1] == rows[1..][i];
        }
      }
      forall i | 0 <= i < |rows| && LastWrite(rows, i)
        ensures PutRows(t, rows)[rows[i].key] == rows[i].item
      {
        if i == 0 {
          forall j | 0 <= j < |rows[1..]|
            ensures rows[1..][j].key != rows[0].key
          {
            assert rows[1..][j] == rows[j + 1];
          }
          assert rows[0].key !in RowKeys(rows[1..]);
        } else {
          assert rows[1..][i - 1] == rows[i];
          assert LastWrite(rows[1..], i - 1) by {
            forall j | i - 1 < j < |rows[1..]|
              ensures rows[1..][j].key != rows[1..][i - 1].key
            {
              assert rows[1..][j] == rows[j + 1];
            }
          }
        }
      }
    }
  }

  /** Upserting rows is the same as overlaying the table with what the rows
      alone would write into an empty one. */
  lemma {:induction false} PutRowsOverlay(t: Table, rows: seq<Row>)
    ensures PutRows(t, rows) == t + PutRows(map[], rows)
    decreases |rows|
  {
    if |rows| > 0 {
      var k, v := rows[0].key, rows[0].item;
      PutRowsOverlay(t[k := v], rows[1..]);
      PutRowsOverlay(map[k := v], rows[1..]);
      var m := PutRows(map[], rows[1..]);
      assert map[][k := v] == map[k := v];
      assert t[k := v] + m == t + (map[k := v] + m);
    }
  }

  /** Writing the same rows a second time changes nothing. */
  lemma PutRowsIdempotent(t: Table, rows: seq<Row>)
    ensures PutRows(PutRows(t, rows), rows) == PutRows(t, rows)
  {
    var m := PutRows(map[], rows);
    PutRowsOverlay(t, rows);
    PutRowsOverlay(t + m, rows);
    assert (t + m) + m == t + m;
  }

  /** The per-source id determines both the date and the `str(sourceId)` it
      was built from: two writes share a row exactly when they are for the
      same source on the same date, so a second write that day overwrites
      the first and different sources or dates never collide. */
  lemma PerSourceKeyInjective(d1: Dates.Date, id1: string, d2: Dates.Date, id2: string)
    requires d1.Valid() && d2.Valid()
    ensures PerSourceKey(d1, id1) == PerSourceKey(d2, id2) <==> d1 == d2 && id1 == id2
  {
    Strings.SplitEqual(Dates.Hash(d1), Dates.Hash(d2), id1, id2);
    Dates.HashInjective(d1, d2);
  }

  lemma SlotOfColumn(j: nat)
    requires j < 8
    ensures Columns[j] in ColumnAttrs && Slot(Columns[j]) == j
  {
    if j == 0 {} else if j == 1 {} else if j == 2 {} else if j == 3 {}
    else if j == 4 {} else if j == 5 {} else if j == 6 {} else {}
  }

  lemma SourceItemFields(key: string, date: string, id: string, name: Value, counts: Counts)
    requires |counts| == 8
    ensures var item := SourceItem(key, date, id, name, counts);
            && item.Keys == {Id, Date, Name, SourceId} + ColumnAttrs
            && item[Id] == JStr(key)
            && item[Date] == JStr(date)
            && item[Name] == name
            && item[SourceId] == JStr(id)
            && forall j :: 0 <= j < 8 ==> item[Columns[j]] == JStr(Decimal.IntToString(counts[j]))
  {
    SourceItemKeys(key, date, id, name, counts);
    SourceItemCounters(key, date, id, name, counts);
  }

  lemma SourceItemKeys(key: string, date: string, id: string, name: Value, counts: Counts)
    requires |counts| == 8
    ensures SourceItem(key, date, id, name, counts).Keys == {Id, Date, Name, SourceId} + ColumnAttrs
  {
  }

  lemma SourceItemCounters(key: string, date: string, id: string, name: Value, counts: Counts)
    requires |counts| == 8
    ensures forall j :: 0 <= j < 8 ==>
              SourceItem(key, date, id, name, counts)[Columns[j]] == JStr(Decimal.IntToString(counts[j]))
  {
    var item := SourceItem(key, date, id, name, counts);
    forall j | 0 <= j < 8
      ensures item[Columns[j]] == JStr(Decimal.IntToString(counts[j]))
    {
      SlotOfColumn(j);
    }
  }

  lemma AggregateItemFields(date: string, totals: Counts)
    requires |totals| == 8
    ensures var item := AggregateItem(date, totals);
            && item.Keys == {Date} + ColumnAttrs
            && item[Date] == JStr(date)
            && forall j :: 0 <= j < 8 ==> item[Columns[j]] == JStr(Decimal.IntToString(totals[j]))
  {
    var item := AggregateItem(date, totals);
    forall j | 0 <= j < 8
      ensures item[Columns[j]] == JStr(Decimal.IntToString(totals[j]))
    {
      SlotOfColumn(j);
    }
  }

  /** What a successful pass of the loop body consists of. */
  lemma ProcessParts(stamp: Stamp, root: Value)
    requires Process(stamp, root).Success?
    ensures Records.ReadCounts(root, Paths).Success?
    ensures Get(root, "sourceId").Success? && Str(Get(root, "sourceId").value).Success?
    ensures Get(root, "name").Success?
    ensures var counts := Records.ReadCounts(root, Paths).value;
            var id := Str(Get(root, "sourceId").value).value;
            Process(stamp, root).value ==
              Row(counts, stamp.hash + id, SourceItem(stamp.hash + id, stamp.date, id, Get(root, "name").value, counts))
  {
  }

  /** A per-source row carries its own key as `id`. */
  lemma RowCarriesKey(stamp: Stamp, root: Value)
    requires Process(stamp, root).Success?
    ensures Id in Process(stamp, root).value.item
    ensures Process(stamp, root).value.item[Id] == JStr(Process(stamp, root).value.key)
  {
    ProcessParts(stamp, root);
    var row := Process(stamp, root).value;
    var id := Str(Get(root, "sourceId").value).value;
    SourceItemKeys(row.key, stamp.date, id, Get(root, "name").value, row.counts);
  }

  /** The per-source row of a record: its id is the date hash followed by
      `str(sourceId)`, and it carries exactly that id, today's label, the
      record's name, its source id and the eight counters. */
  lemma PerSourceRow(today: Dates.Date, root: Value)
    requires today.Valid() && Process(StampOf(today), root).Success?
    ensures Get(root, "sourceId").Success? && Str(Get(root, "sourceId").value).Success?
    ensures Get(root, "name").Success?
    ensures var row := Process(StampOf(today), root).value;
            var id := Str(Get(root, "sourceId").value).value;
            && row.key == PerSourceKey(today, id)
            && row.item[Id] == JStr(row.key)
            && row.item.Keys == {Id, Date, Name, SourceId} + ColumnAttrs
            && row.item[Date] == JStr(Dates.Label(today))
            && row.item[Name] == Get(root, "name").value
            && row.item[SourceId] == JStr(id)
  {
    ProcessParts(StampOf(today), root);
    var row := Process(StampOf(today), root).value;
    var id := Str(Get(root, "sourceId").value).value;
    var name := Get(root, "name").value;
    var key := PerSourceKey(today, id);
    var counts := Records.ReadCounts(root, Paths).value;
    assert row == Row(counts, key, SourceItem(key, Dates.Label(today), id, name, counts));
    SourceItemFields(key, Dates.Label(today), id, name, counts);
  }

  /** Each counter of a per-source row is the decimal string of that
      record's own statistic, and parsing it back yields the same integer. */
  lemma PerSourceCounters(stamp: Stamp, root: Value)
    requires Process(stamp, root).Success?
    ensures var row := Process(stamp, root).value;
            forall j :: 0 <= j < 8 ==>
              Records.Statistic(root, Paths[j]).Success? && row.counts[j] == Records.Statistic(root, Paths[j]).value
    ensures var row := Process(stamp, root).value;
            forall j :: 0 <= j < 8 ==>
              && Columns[j] in row.item
              && row.item[Columns[j]] == JStr(Decimal.IntToString(row.counts[j]))
              && Decimal.ParseInt(Decimal.IntToString(row.counts[j])) == Some(row.counts[j])
  {
    RowStatistics(stamp, root);
    RowCounters(stamp, root);
  }

  /** The counters of a per-source row are the record's statistics. */
  lemma RowStatistics(stamp: Stamp, root: Value)
    requires Process(stamp, root).Success?
    ensures var counts := Process(stamp, root).value.counts;
            forall j :: 0 <= j < 8 ==>
              Records.Statistic(root, Paths[j]).Success? && counts[j] == Records.Statistic(root, Paths[j]).value
  {
    ProcessParts(stamp, root);
    Records.ReadCountsSpec(root, Paths);
  }

  /** The counter columns of a per-source row hold its counters as decimal
      strings, which parse back. */
  lemma RowCounters(stamp: Stamp, root: Value)
    requires Process(stamp, root).Success?
    ensures var row := Process(stamp, root).value;
            forall j :: 0 <= j < 8 ==>
              && Columns[j] in row.item
              && row.item[Columns[j]] == JStr(Decimal.IntToString(row.counts[j]))
              && Decimal.ParseInt(Decimal.IntToString(row.counts[j])) == Some(row.counts[j])
  {
    ProcessParts(stamp, root);
    var row := Process(stamp, root).value;
    var id := Str(Get(root, "sourceId").value).value;
    SourceItemCounters(row.key, stamp.date, id, Get(root, "name").value, row.counts);
    forall j | 0 <= j < 8
      ensures Decimal.ParseInt(Decimal.IntToString(row.counts[j])) == Some(row.counts[j])
    {
      Decimal.ParseIntRoundTrip(row.counts[j]);
    }
  }

  /** The aggregate table after a run: the day's row is put exactly when
      every record was got through. */
  lemma AggregateAfter(today: Dates.Date, roots: seq<Value>, individual: Table, aggregate: Table)
    requires today.Valid()
    ensures var e := LoggerHandler(today, roots, individual, aggregate);
            var done := Processed(StampOf(today), roots);
            && (e.error.None? <==> |done| == |roots|)
            && e.aggregate ==
                 if |done| == |roots| then
                   aggregate[Dates.Label(today) := AggregateItem(Dates.Label(today), Sum(8, CountsOf(done)))]
                 else aggregate
  {
    LoopTotals(today, roots, Zeros(8), individual);
    AddZeros(Sum(8, CountsOf(Processed(StampOf(today), roots))));
  }

  /** The aggregate row for a list of readings: exactly the date and the
      eight counters, each the decimal string of that statistic totalled
      over the readings, which parses back to the total. */
  lemma TotalsRow(date: string, stats: seq<Counts>)
    requires Uniform(8, stats)
    ensures var row := AggregateItem(date, Sum(8, stats));
            && row.Keys == {Date} + ColumnAttrs
            && row[Date] == JStr(date)
            && forall j :: 0 <= j < 8 ==>
                 && row[Columns[j]] == JStr(Decimal.IntToString(Total(Column(stats, j))))
                 && Decimal.ParseInt(Decimal.IntToString(Total(Column(stats, j)))) == Some(Total(Column(stats, j)))
  {
    var totals := Sum(8, stats);
    AggregateItemFields(date, totals);
    forall j | 0 <= j < 8
      ensures totals[j] == Total(Column(stats, j))
      ensures Decimal.ParseInt(Decimal.IntToString(Total(Column(stats, j)))) == Some(Total(Column(stats, j)))
    {
      SumIsColumnTotal(8, stats, j);
      Decimal.ParseIntRoundTrip(Total(Column(stats, j)));
    }
  }

  /** `stats` lists, record by record, the eight statistics each record
      holds: slot `j` of reading `i` is statistic `j` of record `i`. */
  predicate ReadFrom(roots: seq<Value>, stats: seq<Counts>) {
    && |stats| == |roots|
    && Uniform(8, stats)
    && forall i, j :: 0 <= i < |roots| && 0 <= j < 8 ==>
         Records.Statistic(roots[i], Paths[j]).Success? && stats[i][j] == Records.Statistic(roots[i], Paths[j]).value
  }

  /** When every record gets through, the readings the totals are summed
      from are the records' own statistics. */
  lemma ReadingsAreStatistics(stamp: Stamp, roots: seq<Value>)
    requires |Processed(stamp, roots)| == |roots|
    ensures ReadFrom(roots, CountsOf(Processed(stamp, roots)))
  {
    ProcessedReadings(stamp, roots);
    StatisticColumns(roots, Processed(stamp, roots));
  }

  /** Each row got through holds the counters read from its own record. */
  lemma ProcessedReadings(stamp: Stamp, roots: seq<Value>)
    requires |Processed(stamp, roots)| == |roots|
    ensures forall i :: 0 <= i < |roots| ==> |Processed(stamp, roots)[i].counts| == 8
    ensures forall i :: 0 <= i < |roots| ==>
              Records.ReadCounts(roots[i], Paths) == Success(Processed(stamp, roots)[i].counts)
  {
    forall i | 0 <= i < |roots|
      ensures Records.ReadCounts(roots[i], Paths) == Success(Processed(stamp, roots)[i].counts)
    {
      ProcessParts(stamp, roots[i]);
    }
  }

  /** After a run that raised nothing, the day's aggregate row is the row
      `TotalsRow` describes for the readings of every record. */
  lemma AggregateRow(today: Dates.Date, roots: seq<Value>, individual: Table, aggregate: Table)
    requires today.Valid()
    requires LoggerHandler(today, roots, individual, aggregate).error.None?
    ensures |Processed(StampOf(today), roots)| == |roots|
    ensures Dates.Label(today) in LoggerHandler(today, roots, individual, aggregate).aggregate
    ensures LoggerHandler(today, roots, individual, aggregate).aggregate[Dates.Label(today)] ==
              AggregateItem(Dates.Label(today), Sum(8, CountsOf(Processed(StampOf(today), roots))))
  {
    AggregateAfter(today, roots, individual, aggregate);
  }

  /** Each reading is the statistics of its own record. */
  lemma StatisticColumns(roots: seq<Value>, done: seq<Row>)
    requires |done| == |roots|
    requires forall i :: 0 <= i < |done| ==> |done[i].counts| == 8
    requires forall i :: 0 <= i < |roots| ==> Records.ReadCounts(roots[i], Paths) == Success(done[i].counts)
    ensures ReadFrom(roots, CountsOf(done))
  {
    var stats := CountsOf(done);
    forall i | 0 <= i < |roots|
      ensures forall j :: 0 <= j < 8 ==>
                Records.Statistic(roots[i], Paths[j]).Success? && stats[i][j] == Records.Statistic(roots[i], Paths[j]).value
    {
      Records.ReadCountsSpec(roots[i], Paths);
    }
  }

  /** With an empty root-server list the run writes no per-source row and
      an aggregate row whose eight counters are all "0". */
  lemma EmptyRunWritesZeros(today: Dates.Date, individual: Table, aggregate: Table)
    requires today.Valid()
    ensures var e := LoggerHandler(today, [], individual, aggregate);
            && e.error.None?
            && e.individual == individual
            && e.aggregate == aggregate[Dates.Label(today) := AggregateItem(Dates.Label(today), Zeros(8))]
            && forall j :: 0 <= j < 8 ==> e.aggregate[Dates.Label(today)][Columns[j]] == JStr("0")
  {
    AggregateItemFields(Dates.Label(today), Zeros(8));
    assert Decimal.IntToString(0) == "0";
  }

  /** Running the collector a second time on the same day with the same
      records leaves both tables exactly as the first run left them. */
  lemma RunTwiceSameAsOnce(today: Dates.Date, roots: seq<Value>, individual: Table, aggregate: Table)
    requires today.Valid()
    ensures var e := LoggerHandler(today, roots, individual, aggregate);
            LoggerHandler(today, roots, e.individual, e.aggregate) == e
  {
    var e := LoggerHandler(today, roots, individual, aggregate);
    var e' := LoggerHandler(today, roots, e.individual, e.aggregate);
    var done := Processed(StampOf(today), roots);
    LoggerHandlerSpec(today, roots, individual, aggregate);
    LoggerHandlerSpec(today, roots, e.individual, e.aggregate);
    PutRowsIdempotent(individual, done);
    assert e'.individual == e.individual;
    if e.error.None? {
      var day := Dates.Label(today);
      UpdateTwice(aggregate, day, AggregateItem(day, Sum(8, CountsOf(done))), AggregateItem(day, Sum(8, CountsOf(done))));
    }
    assert e'.aggregate == e.aggregate;
  }

  lemma UpdateTwice<K, V>(m: map<K, V>, k: K, a: V, b: V)
    ensures m[k := a][k := b] == m[k := b]
  {
  }

  /** Upserting rows that each carry their own key as `id` keeps a table
      keyed by `id`. */
  lemma {:induction false} PutRowsKeyed(t: Table, rows: seq<Row>)
    requires KeyedBy(t, Id)
    requires forall i :: 0 <= i < |rows| ==> Id in rows[i].item && rows[i].item[Id] == JStr(rows[i].key)
    ensures KeyedBy(PutRows(t, rows), Id)
    decreases |rows|
  {
    if |rows| > 0 {
      var t' := t[rows[0].key := rows[0].item];
      assert KeyedBy(t', Id);
      assert forall i :: 0 <= i < |rows[1..]| ==> rows[1..][i] == rows[i + 1];
      PutRowsKeyed(t', rows[1..]);
    }
  }

  /** The per-source table stays keyed by `id` and the aggregate table by
      `date`, whatever the run does: every row written carries its own key. */
  lemma TablesStayKeyed(today: Dates.Date, roots: seq<Value>, individual: Table, aggregate: Table)
    requires today.Valid()
    requires KeyedBy(individual, Id) && KeyedBy(aggregate, Date)
    ensures var e := LoggerHandler(today, roots, individual, aggregate);
            KeyedBy(e.individual, Id) && KeyedBy(e.aggregate, Date)
  {
    IndividualStaysKeyed(today, roots, individual, aggregate);
    AggregateStaysKeyed(today, roots, individual, aggregate);
  }

  lemma AggregateStaysKeyed(today: Dates.Date, roots: seq<Value>, individual: Table, aggregate: Table)
    requires today.Valid() && KeyedBy(aggregate, Date)
    ensures KeyedBy(LoggerHandler(today, roots, individual, aggregate).aggregate, Date)
  {
    AggregateAfter(today, roots, individual, aggregate);
    var day := Dates.Label(today);
    var item := AggregateItem(day, Sum(8, CountsOf(Processed(StampOf(today), roots))));
    AggregateItemFields(day, Sum(8, CountsOf(Processed(StampOf(today), roots))));
    PutKeyed(aggregate, day, item, Date);
  }

  /** The aggregate rows hold only strings, so a run keeps every row of
      the aggregate table one the query handler can serve. */
  lemma AggregateStaysServable(today: Dates.Date, roots: seq<Value>, individual: Table, aggregate: Table)
    requires today.Valid() && TableDumpable(aggregate)
    ensures TableDumpable(LoggerHandler(today, roots, individual, aggregate).aggregate)
  {
    AggregateAfter(today, roots, individual, aggregate);
    var day := Dates.Label(today);
    var totals := Sum(8, CountsOf(Processed(StampOf(today), roots)));
    AggregateItemServable(day, totals);
    PutDumpable(aggregate, day, AggregateItem(day, totals));
  }

  /** Every attribute of an aggregate row is a string. */
  lemma AggregateItemServable(date: string, totals: Counts)
    requires |totals| == 8
    ensures ItemDumpable(AggregateItem(date, totals))
  {
    var item := AggregateItem(date, totals);
    forall a | a in item
      ensures Dumpable(item[a])
    {
      if a != Date {
        assert item[a] == Counter(a, totals);
      }
    }
  }

  lemma IndividualStaysKeyed(today: Dates.Date, roots: seq<Value>, individual: Table, aggregate: Table)
    requires today.Valid() && KeyedBy(individual, Id)
    ensures KeyedBy(LoggerHandler(today, roots, individual, aggregate).individual, Id)
  {
    LoopWrites(today, roots, Zeros(8), individual);
    var done := Processed(StampOf(today), roots);
    forall i | 0 <= i < |done|
      ensures Id in done[i].item && done[i].item[Id] == JStr(done[i].key)
    {
      RowCarriesKey(StampOf(today), roots[i]);
    }
    PutRowsKeyed(individual, done);
  }

  /** A second successful run on the same day replaces the day's aggregate
      row with its own totals instead of adding to it: the table holds one
      row for the day, the one the second run alone would have written. */
  lemma SecondRunReplacesAggregate(today: Dates.Date, first: seq<Value>, second: seq<Value>,
                                   individual: Table, aggregate: Table)
    requires today.Valid()
    ensures var e1 := LoggerHandler(today, first, individual, aggregate);
            var e2 := LoggerHandler(today, second, e1.individual, e1.aggregate);
            e2.error.None? ==>
              && e2.aggregate == LoggerHandler(today, second, individual, aggregate).aggregate
              && e2.aggregate.Keys == aggregate.Keys + {Dates.Label(today)}
  {
    var day := Dates.Label(today);
    var e1 := LoggerHandler(today, first, individual, aggregate);
    var e2 := LoggerHandler(today, second, e1.individual, e1.aggregate);
    AggregateAfter(today, first, individual, aggregate);
    AggregateAfter(today, second, e1.individual, e1.aggregate);
    AggregateAfter(today, second, individual, aggregate);
    if e2.error.None? {
      var x := AggregateItem(day, Sum(8, CountsOf(Processed(StampOf(today), second))));
      assert e2.aggregate == e1.aggregate[day := x];
      if |Processed(StampOf(today), first)| == |first| {
        var y := AggregateItem(day, Sum(8, CountsOf(Processed(StampOf(today), first))));
        assert e1.aggregate == aggregate[day := y];
        UpdateTwice(aggregate, day, y, x);
      }
    }
  }

  /** When a record cannot be got through, the run raises its exception:
      the records before it have had their per-source rows written and
      those rows stay, while the aggregate row is never put. */
  lemma FailedRunKeepsEarlierRows(today: Dates.Date, roots: seq<Value>, individual: Table, aggregate: Table)
    requires today.Valid()
    requires LoggerHandler(today, roots, individual, aggregate).error.Some?
    ensures var e := LoggerHandler(today, roots, individual, aggregate);
            var n := |Processed(StampOf(today), roots)|;
            && e.aggregate == aggregate
            && n < |roots|
            && Process(StampOf(today), roots[n]) == Failure(e.error.value)
            && forall i :: 0 <= i < n ==>
                 Process(StampOf(today), roots[i]).Success? && Process(StampOf(today), roots[i]).value.key in e.individual
  {
    LoggerHandlerSpec(today, roots, individual, aggregate);
    var done := Processed(StampOf(today), roots);
    PutRowsSpec(individual, done);
    forall i | 0 <= i < |done|
      ensures done[i].key in RowKeys(done)
    {
    }
  }
}
