/** The flat-input collector (`lambda_handler` of metrics_logger.py): sums
    five flat counters over all root servers and upserts one row for the
    day, with the totals stored as numbers. */
module MetricsLogger {
  import opened Wrappers
  import opened Json
  import opened Store
  import opened Tally
  import Records
  import Dates

  /** The stored counter attributes, one per flat field; each carries the
      name of the field it is read from (`AttrName`). */
  const Fields: seq<Attr> := [NumZones, NumAreas, NumGroups, NumRegions, NumMeetings]

  /** Each statistic is read as `root[field]`. */
  const Paths: seq<seq<string>> := [["num_zones"], ["num_areas"], ["num_groups"], ["num_regions"], ["num_meetings"]]

  /** The `for root in root_servers` loop: adds each record's five fields
      onto the running totals `acc`, raising at the first unreadable one. */
  function Fold(roots: seq<Value>, acc: Counts): (r: Result<Counts, Error>)
    requires |acc| == 5
    ensures r.Success? ==> |r.value| == 5
    decreases |roots|
  {
    if |roots| == 0 then Success(acc)
    else
      var c :- Records.ReadCounts(roots[0], Paths);
      Fold(roots[1..], Add(acc, c))
  }

  /** The item handed to `put_item`. */
  function SnapshotItem(date: string, totals: Counts): Item
    requires |totals| == 5
  {
    map[
      Date := JStr(date),
      NumZones := JNum(totals[0]),
      NumAreas := JNum(totals[1]),
      NumGroups := JNum(totals[2]),
      NumRegions := JNum(totals[3]),
      NumMeetings := JNum(totals[4])
    ]
  }

  /** One run of the collector on the decoded root-server list. A run that
      raises writes nothing, which the model shows by returning no table. */
  function LambdaHandler(today: Dates.Date, roots: seq<Value>, table: Table): (r: Result<Table, Error>)
    requires today.Valid()
    ensures r.Success? ==> r.value.Keys == table.Keys + {Dates.Label(today)}
    ensures r.Success? ==> forall k :: k in table && k != Dates.Label(today) ==> r.value[k] == table[k]
  {
    var totals :- Fold(roots, Zeros(5));
    Success(table[Dates.Label(today) := SnapshotItem(Dates.Label(today), totals)])
  }

  /** The loop computes the running totals plus the slot-by-slot sum of
      every record's fields, and raises the first record's error when some
      record cannot be read. */
  lemma {:induction false} FoldIsSum(roots: seq<Value>, acc: Counts)
    requires |acc| == 5
    ensures Records.ReadAll(roots, Paths).Failure? ==>
              Fold(roots, acc) == Failure(Records.ReadAll(roots, Paths).error)
    ensures Records.ReadAll(roots, Paths).Success? ==>
              Fold(roots, acc) == Success(Add(acc, Sum(5, Records.ReadAll(roots, Paths).value)))
    decreases |roots|
  {
    if |roots| == 0 {
      AddZeros(acc);
    } else if Records.ReadCounts(roots[0], Paths).Success? {
      var c := Records.ReadCounts(roots[0], Paths).value;
      FoldIsSum(roots[1..], Add(acc, c));
      if Records.ReadAll(roots[1..], Paths).Success? {
        AddAssociative(acc, c, Sum(5, Records.ReadAll(roots[1..], Paths).value));
        assert ([c] + Records.ReadAll(roots[1..], Paths).value)[1..] == Records.ReadAll(roots[1..], Paths).value;
      }
    }
  }

  /** The run succeeds exactly when every record has all five fields as
      numbers, and otherwise raises the error of the first record that
      lacks one. */
  lemma LambdaHandlerOutcome(today: Dates.Date, roots: seq<Value>, table: Table)
    requires today.Valid()
    ensures var r := LambdaHandler(today, roots, table);
            r.Success? <==> forall i :: 0 <= i < |roots| ==> Records.ReadCounts(roots[i], Paths).Success?
    ensures var r := LambdaHandler(today, roots, table);
            r.Failure? ==> Records.ReadAll(roots, Paths).Failure? && r.error == Records.ReadAll(roots, Paths).error
  {
    FoldIsSum(roots, Zeros(5));
    Records.ReadAllElementwise(roots, Paths);
  }

  /** The row a successful run writes has exactly the date and the five
      counter attributes, the date is today's label, and each counter is the
      number (not a string) that totals that field over all records. */
  lemma LambdaHandlerRow(today: Dates.Date, roots: seq<Value>, table: Table)
    requires today.Valid()
    requires LambdaHandler(today, roots, table).Success?
    ensures Records.ReadAll(roots, Paths).Success?
    ensures var row := LambdaHandler(today, roots, table).value[Dates.Label(today)];
            && row.Keys == {Date} + set f | f in Fields
            && row[Date] == JStr(Dates.Label(today))
            && forall j :: 0 <= j < 5 ==>
                 row[Fields[j]] == JNum(Total(Column(Records.ReadAll(roots, Paths).value, j)))
  {
    FoldIsSum(roots, Zeros(5));
    var rows := Records.ReadAll(roots, Paths).value;
    var totals := Sum(5, rows);
    AddZeros(totals);
    ColumnTotals(rows);
    ItemFields(Dates.Label(today), totals);
  }

  lemma ColumnTotals(rows: seq<Counts>)
    requires Uniform(5, rows)
    ensures forall j :: 0 <= j < 5 ==> Sum(5, rows)[j] == Total(Column(rows, j))
  {
    forall j | 0 <= j < 5
      ensures Sum(5, rows)[j] == Total(Column(rows, j))
    {
      SumIsColumnTotal(5, rows, j);
    }
  }

  /** The rows this collector writes hold numbers, which the store hands
      back as `decimal.Decimal`: `json.dumps` in the query handler cannot
      serve them. */
  lemma SnapshotNotServable(today: Dates.Date, roots: seq<Value>, table: Table)
    requires today.Valid() && LambdaHandler(today, roots, table).Success?
    ensures var t := LambdaHandler(today, roots, table).value;
            Dates.Label(today) in t && !ItemDumpable(t[Dates.Label(today)])
  {
    var totals := Fold(roots, Zeros(5)).value;
    var item := SnapshotItem(Dates.Label(today), totals);
    assert NumZones in item && !Dumpable(item[NumZones]);
  }

  lemma ItemFields(date: string, totals: Counts)
    requires |totals| == 5
    ensures SnapshotItem(date, totals).Keys == {Date} + set f | f in Fields
    ensures SnapshotItem(date, totals)[Date] == JStr(date)
    ensures forall j :: 0 <= j < 5 ==> SnapshotItem(date, totals)[Fields[j]] == JNum(totals[j])
  {
    var item := SnapshotItem(date, totals);
    assert (set f | f in Fields) == {NumZones, NumAreas, NumGroups, NumRegions, NumMeetings};
    forall j | 0 <= j < 5
      ensures item[Fields[j]] == JNum(totals[j])
    {
      if j == 0 {} else if j == 1 {} else if j == 2 {} else if j == 3 {} else {}
    }
  }

  /** With no root servers every total is 0. */
  lemma EmptyRunWritesZeros(today: Dates.Date, table: Table)
    requires today.Valid()
    ensures LambdaHandler(today, [], table) == Success(table[Dates.Label(today) := map[
              Date := JStr(Dates.Label(today)),
              NumZones := JNum(0), NumAreas := JNum(0), NumGroups := JNum(0),
              NumRegions := JNum(0), NumMeetings := JNum(0)]])
  {
  }

  /** The totals of `a + b` are the totals of `a` plus those of `b`, and the
      fold over `a + b` succeeds exactly when both folds do. */
  lemma FoldAppend(a: seq<Value>, b: seq<Value>)
    ensures Fold(a + b, Zeros(5)).Success? <==> Fold(a, Zeros(5)).Success? && Fold(b, Zeros(5)).Success?
    ensures Fold(a + b, Zeros(5)).Success? ==>
              Fold(a + b, Zeros(5)).value == Add(Fold(a, Zeros(5)).value, Fold(b, Zeros(5)).value)
  {
    FoldIsSum(a + b, Zeros(5));
    FoldIsSum(a, Zeros(5));
    FoldIsSum(b, Zeros(5));
    Records.ReadAllAppend(a, b, Paths);
    var ra, rb := Records.ReadAll(a, Paths), Records.ReadAll(b, Paths);
    if ra.Success? && rb.Success? {
      SumAppend(5, ra.value, rb.value);
      AddZeros(Sum(5, ra.value + rb.value));
      AddZeros(Sum(5, ra.value));
      AddZeros(Sum(5, rb.value));
    }
  }

  /** The run does not depend on the order of the root servers: a reordered
      list succeeds or fails alike and writes the same table. */
  lemma OrderIndependent(today: Dates.Date, a: seq<Value>, b: seq<Value>, table: Table)
    requires today.Valid()
    requires multiset(a) == multiset(b)
    ensures LambdaHandler(today, a, table).Success? <==> LambdaHandler(today, b, table).Success?
    ensures LambdaHandler(today, a, table).Success? ==> LambdaHandler(today, a, table) == LambdaHandler(today, b, table)
  {
    FoldIsSum(a, Zeros(5));
    FoldIsSum(b, Zeros(5));
    Records.ReadAllPermutation(a, b, Paths);
    var ra, rb := Records.ReadAll(a, Paths), Records.ReadAll(b, Paths);
    if ra.Success? {
      SumPermutation(5, ra.value, rb.value);
    }
  }

  /** The write is an upsert keyed by date: a second run on the same day
      leaves the table as if only the second run had happened. */
  lemma RerunReplaces(today: Dates.Date, first: seq<Value>, second: seq<Value>, table: Table)
    requires today.Valid()
    requires LambdaHandler(today, first, table).Success?
    ensures LambdaHandler(today, second, LambdaHandler(today, first, table).value) ==
            LambdaHandler(today, second, table)
  {
    var day := Dates.Label(today);
    var once := LambdaHandler(today, first, table).value;
    var totals := Fold(second, Zeros(5));
    if totals.Success? {
      var item := SnapshotItem(day, totals.value);
      assert once[day := item] == table[day := item];
    }
  }

  /** The table stays keyed by `date`: the row put carries its own key. */
  lemma TableStaysKeyed(today: Dates.Date, roots: seq<Value>, table: Table)
    requires today.Valid() && KeyedBy(table, Date)
    ensures LambdaHandler(today, roots, table).Success? ==> KeyedBy(LambdaHandler(today, roots, table).value, Date)
  {
    var day := Dates.Label(today);
    if Fold(roots, Zeros(5)).Success? {
      var totals := Fold(roots, Zeros(5)).value;
      assert SnapshotItem(day, totals)[Date] == JStr(day);
    }
  }
}
