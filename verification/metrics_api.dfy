/** The query handler (`api_handler` and `bad_response` of metrics.py):
    checks the request path, settles the date range, filters the aggregate
    table to that range and answers with the rows sorted by date. */
module MetricsApi {
  import opened Wrappers
  import opened Json
  import opened Store
  import Strings
  import Sorting
  import Dates
  import Seqs

  /** Paths the handler serves start with this. */
  const MetricsPrefix: string := "/metrics"

  /** The `start_date` used when the request gives none. */
  const FirstDay: string := "2021-06-27"

  /** The two fields of the proxy event the handler reads: `path` and
      `queryStringParameters` (absent, or a map from name to value). */
  datatype Event = Event(path: Option<string>, params: Option<map<string, string>>)

  /** What `json.dumps` puts in the response body. */
  datatype Body =
    | ErrorResponse(message: string)   // {"error_response": message}
    | Rows(items: seq<Item>)           // the sorted scan result

  /** A response; its fixed content-type and CORS headers are left out. */
  datatype Response = Response(statusCode: int, body: Body)

  /** `bad_response(message)`. */
  function BadResponse(message: string): Response {
    Response(403, ErrorResponse(message))
  }

  /** `params.get(name) if params and params.get(name) else fallback`: the
      supplied value unless it is missing or empty. */
  function Param(params: Option<map<string, string>>, name: string, fallback: string): (v: string)
    ensures params.Some? && name in params.value && params.value[name] != "" ==> v == params.value[name]
    ensures params.None? || name !in params.value || params.value[name] == "" ==> v == fallback
  {
    if params.Some? && name in params.value && params.value[name] != "" then params.value[name]
    else fallback
  }

  /** The stored `date` of an item, when it is a string. */
  function DateOf(item: Item): Option<string> {
    if Date in item && item[Date].JStr? then Some(item[Date].s) else None
  }

  /** `Key('date').between(lo, hi)`. BETWEEN is inclusive at both ends and
      compares strings by their UTF-8 bytes, which orders them as their
      code points do; an item without a string `date` does not match. */
  predicate InRange(item: Item, lo: string, hi: string) {
    DateOf(item).Some? && Strings.Le(lo, DateOf(item).value) && Strings.Le(DateOf(item).value, hi)
  }

  /** The sort key `k['date']`; every scanned item has a string date. */
  function DateKey(item: Item): string {
    if DateOf(item).Some? then DateOf(item).value else ""
  }

  /** No key occurs twice in `order`. */
  predicate Distinct(order: seq<string>) {
    forall i, j :: 0 <= i < j < |order| ==> order[i] != order[j]
  }

  /** Every key of `order` is a key of `table`. */
  predicate Within(order: seq<string>, table: Table) {
    forall i :: 0 <= i < |order| ==> order[i] in table
  }

  /** `order` is an order a full scan may visit `table` in: each key once. */
  predicate IsScanOrder(order: seq<string>, table: Table) {
    Distinct(order) && Within(order, table) && forall k :: k in table ==> k in order
  }

  /** The keys whose items pass the filter. */
  function Matching(table: Table, lo: string, hi: string): set<string> {
    set k | k in table && InRange(table[k], lo, hi)
  }

  /** `table.scan(FilterExpression=...)`: the items visited in `order` that
      pass the filter, in that order. */
  function Scan(table: Table, order: seq<string>, lo: string, hi: string): (items: seq<Item>)
    requires Within(order, table)
    ensures |items| <= |order|
    ensures forall x :: x in items ==> InRange(x, lo, hi)
    ensures forall i :: 0 <= i < |order| && InRange(table[order[i]], lo, hi) ==> table[order[i]] in items
    decreases |order|
  {
    if |order| == 0 then []
    else
      var rest := Scan(table, order[1..], lo, hi);
      assert forall i :: 1 <= i < |order| ==> order[i] == order[1..][i - 1];
      if InRange(table[order[0]], lo, hi) then [table[order[0]]] + rest else rest
  }

  /** The scan result sorted by date: `sorted(response['Items'], key=...)`. */
  function Query(table: Table, order: seq<string>, lo: string, hi: string): (items: seq<Item>)
    requires Within(order, table)
    ensures Sorting.SortedBy(items, DateKey)
    ensures multiset(items) == multiset(Scan(table, order, lo, hi))
  {
    var found := Scan(table, order, lo, hi);
    Sorting.SortBySorted(found, DateKey);
    Sorting.SortBy(found, DateKey)
  }

  /** `json.dumps` accepts every row of the answer. */
  predicate Serializable(items: seq<Item>) {
    forall i :: 0 <= i < |items| ==> ItemDumpable(items[i])
  }

  /** One request against the aggregate table, scanned in `order`. An event
      without a path raises (`None.startswith`); a range whose start sorts
      after its end makes the scan raise; a served row holding a number
      makes `json.dumps` raise. */
  function ApiHandler(event: Event, table: Table, order: seq<string>, today: Dates.Date): (r: Result<Response, Error>)
    requires today.Valid() && Within(order, table)
    ensures event.path.None? <==> r == Failure(NoPath)
    ensures event.path.Some? && !Strings.StartsWith(event.path.value, MetricsPrefix) ==> r.Success?
    ensures r.Failure? && event.path.Some? ==> r.error == InvalidRange || r.error == NotSerializable
    ensures r.Success? ==> (r.value.statusCode == 200 <==> Strings.StartsWith(event.path.value, MetricsPrefix))
    ensures r.Success? ==> (r.value.statusCode == 403 <==> !Strings.StartsWith(event.path.value, MetricsPrefix))
  {
    if event.path.None? then Failure(NoPath)
    else if !Strings.StartsWith(event.path.value, MetricsPrefix) then Success(BadResponse("bad path"))
    else
      var lo := Param(event.params, "start_date", FirstDay);
      var hi := Param(event.params, "end_date", Dates.Label(today));
      if !Strings.Le(lo, hi) then Failure(InvalidRange)
      else
        var items := Query(table, order, lo, hi);
        if !Serializable(items) then Failure(NotSerializable)
        else Success(Response(200, Rows(items)))
  }

  /** A path outside `/metrics` gets the 403 "bad path" answer whatever the
      parameters, the table, its scan order and the date: the table is
      never read. */
  lemma RejectsBadPath(event: Event, table: Table, order: seq<string>, today: Dates.Date,
                       params: Option<map<string, string>>, table': Table, order': seq<string>, today': Dates.Date)
    requires today.Valid() && Within(order, table)
    requires today'.Valid() && Within(order', table')
    requires event.path.Some? && !Strings.StartsWith(event.path.value, MetricsPrefix)
    ensures ApiHandler(event, table, order, today) == Success(Response(403, ErrorResponse("bad path")))
    ensures ApiHandler(Event(event.path, params), table', order', today') == ApiHandler(event, table, order, today)
  {
  }

  /** A `/metrics` request is answered 200 exactly when its range is not
      reversed and no stored row in range holds a number; the answer then
      holds exactly the stored rows whose date lies in the range, bounds
      included, each once, sorted by date. Otherwise the scan raises for a
      reversed range, and `json.dumps` raises for a number. */
  lemma ServesRange(event: Event, table: Table, order: seq<string>, today: Dates.Date)
    requires today.Valid() && IsScanOrder(order, table)
    requires event.path.Some? && Strings.StartsWith(event.path.value, MetricsPrefix)
    ensures var lo := Param(event.params, "start_date", FirstDay);
            var hi := Param(event.params, "end_date", Dates.Label(today));
            var r := ApiHandler(event, table, order, today);
            && (r.Success? <==> Strings.Le(lo, hi) && forall k :: k in Matching(table, lo, hi) ==> ItemDumpable(table[k]))
            && (r.Failure? ==> r.error == if Strings.Le(lo, hi) then NotSerializable else InvalidRange)
            && (r.Success? ==>
                  && r.value.statusCode == 200 && r.value.body.Rows?
                  && Sorting.SortedBy(r.value.body.items, DateKey)
                  && (forall x :: x in r.value.body.items <==> exists k :: k in Matching(table, lo, hi) && table[k] == x)
                  && |r.value.body.items| == |Matching(table, lo, hi)|)
  {
    var lo := Param(event.params, "start_date", FirstDay);
    var hi := Param(event.params, "end_date", Dates.Label(today));
    if Strings.Le(lo, hi) {
      var items := Query(table, order, lo, hi);
      QueryRows(table, order, lo, hi);
      SerializableRows(table, items, lo, hi);
      if Serializable(items) {
        assert ApiHandler(event, table, order, today) == Success(Response(200, Rows(items)));
      } else {
        assert ApiHandler(event, table, order, today) == Failure(NotSerializable);
      }
    } else {
      assert ApiHandler(event, table, order, today) == Failure(InvalidRange);
    }
  }

  /** An answer holding exactly the items of the matching keys can be
      dumped exactly when each of those items can. */
  lemma SerializableRows(table: Table, items: seq<Item>, lo: string, hi: string)
    requires forall x :: x in items <==> exists k :: k in Matching(table, lo, hi) && table[k] == x
    ensures Serializable(items) <==> forall k :: k in Matching(table, lo, hi) ==> ItemDumpable(table[k])
  {
    if Serializable(items) {
      forall k | k in Matching(table, lo, hi)
        ensures ItemDumpable(table[k])
      {
        var x := table[k];
        assert x in items;
        var i :| 0 <= i < |items| && items[i] == x;
      }
    }
    if forall k :: k in Matching(table, lo, hi) ==> ItemDumpable(table[k]) {
      forall i | 0 <= i < |items|
        ensures ItemDumpable(items[i])
      {
        assert items[i] in items;
      }
    }
  }

  /** The sorted scan holds exactly the matching items, one per matching key. */
  lemma QueryRows(table: Table, order: seq<string>, lo: string, hi: string)
    requires IsScanOrder(order, table)
    ensures var items := Query(table, order, lo, hi);
            && (forall x :: x in items <==> exists k :: k in Matching(table, lo, hi) && table[k] == x)
            && |items| == |Matching(table, lo, hi)|
  {
    var items := Query(table, order, lo, hi);
    var found := Scan(table, order, lo, hi);
    forall x
      ensures x in items <==> exists k :: k in Matching(table, lo, hi) && table[k] == x
    {
      assert x in items <==> x in multiset(found);
      ScanFrom(table, order, lo, hi);
      if x in found {
        var i :| 0 <= i < |order| && table[order[i]] == x;
        assert order[i] in Matching(table, lo, hi);
      }
      if exists k :: k in Matching(table, lo, hi) && table[k] == x {
        var k :| k in Matching(table, lo, hi) && table[k] == x;
        var i :| 0 <= i < |order| && order[i] == k;
      }
    }
    assert |items| == |multiset(items)| == |multiset(found)| == |found|;
    ScanCount(table, order, lo, hi);
    assert (set k | k in order && InRange(table[k], lo, hi)) == Matching(table, lo, hi);
  }

  /** Every scanned item is the item of some visited key. */
  lemma {:induction false} ScanFrom(table: Table, order: seq<string>, lo: string, hi: string)
    requires Within(order, table)
    ensures forall x :: x in Scan(table, order, lo, hi) ==> exists i :: 0 <= i < |order| && table[order[i]] == x
    decreases |order|
  {
    if |order| > 0 {
      ScanFrom(table, order[1..], lo, hi);
      forall x | x in Scan(table, order, lo, hi)
        ensures exists i :: 0 <= i < |order| && table[order[i]] == x
      {
        if x in Scan(table, order[1..], lo, hi) {
          var i :| 0 <= i < |order[1..]| && table[order[1..][i]] == x;
          assert table[order[i + 1]] == x;
        } else {
          assert table[order[0]] == x;
        }
      }
    }
  }

  /** Over a scan order without repeats, the scan returns one item per
      visited key whose item passes the filter. */
  lemma {:induction false} ScanCount(table: Table, order: seq<string>, lo: string, hi: string)
    requires Within(order, table) && Distinct(order)
    ensures |Scan(table, order, lo, hi)| == |set k | k in order && InRange(table[k], lo, hi)|
    decreases |order|
  {
    if |order| > 0 {
      WithinTail(order, table);
      DistinctTail(order);
      ScanCount(table, order[1..], lo, hi);
      VisitedSplit(table, order, lo, hi);
    }
  }

  /** The visited keys in range: the first one, when in range, and those of
      the rest of the order, which does not repeat the first. */
  lemma VisitedSplit(table: Table, order: seq<string>, lo: string, hi: string)
    requires Within(order, table) && |order| > 0 && order[0] !in order[1..]
    ensures var here := set k | k in order && InRange(table[k], lo, hi);
            var there := set k | k in order[1..] && InRange(table[k], lo, hi);
            |here| == (if InRange(table[order[0]], lo, hi) then 1 else 0) + |there|
  {
    var tail := order[1..];
    var here := set k | k in order && InRange(table[k], lo, hi);
    var there := set k | k in tail && InRange(table[k], lo, hi);
    assert forall k :: k in order <==> k == order[0] || k in tail by {
      assert order == [order[0]] + tail;
    }
    if InRange(table[order[0]], lo, hi) {
      assert here == {order[0]} + there;
    } else {
      assert here == there;
    }
  }

  /** Scanning two orders one after the other is scanning their concatenation. */
  lemma {:induction false} ScanAppend(table: Table, a: seq<string>, b: seq<string>, lo: string, hi: string)
    requires Within(a, table) && Within(b, table)
    ensures Within(a + b, table)
    ensures Scan(table, a + b, lo, hi) == Scan(table, a, lo, hi) + Scan(table, b, lo, hi)
    decreases |a|
  {
    WithinAppend(a, b, table);
    if |a| > 0 {
      WithinTail(a, table);
      ScanAppend(table, a[1..], b, lo, hi);
      assert (a + b)[0] == a[0];
      assert (a + b)[1..] == a[1..] + b;
      var x := table[a[0]];
      var rest, other := Scan(table, a[1..], lo, hi), Scan(table, b, lo, hi);
      if InRange(x, lo, hi) {
        assert [x] + (rest + other) == ([x] + rest) + other;
      }
    } else {
      assert a + b == b;
    }
  }

  /** Taking key `j` out of the order takes at most its item out of the scan. */
  lemma ScanRemove(table: Table, b: seq<string>, j: nat, lo: string, hi: string)
    requires Within(b, table) && j < |b|
    ensures Within(b[..j] + b[j + 1..], table)
    ensures multiset(Scan(table, b, lo, hi)) ==
              multiset(Scan(table, [b[j]], lo, hi)) + multiset(Scan(table, b[..j] + b[j + 1..], lo, hi))
  {
    var left, right := b[..j], b[j + 1..];
    assert Within(left, table) by {
      forall i | 0 <= i < |left|
        ensures left[i] in table
      {
        assert left[i] == b[i];
      }
    }
    assert Within(right, table) by {
      forall i | 0 <= i < |right|
        ensures right[i] in table
      {
        assert right[i] == b[j + 1 + i];
      }
    }
    assert b == left + ([b[j]] + right);
    ScanAppend(table, [b[j]], right, lo, hi);
    ScanAppend(table, left, [b[j]] + right, lo, hi);
    ScanAppend(table, left, right, lo, hi);
  }

  /** The multiset of scanned items does not depend on the scan order. */
  lemma {:induction false} ScanPermutation(table: Table, a: seq<string>, b: seq<string>, lo: string, hi: string)
    requires Within(a, table) && Within(b, table)
    requires multiset(a) == multiset(b)
    ensures multiset(Scan(table, a, lo, hi)) == multiset(Scan(table, b, lo, hi))
    decreases |a|
  {
    if |a| == 0 {
      assert |b| == |multiset(b)| == 0;
    } else {
      var x := a[0];
      assert x in multiset(b);
      var j :| 0 <= j < |b| && b[j] == x;
      var rest := b[..j] + b[j + 1..];
      Seqs.MultisetRemove(a, b, j);
      WithinTail(a, table);
      ScanRemove(table, b, j, lo, hi);
      ScanPermutation(table, a[1..], rest, lo, hi);
      assert Within([x], table);
      ScanAppend(table, [x], a[1..], lo, hi);
      assert a == [x] + a[1..];
    }
  }

  lemma WithinTail(a: seq<string>, table: Table)
    requires Within(a, table) && |a| > 0
    ensures Within(a[1..], table)
  {
    forall i | 0 <= i < |a[1..]|
      ensures a[1..][i] in table
    {
      assert a[1..][i] == a[i + 1];
    }
  }

  lemma WithinAppend(a: seq<string>, b: seq<string>, table: Table)
    requires Within(a, table) && Within(b, table)
    ensures Within(a + b, table)
  {
    forall i | 0 <= i < |a + b|
      ensures (a + b)[i] in table
    {
      if i >= |a| {
        assert (a + b)[i] == b[i - |a|];
      }
    }
  }

  lemma DistinctTail(order: seq<string>)
    requires Distinct(order) && |order| > 0
    ensures Distinct(order[1..]) && order[0] !in order[1..]
  {
    var tail := order[1..];
    forall i, j | 0 <= i < j < |tail|
      ensures tail[i] != tail[j]
    {
      assert tail[i] == order[i + 1] && tail[j] == order[j + 1];
    }
    forall i | 0 <= i < |tail|
      ensures tail[i] != order[0]
    {
      assert tail[i] == order[i + 1];
    }
  }

  /** Two scan orders of one table visit the same keys, each once. */
  lemma ScanOrdersAgree(table: Table, a: seq<string>, b: seq<string>)
    requires IsScanOrder(a, table) && IsScanOrder(b, table)
    ensures multiset(a) == multiset(b)
  {
    forall k
      ensures multiset(a)[k] == multiset(b)[k]
    {
      DistinctCount(a, k);
      DistinctCount(b, k);
    }
  }

  /** A key occurs once in an order without repeats that contains it. */
  lemma {:induction false} DistinctCount(order: seq<string>, k: string)
    requires Distinct(order)
    ensures multiset(order)[k] == if k in order then 1 else 0
    decreases |order|
  {
    if |order| > 0 {
      var tail := order[1..];
      assert order == [order[0]] + tail;
      assert Distinct(tail) by {
        forall i, j | 0 <= i < j < |tail|
          ensures tail[i] != tail[j]
        {
          assert tail[i] == order[i + 1] && tail[j] == order[j + 1];
        }
      }
      assert order[0] !in tail by {
        forall i | 0 <= i < |tail|
          ensures tail[i] != order[0]
        {
          assert tail[i] == order[i + 1];
        }
      }
      DistinctCount(tail, k);
    }
  }

  /** On a table keyed by date, a row's date names the row. */
  lemma KeyedDatesDetermine(table: Table, order: seq<string>, lo: string, hi: string)
    requires KeyedBy(table, Date) && Within(order, table)
    ensures Sorting.KeyDetermines(Query(table, order, lo, hi), DateKey)
  {
    var items := Query(table, order, lo, hi);
    ScanFrom(table, order, lo, hi);
    forall x, y | x in items && y in items && DateKey(x) == DateKey(y)
      ensures x == y
    {
      assert x in multiset(Scan(table, order, lo, hi)) && y in multiset(Scan(table, order, lo, hi));
      assert x in Scan(table, order, lo, hi) && y in Scan(table, order, lo, hi);
      var i :| 0 <= i < |order| && table[order[i]] == x;
      var j :| 0 <= j < |order| && table[order[j]] == y;
      assert DateKey(x) == order[i] && DateKey(y) == order[j];
    }
  }

  /** On a table keyed by date, the answer does not depend on the order
      the scan visited the table in. */
  lemma ScanOrderIrrelevant(table: Table, a: seq<string>, b: seq<string>, lo: string, hi: string)
    requires KeyedBy(table, Date)
    requires IsScanOrder(a, table) && IsScanOrder(b, table)
    ensures Query(table, a, lo, hi) == Query(table, b, lo, hi)
  {
    ScanOrdersAgree(table, a, b);
    ScanPermutation(table, a, b, lo, hi);
    KeyedDatesDetermine(table, a, lo, hi);
    Sorting.SortedUnique(Query(table, a, lo, hi), Query(table, b, lo, hi), DateKey);
  }

  /** Without query parameters the range runs from 2021-06-27 to today:
      the request is answered as if it had asked for those two dates. */
  lemma DefaultRange(path: string, table: Table, order: seq<string>, today: Dates.Date)
    requires today.Valid() && Within(order, table)
    ensures var explicit := map["start_date" := FirstDay, "end_date" := Dates.Label(today)];
            && ApiHandler(Event(Some(path), None), table, order, today)
                 == ApiHandler(Event(Some(path), Some(explicit)), table, order, today)
            && ApiHandler(Event(Some(path), Some(map[])), table, order, today)
                 == ApiHandler(Event(Some(path), None), table, order, today)
  {
    var explicit := map["start_date" := FirstDay, "end_date" := Dates.Label(today)];
    assert "start_date" != "end_date";
    assert Param(Some(explicit), "start_date", FirstDay) == FirstDay;
    assert Param(Some(explicit), "end_date", Dates.Label(today)) == Dates.Label(today);
    SameRange(Event(Some(path), None), Event(Some(path), Some(explicit)), table, order, today);
    SameRange(Event(Some(path), Some(map[])), Event(Some(path), None), table, order, today);
  }

  /** Two requests for the same path that settle on the same range get the
      same answer. */
  lemma SameRange(e1: Event, e2: Event, table: Table, order: seq<string>, today: Dates.Date)
    requires today.Valid() && Within(order, table)
    requires e1.path == e2.path
    requires Param(e1.params, "start_date", FirstDay) == Param(e2.params, "start_date", FirstDay)
    requires Param(e1.params, "end_date", Dates.Label(today)) == Param(e2.params, "end_date", Dates.Label(today))
    ensures ApiHandler(e1, table, order, today) == ApiHandler(e2, table, order, today)
  {
  }

  /** For rows dated by the calendar, the string range is the calendar
      range: a row is served exactly when its day lies between the two
      requested days, both included. */
  lemma CalendarRange(item: Item, d: Dates.Date, first: Dates.Date, last: Dates.Date)
    requires d.Valid() && first.Valid() && last.Valid()
    requires Date in item && item[Date] == JStr(Dates.Label(d))
    ensures InRange(item, Dates.Label(first), Dates.Label(last)) <==>
              (Dates.NotAfter(first, d) && Dates.NotAfter(d, last))
  {
    Dates.LabelOrder(first, d);
    Dates.LabelOrder(d, last);
  }
}
