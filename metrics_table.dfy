/** The data behind `print_url_metrics_table`: either the "no data" outcome,
    or one row per URL, ranked by request count with ties in insertion
    order, and with long URLs shortened for display. */
module MetricsTable {
  import opened Seqs
  import opened UrlMetrics

  /** The widest handler column, `max_url_len`. */
  const MaxUrlLen: nat := 30

  /** The marker put after a shortened URL. */
  const Ellipsis: string := "..."

  /** The handler shown for a URL: the URL itself when it fits, otherwise
      its first 27 characters and the three-character marker, 30 in all. */
  function DisplayUrl(url: string): (r: string)
    ensures |r| <= MaxUrlLen
    ensures r == url <==> |url| <= MaxUrlLen
    ensures |url| > MaxUrlLen ==>
      |r| == MaxUrlLen && r[..MaxUrlLen - 3] == url[..MaxUrlLen - 3] && r[MaxUrlLen - 3..] == Ellipsis
  {
    if |url| > MaxUrlLen then url[..MaxUrlLen - 3] + Ellipsis else url
  }

  /** One `(url, metrics)` pair of `url_metrics_data.items()`. */
  type Item = (string, Metric)

  /** `url_metrics_data.items()`: the pairs in the dict's insertion order. */
  function Items(d: Dict<Metric>): (r: seq<Item>)
    requires ValidDict(d)
    ensures |r| == |d.keys|
    ensures forall i :: 0 <= i < |r| ==> r[i].0 == d.keys[i] && r[i].1 == d.entries[r[i].0]
    ensures forall k :: k in d.entries <==> exists i :: 0 <= i < |r| && r[i].0 == k
  {
    var r := seq(|d.keys|, i requires 0 <= i < |d.keys| => (d.keys[i], d.entries[d.keys[i]]));
    assert forall k :: k in d.keys ==> exists i :: 0 <= i < |r| && r[i].0 == k by {
      forall k | k in d.keys ensures exists i :: 0 <= i < |r| && r[i].0 == k {
        var i :| 0 <= i < |d.keys| && d.keys[i] == k;
        assert r[i].0 == k;
      }
    }
    r
  }

  /** Put x, an item that came before all of t in the input, into t: after
      every item with a larger total, before the others. */
  function Insert(x: Item, t: seq<Item>): (r: seq<Item>)
    ensures |r| == |t| + 1
  {
    if t == [] || t[0].1.total <= x.1.total then [x] + t
    else [t[0]] + Insert(x, t[1..])
  }

  /** `sorted(items, key=lambda item: item[1]['total'], reverse=True)`,
      Python's stable sort, written as an insertion sort. */
  function SortByTotal(s: seq<Item>): (r: seq<Item>)
    ensures |r| == |s|
  {
    if s == [] then [] else Insert(s[0], SortByTotal(s[1..]))
  }

  predicate Descending(s: seq<Item>)
  {
    forall i, j :: 0 <= i < j < |s| ==> s[i].1.total >= s[j].1.total
  }

  function WithTotalOf(t: nat): Item -> seq<Item>
  {
    (x: Item) => if x.1.total == t then [x] else []
  }

  /** The items with total t, in order. */
  function WithTotal(s: seq<Item>, t: nat): seq<Item>
  {
    ConcatMap(WithTotalOf(t), s)
  }

  lemma {:induction false} InsertPermutes(x: Item, t: seq<Item>)
    ensures multiset(Insert(x, t)) == multiset(t) + multiset{x}
  {
    if t != [] && t[0].1.total > x.1.total {
      InsertPermutes(x, t[1..]);
      assert t == [t[0]] + t[1..];
    }
  }

  lemma {:induction false} InsertDescending(x: Item, t: seq<Item>)
    requires Descending(t)
    ensures Descending(Insert(x, t))
  {
    if t != [] && t[0].1.total > x.1.total {
      var rest := Insert(x, t[1..]);
      InsertDescending(x, t[1..]);
      InsertPermutes(x, t[1..]);
      forall j | 0 <= j < |rest| ensures rest[j].1.total <= t[0].1.total {
        assert rest[j] in multiset(rest);
        if rest[j] != x {
          assert rest[j] in multiset(t[1..]);
          var k :| 0 <= k < |t[1..]| && t[1..][k] == rest[j];
          assert t[k + 1] == rest[j];
        }
      }
    }
  }

  /** Inserting x puts it ahead of the items with its own total and leaves
      the order among those of every other total alone. */
  lemma {:induction false} InsertStable(x: Item, t: seq<Item>, n: nat)
    ensures WithTotal(Insert(x, t), n) == WithTotalOf(n)(x) + WithTotal(t, n)
  {
    if t != [] && t[0].1.total > x.1.total {
      InsertStable(x, t[1..], n);
      assert Insert(x, t)[1..] == Insert(x, t[1..]);
      assert WithTotal(t, n) == WithTotalOf(n)(t[0]) + WithTotal(t[1..], n);
      if x.1.total == n {
        assert WithTotalOf(n)(t[0]) == [];
      }
    } else {
      assert ([x] + t)[1..] == t;
    }
  }

  /** The sorted items are the input items, each as often as before. */
  lemma {:induction false} SortPermutes(s: seq<Item>)
    ensures multiset(SortByTotal(s)) == multiset(s)
  {
    if s != [] {
      SortPermutes(s[1..]);
      InsertPermutes(s[0], SortByTotal(s[1..]));
      assert s == [s[0]] + s[1..];
    }
  }

  /** The sorted items are ranked by total, largest first. */
  lemma {:induction false} SortDescending(s: seq<Item>)
    ensures Descending(SortByTotal(s))
  {
    if s != [] {
      SortDescending(s[1..]);
      InsertDescending(s[0], SortByTotal(s[1..]));
    }
  }

  /** The sort is stable: the items sharing a total keep their input order. */
  lemma {:induction false} SortStable(s: seq<Item>, n: nat)
    ensures WithTotal(SortByTotal(s), n) == WithTotal(s, n)
  {
    if s != [] {
      SortStable(s[1..], n);
      InsertStable(s[0], SortByTotal(s[1..]), n);
    }
  }

  predicate DistinctUrls(s: seq<Item>)
  {
    forall i, j :: 0 <= i < j < |s| ==> s[i].0 != s[j].0
  }

  /** Sorting keeps the URLs distinct, so each still names one row. */
  lemma {:induction false} SortDistinct(s: seq<Item>)
    requires DistinctUrls(s)
    ensures DistinctUrls(SortByTotal(s))
  {
    if s != [] {
      var rest := SortByTotal(s[1..]);
      assert DistinctUrls(s[1..]) by {
        forall i, j | 0 <= i < j < |s[1..]| ensures s[1..][i].0 != s[1..][j].0 {
          assert s[1..][i] == s[i + 1] && s[1..][j] == s[j + 1];
        }
      }
      SortDistinct(s[1..]);
      SortPermutes(s[1..]);
      forall k | 0 <= k < |rest| ensures rest[k].0 != s[0].0 {
        assert rest[k] in multiset(s[1..]);
        var m :| 0 <= m < |s[1..]| && s[1..][m] == rest[k];
        assert s[m + 1] == rest[k];
      }
      InsertDistinct(s[0], rest);
    }
  }

  lemma {:induction false} InsertDistinct(x: Item, t: seq<Item>)
    requires DistinctUrls(t)
    requires forall k :: 0 <= k < |t| ==> t[k].0 != x.0
    ensures DistinctUrls(Insert(x, t))
  {
    if t != [] && t[0].1.total > x.1.total {
      var rest := Insert(x, t[1..]);
      assert DistinctUrls(t[1..]) by {
        forall i, j | 0 <= i < j < |t[1..]| ensures t[1..][i].0 != t[1..][j].0 {
          assert t[1..][i] == t[i + 1] && t[1..][j] == t[j + 1];
        }
      }
      InsertDistinct(x, t[1..]);
      InsertPermutes(x, t[1..]);
      forall k | 0 <= k < |rest| ensures rest[k].0 != t[0].0 {
        assert rest[k] in multiset(rest);
        if rest[k] != x {
          assert rest[k] in multiset(t[1..]);
          var m :| 0 <= m < |t[1..]| && t[1..][m] == rest[k];
          assert t[m + 1] == rest[k];
        }
      }
    }
  }

  /** One row of the table: tabulate's index column, the handler, the count
      and the mean response time (before `:.3f` formatting). */
  datatype Row = Row(index: nat, handler: string, total: nat, avgTime: real)

  /** What `print_url_metrics_table` shows. */
  datatype Table = NoData | Rows(rows: seq<Row>)

  /** The items in table order, with one item per URL of the dict. */
  lemma RankedItems(d: Dict<Metric>)
    requires ValidDict(d)
    ensures |SortByTotal(Items(d))| == |d.keys|
    ensures DistinctUrls(SortByTotal(Items(d)))
    ensures Descending(SortByTotal(Items(d)))
    ensures forall k :: k in d.entries <==>
      exists i :: 0 <= i < |SortByTotal(Items(d))| && SortByTotal(Items(d))[i].0 == k
    ensures forall i :: 0 <= i < |SortByTotal(Items(d))| ==>
      SortByTotal(Items(d))[i].0 in d.entries
      && SortByTotal(Items(d))[i].1 == d.entries[SortByTotal(Items(d))[i].0]
  {
    var items := Items(d);
    var sorted := SortByTotal(items);
    SortPermutes(items);
    SortDescending(items);
    SortDistinct(items);
    forall i | 0 <= i < |sorted| ensures sorted[i].0 in d.entries && sorted[i].1 == d.entries[sorted[i].0] {
      assert sorted[i] in multiset(items);
      var m :| 0 <= m < |items| && items[m] == sorted[i];
    }
    forall k | k in d.entries ensures exists i :: 0 <= i < |sorted| && sorted[i].0 == k {
      var m :| 0 <= m < |items| && items[m].0 == k;
      assert items[m] in multiset(sorted);
      var i :| 0 <= i < |sorted| && sorted[i] == items[m];
    }
  }

  /** The rows tabulate numbers and shows for the ranked items. */
  function RowsOf(items: seq<Item>): seq<Row>
  {
    seq(|items|, i requires 0 <= i < |items| => Row(i, DisplayUrl(items[i].0), items[i].1.total, items[i].1.avgTime))
  }

  /** A dict is empty exactly when it lists no keys. */
  lemma EmptyDict<V>(d: Dict<V>)
    requires ValidDict(d)
    ensures d.entries == map[] <==> d.keys == []
  {
    if d.keys != [] {
      assert d.keys[0] in d.entries;
    }
  }

  /** `print_url_metrics_table(url_metrics_data)` up to the layout: an
      empty dict gives the "no data" outcome, any other the rows of its
      ranked items. */
  method PrepareTable(metrics: Dict<Metric>) returns (table: Table)
    requires ValidDict(metrics)
    ensures table.NoData? <==> metrics.entries == map[]
    ensures table.NoData? <==> metrics.keys == []
    ensures table.Rows? ==> table.rows == RowsOf(SortByTotal(Items(metrics)))
  {
    EmptyDict(metrics);
    if metrics.entries == map[] {
      return NoData;
    }
    var sortedMetrics := SortByTotal(Items(metrics));
    var tableData: seq<Row> := [];
    for i := 0 to |sortedMetrics|
      invariant |tableData| == i
      invariant forall k :: 0 <= k < i ==>
        tableData[k] == Row(k, DisplayUrl(sortedMetrics[k].0), sortedMetrics[k].1.total, sortedMetrics[k].1.avgTime)
    {
      var (url, m) := sortedMetrics[i];
      var displayUrl := url;
      if |url| > MaxUrlLen {
        displayUrl := url[..MaxUrlLen - 3] + Ellipsis;
      }
      tableData := tableData + [Row(i, displayUrl, m.total, m.avgTime)];
    }
    table := Rows(tableData);
  }

  /** What the rows of a non-empty dict show: one row per URL of the dict,
      numbered from 0, with that URL's count and mean, a handler of at most
      30 characters, totals non-increasing down the table, and URLs sharing
      a total in the dict's insertion order. */
  lemma TableRows(d: Dict<Metric>)
    requires ValidDict(d)
    ensures |RowsOf(SortByTotal(Items(d)))| == |d.keys|
    ensures forall k :: k in d.entries <==>
      exists i :: 0 <= i < |d.keys| && SortByTotal(Items(d))[i].0 == k
    ensures forall i :: 0 <= i < |d.keys| ==>
      var url := SortByTotal(Items(d))[i].0;
      url in d.entries
      && RowsOf(SortByTotal(Items(d)))[i] == Row(i, DisplayUrl(url), d.entries[url].total, d.entries[url].avgTime)
      && |RowsOf(SortByTotal(Items(d)))[i].handler| <= MaxUrlLen
    ensures forall i, j :: 0 <= i < j < |d.keys| ==>
      RowsOf(SortByTotal(Items(d)))[i].total >= RowsOf(SortByTotal(Items(d)))[j].total
    ensures forall i, j :: 0 <= i < j < |d.keys| ==> SortByTotal(Items(d))[i].0 != SortByTotal(Items(d))[j].0
    ensures forall n: nat :: WithTotal(SortByTotal(Items(d)), n) == WithTotal(Items(d), n)
  {
    RankedItems(d);
    forall n: nat ensures WithTotal(SortByTotal(Items(d)), n) == WithTotal(Items(d), n) {
      SortStable(Items(d), n);
    }
  }

  /** Totals 1, 5 and 3 come out in the order 5, 3, 1. */
  lemma RankingExample(low: Item, high: Item, medium: Item)
    requires low.1.total == 1 && high.1.total == 5 && medium.1.total == 3
    ensures SortByTotal([low, high, medium]) == [high, medium, low]
  {
    assert [low, high, medium][1..] == [high, medium];
    assert [high, medium][1..] == [medium];
    assert [medium][1..] == [];
    assert SortByTotal([high, medium]) == Insert(high, [medium]) == [high, medium];
    assert Insert(low, [medium]) == [medium] + Insert(low, []);
  }

  /** A 53-character URL is shown as its first 27 characters and "...". */
  lemma TruncationExample(url: string)
    requires url == "/api/this/is/a/very/long/url/that/should/be/truncated"
    ensures DisplayUrl(url) == "/api/this/is/a/very/long/ur..."
  {
  }
}
