/** `analyze_url_metrics`: group the records by URL and compute, for each
    URL, how many qualifying records it has and their mean response time. */
module UrlMetrics {
  import opened Json

  /** The per-URL accumulator of the first pass. */
  datatype Bucket = Bucket(totalRequests: nat, sumResponseTime: real)

  /** The finished per-URL result, `{'total': ..., 'avg_time': ...}`. */
  datatype Metric = Metric(total: nat, avgTime: real)

  /** A Python dict with string keys: its entries and the order in which
      its keys were first inserted. */
  datatype Dict<V> = Dict(keys: seq<string>, entries: map<string, V>)

  predicate Distinct(s: seq<string>)
  {
    forall i, j :: 0 <= i < j < |s| ==> s[i] != s[j]
  }

  /** The keys are listed once each, and exactly the keys are listed. */
  ghost predicate ValidDict<V>(d: Dict<V>)
  {
    Distinct(d.keys) && forall k :: k in d.entries <==> k in d.keys
  }

  /** A record the aggregation counts: a truthy string `url` and a numeric
      `response_time`. */
  predicate Qualifies(e: Record)
  {
    Truthy(Get(e, "url")) && Get(e, "url").Str? && IsNumber(Get(e, "response_time"))
  }

  function Url(e: Record): string
    requires Qualifies(e)
  {
    Get(e, "url").s
  }

  function ResponseTime(e: Record): real
    requires Qualifies(e)
  {
    NumberValue(Get(e, "response_time"))
  }

  /** Whether e is a qualifying record for URL u. */
  predicate CountsFor(e: Record, u: string)
  {
    Qualifies(e) && Url(e) == u
  }

  /** The number of qualifying records for u. */
  function Count(entries: seq<Record>, u: string): nat
  {
    if entries == [] then 0
    else Count(entries[..|entries| - 1], u) + (if CountsFor(entries[|entries| - 1], u) then 1 else 0)
  }

  /** The sum of the response times of the qualifying records for u. */
  function Sum(entries: seq<Record>, u: string): real
  {
    if entries == [] then 0.0
    else
      var last := entries[|entries| - 1];
      Sum(entries[..|entries| - 1], u) + (if CountsFor(last, u) then ResponseTime(last) else 0.0)
  }

  /** The URLs of the qualifying records, each once, in order of first appearance. */
  function FirstSeen(entries: seq<Record>): seq<string>
  {
    if entries == [] then []
    else
      var prev, last := FirstSeen(entries[..|entries| - 1]), entries[|entries| - 1];
      if Qualifies(last) && Url(last) !in prev then prev + [Url(last)] else prev
  }

  /** The set of URLs of qualifying records. */
  ghost function QualifyingUrls(entries: seq<Record>): set<string>
  {
    set i | 0 <= i < |entries| && Qualifies(entries[i]) :: Url(entries[i])
  }

  /** A URL has a positive count exactly when some qualifying record names it,
      and the first-appearance order lists exactly those URLs, each once. */
  lemma {:induction false} CountPositiveIffSeen(entries: seq<Record>, u: string)
    ensures Count(entries, u) > 0 <==> u in QualifyingUrls(entries)
    ensures u in FirstSeen(entries) <==> u in QualifyingUrls(entries)
    ensures Distinct(FirstSeen(entries))
  {
    if entries != [] {
      var n := |entries| - 1;
      var prefix := entries[..n];
      CountPositiveIffSeen(prefix, u);
      assert QualifyingUrls(entries)
          == QualifyingUrls(prefix) + (if Qualifies(entries[n]) then {Url(entries[n])} else {}) by {
        forall x | x in QualifyingUrls(entries)
          ensures x in QualifyingUrls(prefix) || (Qualifies(entries[n]) && x == Url(entries[n]))
        {
          var i :| 0 <= i < |entries| && Qualifies(entries[i]) && Url(entries[i]) == x;
          if i < n {
            assert prefix[i] == entries[i];
          }
        }
        forall x | x in QualifyingUrls(prefix)
          ensures x in QualifyingUrls(entries)
        {
          var i :| 0 <= i < |prefix| && Qualifies(prefix[i]) && Url(prefix[i]) == x;
          assert entries[i] == prefix[i];
        }
      }
    }
  }

  /** Counts and sums add up over a concatenation of record lists. */
  lemma {:induction false} CountSumAppend(a: seq<Record>, b: seq<Record>, u: string)
    ensures Count(a + b, u) == Count(a, u) + Count(b, u)
    ensures Sum(a + b, u) == Sum(a, u) + Sum(b, u)
  {
    if b == [] {
      assert a + b == a;
    } else {
      var n := |b| - 1;
      assert (a + b)[..|a + b| - 1] == a + b[..n];
      assert (a + b)[|a + b| - 1] == b[n];
      CountSumAppend(a, b[..n], u);
    }
  }

  /** With no qualifying record for u, u has count 0 and sum 0. */
  lemma {:induction false} CountSumAbsent(entries: seq<Record>, u: string)
    requires forall i :: 0 <= i < |entries| ==> !CountsFor(entries[i], u)
    ensures Count(entries, u) == 0 && Sum(entries, u) == 0.0
  {
    if entries != [] {
      CountSumAbsent(entries[..|entries| - 1], u);
    }
  }

  /** A URL named by exactly one qualifying record has count 1, and its sum,
      hence its average, is that record's response time. */
  lemma SingleSighting(entries: seq<Record>, k: nat)
    requires k < |entries| && Qualifies(entries[k])
    requires forall i :: 0 <= i < |entries| && i != k ==> !CountsFor(entries[i], Url(entries[k]))
    ensures Count(entries, Url(entries[k])) == 1
    ensures Sum(entries, Url(entries[k])) / 1 as real == ResponseTime(entries[k])
  {
    var u := Url(entries[k]);
    var before, after := entries[..k], entries[k + 1..];
    assert entries == before + [entries[k]] + after;
    forall i | 0 <= i < |before| ensures !CountsFor(before[i], u) {
      assert before[i] == entries[i];
    }
    forall i | 0 <= i < |after| ensures !CountsFor(after[i], u) {
      assert after[i] == entries[k + 1 + i];
    }
    CountSumAbsent(before, u);
    CountSumAbsent(after, u);
    CountSumAppend(before + [entries[k]], after, u);
    assert (before + [entries[k]])[..|before|] == before;
  }

  /** The first pass of `analyze_url_metrics`: for each qualifying URL, its
      bucket with the count and the sum so far. */
  function Tally(entries: seq<Record>): map<string, Bucket>
  {
    if entries == [] then map[]
    else
      var t, last := Tally(entries[..|entries| - 1]), entries[|entries| - 1];
      if Qualifies(last) then
        var b := if Url(last) in t then t[Url(last)] else Bucket(0, 0.0);
        t[Url(last) := Bucket(b.totalRequests + 1, b.sumResponseTime + ResponseTime(last))]
      else t
  }

  /** The buckets hold exactly the URLs of the first-appearance order, and
      each holds that URL's count (at least 1) and sum. */
  lemma {:induction false} TallyMeaning(entries: seq<Record>)
    ensures forall u :: u in Tally(entries) <==> u in FirstSeen(entries)
    ensures forall u :: u in Tally(entries) ==>
      Tally(entries)[u] == Bucket(Count(entries, u), Sum(entries, u)) && Count(entries, u) >= 1
    ensures forall u :: u !in Tally(entries) ==> Count(entries, u) == 0 && Sum(entries, u) == 0.0
  {
    if entries != [] {
      var prefix, last := entries[..|entries| - 1], entries[|entries| - 1];
      TallyMeaning(prefix);
      forall u
        ensures u in Tally(entries) <==> u in FirstSeen(entries)
        ensures u in Tally(entries) ==>
          Tally(entries)[u] == Bucket(Count(entries, u), Sum(entries, u)) && Count(entries, u) >= 1
        ensures u !in Tally(entries) ==> Count(entries, u) == 0 && Sum(entries, u) == 0.0
      {
        if CountsFor(last, u) {
          assert Url(last) == u;
        } else {
          assert Count(entries, u) == Count(prefix, u) && Sum(entries, u) == Sum(prefix, u);
        }
      }
    }
  }

  /** `analyze_url_metrics(log_entries)`: the keys are the URLs of the
      qualifying records in order of first appearance, each with its count
      (at least 1) and the mean of its response times. */
  method AnalyzeUrlMetrics(entries: seq<Record>) returns (metrics: Dict<Metric>)
    ensures ValidDict(metrics)
    ensures metrics.keys == FirstSeen(entries)
    ensures entries == [] ==> metrics.keys == []
    ensures forall u :: u in metrics.entries <==> u in QualifyingUrls(entries)
    ensures forall u :: u in metrics.entries ==>
      metrics.entries[u].total == Count(entries, u) >= 1
      && metrics.entries[u].avgTime == Sum(entries, u) / Count(entries, u) as real
  {
    var order: seq<string> := [];
    var urlData: map<string, Bucket> := map[];
    for i := 0 to |entries|
      invariant order == FirstSeen(entries[..i]) && urlData == Tally(entries[..i])
    {
      var entry := entries[i];
      assert entries[..i + 1][..i] == entries[..i];
      assert entries[..i + 1][i] == entry;
      TallyMeaning(entries[..i]);
      var url := Get(entry, "url");
      var responseTime := Get(entry, "response_time");
      if Truthy(url) && url.Str? && IsNumber(responseTime) {
        if url.s !in urlData {
          urlData := urlData[url.s := Bucket(0, 0.0)];
          order := order + [url.s];
        }
        var data := urlData[url.s];
        urlData := urlData[url.s := Bucket(data.totalRequests + 1, data.sumResponseTime + NumberValue(responseTime))];
      }
    }
    assert entries[..|entries|] == entries;
    TallyMeaning(entries);

    var finalMetrics: map<string, Metric> := map[];
    for j := 0 to |order|
      invariant forall u :: u in finalMetrics <==> u in order[..j]
      invariant forall u :: u in finalMetrics ==>
        finalMetrics[u] == Metric(Count(entries, u), Sum(entries, u) / Count(entries, u) as real)
    {
      var url := order[j];
      assert order[..j + 1] == order[..j] + [url];
      var data := urlData[url];
      var total, sumTime := data.totalRequests, data.sumResponseTime;
      var avgTime := if total > 0 then sumTime / total as real else 0.0;
      finalMetrics := finalMetrics[url := Metric(total, avgTime)];
    }
    assert order[..|order|] == order;
    metrics := Dict(order, finalMetrics);
    CountPositiveIffSeen(entries, "");
    forall u ensures u in metrics.entries <==> u in QualifyingUrls(entries) {
      CountPositiveIffSeen(entries, u);
    }
  }

  /** Two records for "/a" taking 100 and 150 give "/a" a count of 2 and a
      mean of 125. */
  lemma AverageExample(r1: Record, r2: Record)
    requires r1 == map["url" := Str("/a"), "response_time" := Int(100)]
    requires r2 == map["url" := Str("/a"), "response_time" := Int(150)]
    ensures Count([r1, r2], "/a") == 2
    ensures Sum([r1, r2], "/a") / Count([r1, r2], "/a") as real == 125.0
  {
    assert "url" != "response_time";
    assert r1["url"] == r2["url"] == Str("/a");
    assert r1["response_time"] == Int(100) && r2["response_time"] == Int(150);
    assert [r1, r2][..1] == [r1] && [r1][..0] == [];
    assert CountsFor(r1, "/a") && ResponseTime(r1) == 100.0;
    assert CountsFor(r2, "/a") && ResponseTime(r2) == 150.0;
    assert Sum([r1], "/a") == Sum([r1][..0], "/a") + ResponseTime([r1][0]) && [r1][0] == r1;
    assert Count([r1], "/a") == 1 && Sum([r1], "/a") == 100.0;
    assert Count([r1, r2], "/a") == 2;
    assert Sum([r1, r2], "/a") == 250.0;
  }
}
