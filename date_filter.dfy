/** `filter_log_entries_by_date`: keep the records whose timestamp falls on
    one calendar date, trying a full ISO date-time first and a plain
    `YYYY-MM-DD` prefix second. */
module DateFilter {
  import opened Json
  import opened Seqs
  import opened Digits

  /** A calendar date (`datetime.date`). */
  datatype Date = Date(year: int, month: int, day: int)

  predicate IsLeapYear(y: int)
  {
    y % 4 == 0 && (y % 100 != 0 || y % 400 == 0)
  }

  function DaysInMonth(y: int, m: int): int
    requires 1 <= m <= 12
  {
    if m == 2 then (if IsLeapYear(y) then 29 else 28)
    else if m == 4 || m == 6 || m == 9 || m == 11 then 30
    else 31
  }

  /** The dates `datetime.date` can hold (years 1 to 9999). */
  predicate ValidDate(d: Date)
  {
    1 <= d.year <= 9999 && 1 <= d.month <= 12 && 1 <= d.day <= DaysInMonth(d.year, d.month)
  }

  /** `datetime.datetime.fromisoformat(s).date()`, with `None` for the
      ValueError it raises on a string it does not accept. */
  type IsoParser = string -> Option<Date>

  /** The field the filter reads unless told otherwise. */
  const DefaultTimestampField: string := "@timestamp"

  /** `s.split(' ')[0]`: everything before the first space. */
  function BeforeFirstSpace(s: string): (r: string)
    ensures |r| <= |s| && r == s[..|r|]
    ensures forall k :: 0 <= k < |r| ==> r[k] != ' '
    ensures |r| < |s| ==> s[|r|] == ' '
  {
    if s == [] || s[0] == ' ' then [] else [s[0]] + BeforeFirstSpace(s[1..])
  }

  /** The part before the first space ends at the first space, or at the end. */
  lemma BeforeFirstSpaceAt(s: string, k: nat)
    requires k <= |s| && (k == |s| || s[k] == ' ')
    requires forall j :: 0 <= j < k ==> s[j] != ' '
    ensures BeforeFirstSpace(s) == s[..k]
  {
  }

  /** The fields of `strptime(s, '%Y-%m-%d')`: four digits of year, one or two
      digits of month and of day; the date they name must exist. */
  function YmdFields(y: string, m: string, d: string): (r: Option<Date>)
    ensures r.Some? ==> ValidDate(r.value)
  {
    if |y| == 4 && IsDigits(y) && 1 <= |m| <= 2 && IsDigits(m) && 1 <= |d| <= 2 && IsDigits(d) then
      var date := Date(DecimalValue(y), DecimalValue(m), DecimalValue(d));
      if ValidDate(date) then Some(date) else None
    else None
  }

  /** `datetime.datetime.strptime(s, '%Y-%m-%d').date()`, with `None` for its
      ValueError. The dash after the month decides whether the month has one
      digit or two; anything left after the day is an error. */
  function ParseYmd(s: string): (r: Option<Date>)
    ensures r.Some? ==> ValidDate(r.value)
  {
    if |s| < 8 || s[4] != '-' then None
    else if s[6] == '-' then YmdFields(s[..4], s[5..6], s[7..])
    else if |s| >= 9 && s[7] == '-' then YmdFields(s[..4], s[5..7], s[8..])
    else None
  }

  /** Two digits, zero-padded. */
  function Pad2(n: nat): string
    requires n < 100
  {
    [Digit(n / 10), Digit(n % 10)]
  }

  /** `date.strftime('%Y-%m-%d')` for a date with a four-digit year. */
  function FormatYmd(d: Date): (s: string)
    requires ValidDate(d)
    ensures |s| == 10
  {
    Pad2(d.year / 100) + Pad2(d.year % 100) + "-" + Pad2(d.month) + "-" + Pad2(d.day)
  }

  lemma Pad2Value(n: nat)
    requires n < 100
    ensures IsDigits(Pad2(n)) && DecimalValue(Pad2(n)) == n
  {
    var s := Pad2(n);
    assert s[..1][..0] == [];
    assert s[..1] == [Digit(n / 10)];
    assert DecimalValue(s[..1]) == n / 10;
    assert DecimalValue(s) == DecimalValue(s[..1]) * 10 + n % 10;
  }

  lemma Pad4Value(n: nat)
    requires n < 10000
    ensures IsDigits(Pad2(n / 100) + Pad2(n % 100))
    ensures DecimalValue(Pad2(n / 100) + Pad2(n % 100)) == n
  {
    var s := Pad2(n / 100) + Pad2(n % 100);
    Pad2Value(n / 100);
    assert s[..3][..2] == Pad2(n / 100);
    assert s[..3] == Pad2(n / 100) + [Digit(n % 100 / 10)];
    assert s[..|s| - 1] == s[..3];
  }

  /** Parsing what `FormatYmd` prints gives the date back: the plain-date
      parser accepts every date written as `YYYY-MM-DD`. */
  lemma ParseFormatRoundTrip(d: Date)
    requires ValidDate(d)
    ensures ParseYmd(FormatYmd(d)) == Some(d)
  {
    var s := FormatYmd(d);
    Pad4Value(d.year);
    Pad2Value(d.month);
    Pad2Value(d.day);
    assert s[..4] == Pad2(d.year / 100) + Pad2(d.year % 100);
    assert s[5..7] == Pad2(d.month);
    assert s[8..] == Pad2(d.day);
  }

  /** The date of a timestamp value, or `None` when the record is dropped:
      the value is falsy (`if timestamp_str` fails), is not a string (the
      TypeError is swallowed by the outer `except Exception`), or neither parser
      accepts it. */
  function TimestampDate(v: Value, iso: IsoParser): Option<Date>
  {
    if !Truthy(v) || !v.Str? then None
    else match iso(v.s)
      case Some(d) => Some(d)
      case None => ParseYmd(BeforeFirstSpace(v.s))
  }

  /** Whether the filter keeps a record. */
  predicate Keeps(e: Record, field: string, target: Date, iso: IsoParser)
  {
    TimestampDate(Get(e, field), iso) == Some(target)
  }

  function KeepOf(field: string, target: Date, iso: IsoParser): Record -> seq<Record>
  {
    e => if Keeps(e, field, target, iso) then [e] else []
  }

  /** The records kept for `target`, in input order. */
  function Matching(entries: seq<Record>, field: string, target: Date, iso: IsoParser): seq<Record>
  {
    ConcatMap(KeepOf(field, target, iso), entries)
  }

  /** a is b with some elements left out, the rest in the same order. */
  predicate IsSubsequence<T(==)>(a: seq<T>, b: seq<T>)
  {
    a == [] || (b != [] && ((a[0] == b[0] && IsSubsequence(a[1..], b[1..])) || IsSubsequence(a, b[1..])))
  }

  /** The kept records are an order-preserving subsequence of the input. */
  lemma {:induction false} MatchingIsSubsequence(entries: seq<Record>, field: string, target: Date, iso: IsoParser)
    ensures IsSubsequence(Matching(entries, field, target, iso), entries)
  {
    if entries != [] {
      var m, rest := Matching(entries, field, target, iso), Matching(entries[1..], field, target, iso);
      MatchingIsSubsequence(entries[1..], field, target, iso);
      if Keeps(entries[0], field, target, iso) {
        assert m == [entries[0]] + rest;
        assert m[1..] == rest;
      } else {
        assert m == rest;
      }
    }
  }

  /** Every record the filter keeps is kept as often as it occurs in the
      input, and every other record not at all. */
  lemma {:induction false} MatchingExactly(entries: seq<Record>, field: string, target: Date, iso: IsoParser, e: Record)
    ensures multiset(Matching(entries, field, target, iso))[e]
         == if Keeps(e, field, target, iso) then multiset(entries)[e] else 0
  {
    if entries != [] {
      MatchingExactly(entries[1..], field, target, iso, e);
      assert entries == [entries[0]] + entries[1..];
      assert Matching(entries, field, target, iso)
          == KeepOf(field, target, iso)(entries[0]) + Matching(entries[1..], field, target, iso);
    }
  }

  /** `filter_log_entries_by_date(entries, date, field)`: without a date the
      input comes back unchanged, with one exactly the matching records do. */
  method FilterByDate(entries: seq<Record>, date: Option<Date>, iso: IsoParser,
                      field: string := DefaultTimestampField)
    returns (kept: seq<Record>)
    ensures date.None? ==> kept == entries
    ensures date.Some? ==> kept == Matching(entries, field, date.value, iso)
  {
    if date.None? {
      return entries;
    }
    var target := date.value;
    kept := [];
    for i := 0 to |entries|
      invariant kept == Matching(entries[..i], field, target, iso)
    {
      var entry := entries[i];
      assert entries[..i + 1] == entries[..i] + [entry];
      ConcatMapSnoc(KeepOf(field, target, iso), entries[..i], entry);
      var timestamp := Get(entry, field);
      if Truthy(timestamp) && timestamp.Str? {
        var logDate: Option<Date>;
        match iso(timestamp.s) {
          case Some(d) =>
            logDate := Some(d);
          case None =>
            logDate := ParseYmd(BeforeFirstSpace(timestamp.s));
        }
        if logDate == Some(target) {
          kept := kept + [entry];
        }
      }
    }
    assert entries[..|entries|] == entries;
  }

  /** The plain-date fallback reads "2023-01-01" as 1 January 2023, also as
      the part of "2023-01-01 10:00:00" before the space. */
  lemma PlainDateExample(stamp: string)
    requires stamp == "2023-01-01 10:00:00"
    ensures BeforeFirstSpace(stamp) == "2023-01-01"
    ensures ParseYmd("2023-01-01") == Some(Date(2023, 1, 1))
  {
    ParseFormatRoundTrip(Date(2023, 1, 1));
    assert FormatYmd(Date(2023, 1, 1)) == "2023-01-01";
    BeforeFirstSpaceAt(stamp, 10);
  }

  /** It rejects text that is not a date, and a day the month does not have. */
  lemma PlainDateRejections()
    ensures ParseYmd("invalid-date-format") == None
    ensures ParseYmd("2023-02-29") == None
  {
    var s := "2023-02-29";
    Pad4Value(2023);
    Pad2Value(2);
    Pad2Value(29);
    assert s[..4] == Pad2(20) + Pad2(23);
    assert s[5..7] == Pad2(2);
    assert s[8..] == Pad2(29);
  }

  /** Filtering records stamped "2023-01-01T10:00:00Z" and
      "2023-01-02T11:00:00Z" for 1 January 2023 keeps exactly the first, when
      the ISO parser reads the stamps as those two dates. */
  lemma FilterExample(iso: IsoParser, r1: Record, r2: Record)
    requires r1 == map[DefaultTimestampField := Str("2023-01-01T10:00:00Z"), "data" := Str("entry1")]
    requires r2 == map[DefaultTimestampField := Str("2023-01-02T11:00:00Z"), "data" := Str("entry2")]
    requires iso(r1[DefaultTimestampField].s) == Some(Date(2023, 1, 1))
    requires iso(r2[DefaultTimestampField].s) == Some(Date(2023, 1, 2))
    ensures Matching([r1, r2], DefaultTimestampField, Date(2023, 1, 1), iso) == [r1]
  {
    var field, d1 := DefaultTimestampField, Date(2023, 1, 1);
    var keep := KeepOf(field, d1, iso);
    assert keep(r1) == [r1] && keep(r2) == [];
    assert [r1, r2][1..] == [r2] && [r2][1..] == [];
    assert Matching([r1, r2], field, d1, iso) == keep(r1) + ConcatMap(keep, [r2]);
  }
}
