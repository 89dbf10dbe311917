/** `parse_log_files`: read JSON Lines files in order and collect every
    decodable record, skipping (with a warning) paths that are missing, are not
    regular files or cannot be read, and lines that are not valid JSON. */
module LogParser {
  import opened Json
  import opened Seqs

  /** What the file system holds at one path. */
  datatype FileState =
    | Missing                                        // os.path.exists is false
    | NotFile                                        // exists, but os.path.isfile is false
    | OpenFails                                      // open() raises IOError
    | Readable(lines: seq<string>, readFails: bool)  // the lines read; readFails: IOError after them

  /** Paths the map does not hold do not exist. */
  type FileSystem = map<string, FileState>

  /** The warnings written to the error stream, tagged instead of worded. */
  datatype Warning =
    | FileNotFound(path: string)
    | NotAFile(path: string)
    | ReadFailed(path: string)
    | MalformedLine(path: string, line: string)

  /** `json.loads` on one stripped line: `None` is a JSONDecodeError. */
  type Decoder = string -> Option<Record>

  function StateOf(fs: FileSystem, path: string): FileState
  {
    if path in fs then fs[path] else Missing
  }

  /** The characters `str.strip()` removes (those for which `str.isspace()` holds). */
  predicate IsSpace(c: char)
  {
    c in {' ', '\t', '\n', '\r', '\U{000B}', '\U{000C}', '\U{001C}', '\U{001D}', '\U{001E}',
          '\U{001F}', '\U{0085}', '\U{00A0}', '\U{1680}', '\U{2028}', '\U{2029}', '\U{202F}',
          '\U{205F}', '\U{3000}'}
    || '\U{2000}' <= c <= '\U{200A}'
  }

  /** The number of leading whitespace characters of s. */
  function LeadingSpace(s: string): (n: nat)
    ensures n <= |s|
  {
    if s == [] || !IsSpace(s[0]) then 0 else 1 + LeadingSpace(s[1..])
  }

  /** The number of trailing whitespace characters of s. */
  function TrailingSpace(s: string): (n: nat)
    ensures n <= |s|
  {
    if s == [] || !IsSpace(s[|s| - 1]) then 0 else 1 + TrailingSpace(s[..|s| - 1])
  }

  /** `LeadingSpace` counts the whitespace run at the front of s, no more and no less. */
  lemma {:induction false} LeadingSpaceShape(s: string)
    ensures forall k :: 0 <= k < LeadingSpace(s) ==> IsSpace(s[k])
    ensures LeadingSpace(s) < |s| ==> !IsSpace(s[LeadingSpace(s)])
  {
    if s != [] && IsSpace(s[0]) {
      LeadingSpaceShape(s[1..]);
    }
  }

  /** `TrailingSpace` counts the whitespace run at the back of s, no more and no less. */
  lemma {:induction false} TrailingSpaceShape(s: string)
    ensures forall k :: |s| - TrailingSpace(s) <= k < |s| ==> IsSpace(s[k])
    ensures TrailingSpace(s) < |s| ==> !IsSpace(s[|s| - 1 - TrailingSpace(s)])
  {
    if s != [] && IsSpace(s[|s| - 1]) {
      TrailingSpaceShape(s[..|s| - 1]);
    }
  }

  /** `str.strip()`. */
  function Strip(s: string): string
  {
    var rest := s[LeadingSpace(s)..];
    rest[..|rest| - TrailingSpace(rest)]
  }

  /** A stripped line is a slice of the line with whitespace only around it,
      and it is empty exactly when the line is all whitespace. */
  lemma StripShape(s: string)
    ensures var t, i := Strip(s), LeadingSpace(s);
      && i + |t| <= |s| && s[i..i + |t|] == t
      && (forall k :: 0 <= k < i || i + |t| <= k < |s| ==> IsSpace(s[k]))
      && (t != [] ==> !IsSpace(t[0]) && !IsSpace(t[|t| - 1]))
    ensures Strip(s) == [] <==> forall k :: 0 <= k < |s| ==> IsSpace(s[k])
  {
    var i := LeadingSpace(s);
    var rest := s[i..];
    var j := TrailingSpace(rest);
    LeadingSpaceShape(s);
    TrailingSpaceShape(rest);
    assert forall k :: i + |rest| - j <= k < |s| ==> s[k] == rest[k - i];
  }

  /** The records one line contributes: none when blank or malformed. */
  function LineRecords(line: string, decode: Decoder): seq<Record>
  {
    var t := Strip(line);
    if t == "" then []
    else match decode(t)
      case Some(r) => [r]
      case None => []
  }

  /** The warnings one line of `path` causes: one when it is malformed. */
  function LineWarnings(path: string, line: string, decode: Decoder): seq<Warning>
  {
    var t := Strip(line);
    if t != "" && decode(t).None? then [MalformedLine(path, t)] else []
  }

  /** The records of a sequence of lines, in line order. */
  function LinesRecords(lines: seq<string>, decode: Decoder): seq<Record>
  {
    ConcatMap(LineRecordsOf(decode), lines)
  }

  function LineRecordsOf(decode: Decoder): string -> seq<Record>
  {
    line => LineRecords(line, decode)
  }

  /** The warnings of a sequence of lines of `path`, in line order. */
  function LinesWarnings(path: string, lines: seq<string>, decode: Decoder): seq<Warning>
  {
    ConcatMap(LineWarningsOf(path, decode), lines)
  }

  function LineWarningsOf(path: string, decode: Decoder): string -> seq<Warning>
  {
    line => LineWarnings(path, line, decode)
  }

  /** The records one path contributes. */
  function FileRecords(fs: FileSystem, path: string, decode: Decoder): seq<Record>
  {
    match StateOf(fs, path)
    case Readable(lines, _) => LinesRecords(lines, decode)
    case _ => []
  }

  /** The warnings one path causes: one for a path that is skipped, the
      malformed-line warnings of a readable file, and one more if reading it
      fails part way. */
  function FileWarnings(fs: FileSystem, path: string, decode: Decoder): seq<Warning>
  {
    match StateOf(fs, path)
    case Missing => [FileNotFound(path)]
    case NotFile => [NotAFile(path)]
    case OpenFails => [ReadFailed(path)]
    case Readable(lines, readFails) =>
      LinesWarnings(path, lines, decode) + (if readFails then [ReadFailed(path)] else [])
  }

  function FileRecordsOf(fs: FileSystem, decode: Decoder): string -> seq<Record>
  {
    path => FileRecords(fs, path, decode)
  }

  function FileWarningsOf(fs: FileSystem, decode: Decoder): string -> seq<Warning>
  {
    path => FileWarnings(fs, path, decode)
  }

  /** The records of all paths: file by file in path order, line by line within a file. */
  function ParsedRecords(fs: FileSystem, paths: seq<string>, decode: Decoder): seq<Record>
  {
    ConcatMap(FileRecordsOf(fs, decode), paths)
  }

  /** The warnings of all paths, in the order they are written. */
  function ParseWarnings(fs: FileSystem, paths: seq<string>, decode: Decoder): seq<Warning>
  {
    ConcatMap(FileWarningsOf(fs, decode), paths)
  }

  /** Parsing two path lists one after the other gives the records and the
      warnings of the first list followed by those of the second. */
  lemma ParseAppend(fs: FileSystem, p: seq<string>, q: seq<string>, decode: Decoder)
    ensures ParsedRecords(fs, p + q, decode) == ParsedRecords(fs, p, decode) + ParsedRecords(fs, q, decode)
    ensures ParseWarnings(fs, p + q, decode) == ParseWarnings(fs, p, decode) + ParseWarnings(fs, q, decode)
  {
    ConcatMapAppend(FileRecordsOf(fs, decode), p, q);
    ConcatMapAppend(FileWarningsOf(fs, decode), p, q);
  }

  /** A path that is missing, is not a regular file, or cannot be opened adds
      no record and exactly one warning naming it, and the paths after it are
      processed as if it were not there. */
  lemma SkippedPath(fs: FileSystem, before: seq<string>, path: string, after: seq<string>, decode: Decoder)
    requires StateOf(fs, path).Missing? || StateOf(fs, path).NotFile? || StateOf(fs, path).OpenFails?
    ensures ParsedRecords(fs, before + [path] + after, decode)
         == ParsedRecords(fs, before, decode) + ParsedRecords(fs, after, decode)
    ensures ParseWarnings(fs, before + [path] + after, decode)
         == ParseWarnings(fs, before, decode) + FileWarnings(fs, path, decode) + ParseWarnings(fs, after, decode)
    ensures |FileWarnings(fs, path, decode)| == 1 && FileWarnings(fs, path, decode)[0].path == path
  {
    ConcatMapSplit(FileRecordsOf(fs, decode), before, path, after);
    ConcatMapSplit(FileWarningsOf(fs, decode), before, path, after);
  }

  /** The records and warnings of a line in context are those before it,
      its own, and those after it. */
  lemma LineInContext(path: string, before: seq<string>, line: string, after: seq<string>, decode: Decoder)
    ensures LinesRecords(before + [line] + after, decode)
         == LinesRecords(before, decode) + LineRecords(line, decode) + LinesRecords(after, decode)
    ensures LinesWarnings(path, before + [line] + after, decode)
         == LinesWarnings(path, before, decode) + LineWarnings(path, line, decode) + LinesWarnings(path, after, decode)
  {
    ConcatMapSplit(LineRecordsOf(decode), before, line, after);
    ConcatMapSplit(LineWarningsOf(path, decode), before, line, after);
  }

  /** A malformed line adds no record, adds one warning carrying the path and
      the stripped line, and the lines after it are still processed. */
  lemma MalformedLineSkipped(path: string, before: seq<string>, line: string, after: seq<string>, decode: Decoder)
    requires Strip(line) != "" && decode(Strip(line)).None?
    ensures LinesRecords(before + [line] + after, decode)
         == LinesRecords(before, decode) + LinesRecords(after, decode)
    ensures LinesWarnings(path, before + [line] + after, decode)
         == LinesWarnings(path, before, decode) + [MalformedLine(path, Strip(line))] + LinesWarnings(path, after, decode)
  {
    LineInContext(path, before, line, after, decode);
  }

  /** A line that decodes to r adds exactly r, in its place, and no warning. */
  lemma DecodedLineKept(path: string, before: seq<string>, line: string, after: seq<string>, decode: Decoder, r: Record)
    requires Strip(line) != "" && decode(Strip(line)) == Some(r)
    ensures LinesRecords(before + [line] + after, decode)
         == LinesRecords(before, decode) + [r] + LinesRecords(after, decode)
    ensures LinesWarnings(path, before + [line] + after, decode)
         == LinesWarnings(path, before, decode) + LinesWarnings(path, after, decode)
  {
    LineInContext(path, before, line, after, decode);
  }

  /** A blank line adds neither a record nor a warning. */
  lemma BlankLineSkipped(path: string, before: seq<string>, line: string, after: seq<string>, decode: Decoder)
    requires forall k :: 0 <= k < |line| ==> IsSpace(line[k])
    ensures LinesRecords(before + [line] + after, decode)
         == LinesRecords(before, decode) + LinesRecords(after, decode)
    ensures LinesWarnings(path, before + [line] + after, decode)
         == LinesWarnings(path, before, decode) + LinesWarnings(path, after, decode)
  {
    StripShape(line);
    LineInContext(path, before, line, after, decode);
  }

  /** The number of records of a file is the number of its non-blank lines
      that decode. */
  function DecodableCount(lines: seq<string>, decode: Decoder): nat
  {
    if lines == [] then 0
    else (if Strip(lines[0]) != "" && decode(Strip(lines[0])).Some? then 1 else 0)
         + DecodableCount(lines[1..], decode)
  }

  lemma {:induction false} LinesRecordsCount(lines: seq<string>, decode: Decoder)
    ensures |LinesRecords(lines, decode)| == DecodableCount(lines, decode)
  {
    if lines != [] {
      LinesRecordsCount(lines[1..], decode);
      assert LinesRecords(lines, decode) == LineRecords(lines[0], decode) + LinesRecords(lines[1..], decode);
    }
  }

  /** The number of non-blank lines that decode, over all readable files of
      the path list (a skipped path has none). */
  function TotalDecodable(fs: FileSystem, paths: seq<string>, decode: Decoder): nat
  {
    if paths == [] then 0
    else
      var here := match StateOf(fs, paths[0])
        case Readable(lines, _) => DecodableCount(lines, decode)
        case _ => 0;
      here + TotalDecodable(fs, paths[1..], decode)
  }

  /** The parsed output holds one record per non-blank decodable line, summed
      over the files. */
  lemma {:induction false} ParsedRecordsCount(fs: FileSystem, paths: seq<string>, decode: Decoder)
    ensures |ParsedRecords(fs, paths, decode)| == TotalDecodable(fs, paths, decode)
  {
    if paths != [] {
      ParsedRecordsCount(fs, paths[1..], decode);
      assert ParsedRecords(fs, paths, decode)
          == FileRecords(fs, paths[0], decode) + ParsedRecords(fs, paths[1..], decode);
      if StateOf(fs, paths[0]).Readable? {
        LinesRecordsCount(StateOf(fs, paths[0]).lines, decode);
      }
    }
  }

  /** The `for line in f` loop of `parse_log_files` over one opened file:
      the records and the warnings its lines give, in line order. */
  method ReadLines(path: string, lines: seq<string>, decode: Decoder)
    returns (records: seq<Record>, warnings: seq<Warning>)
    ensures records == LinesRecords(lines, decode)
    ensures warnings == LinesWarnings(path, lines, decode)
  {
    records, warnings := [], [];
    for j := 0 to |lines|
      invariant records == LinesRecords(lines[..j], decode)
      invariant warnings == LinesWarnings(path, lines[..j], decode)
    {
      assert lines[..j + 1] == lines[..j] + [lines[j]];
      ConcatMapSnoc(LineRecordsOf(decode), lines[..j], lines[j]);
      ConcatMapSnoc(LineWarningsOf(path, decode), lines[..j], lines[j]);
      var line := Strip(lines[j]);
      if line != "" {
        match decode(line)
        case Some(entry) =>
          records := records + [entry];
        case None =>
          warnings := warnings + [MalformedLine(path, line)];
      }
    }
    assert lines[..|lines|] == lines;
  }

  /** `parse_log_files(filepaths)` over the file system `fs`. */
  method ParseLogFiles(fs: FileSystem, paths: seq<string>, decode: Decoder)
    returns (records: seq<Record>, warnings: seq<Warning>)
    ensures records == ParsedRecords(fs, paths, decode)
    ensures warnings == ParseWarnings(fs, paths, decode)
    ensures paths == [] ==> records == [] && warnings == []
  {
    records, warnings := [], [];
    for i := 0 to |paths|
      invariant records == ParsedRecords(fs, paths[..i], decode)
      invariant warnings == ParseWarnings(fs, paths[..i], decode)
    {
      var path := paths[i];
      assert paths[..i + 1] == paths[..i] + [path];
      ConcatMapSnoc(FileRecordsOf(fs, decode), paths[..i], path);
      ConcatMapSnoc(FileWarningsOf(fs, decode), paths[..i], path);
      match StateOf(fs, path)
      case Missing =>
        warnings := warnings + [FileNotFound(path)];
      case NotFile =>
        warnings := warnings + [NotAFile(path)];
      case OpenFails =>
        warnings := warnings + [ReadFailed(path)];
      case Readable(lines, readFails) =>
        var fileRecords, fileWarnings := ReadLines(path, lines, decode);
        records := records + fileRecords;
        warnings := warnings + fileWarnings;
        if readFails {
          warnings := warnings + [ReadFailed(path)];
        }
    }
    assert paths[..|paths|] == paths;
  }
}
