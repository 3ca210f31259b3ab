/**
 * The report log (lib/Logger.js): a row is its fields joined by a delimiter,
 * written to the log file stream followed by a newline, and returned.
 */
module Logger {
  import opened Optional

  const DELIMITER: string := "\t"
  const LOG_FILE: string := "http.log"
  const VERBOSE: bool := false

  /** The options object a caller may pass; every entry may be left out. */
  datatype LoggerOptions = LoggerOptions(delimiter: Option<string>, logFile: Option<string>, verbose: Option<bool>)

  /** The options after defaulting. */
  datatype Settings = Settings(delimiter: string, logFile: string, verbose: bool)

  /** `given || fallback` for a string option: an absent or empty string falls back. */
  function OrDefault(given: Option<string>, fallback: string): (s: string)
    requires fallback != ""
    ensures s != ""
    ensures given.Some? && given.value != "" ==> s == given.value
    ensures s != fallback ==> given == Some(s)
  {
    if given.Some? && given.value != "" then given.value else fallback
  }

  /** Defaulting of the constructor's options. */
  function Resolve(options: LoggerOptions): (r: Settings)
    ensures r.delimiter != "" && r.logFile != ""
    ensures options.delimiter == None || options.delimiter == Some("") ==> r.delimiter == DELIMITER
    ensures options.logFile == None || options.logFile == Some("") ==> r.logFile == LOG_FILE
    ensures r.verbose <==> options.verbose == Some(true)
  {
    Settings(OrDefault(options.delimiter, DELIMITER), OrDefault(options.logFile, LOG_FILE),
             options.verbose == Some(true))
  }

  /** Total length of the fields. */
  function TotalLength(fields: seq<string>): nat
    decreases |fields|
  {
    if fields == [] then 0 else |fields[0]| + TotalLength(fields[1..])
  }

  /** `fields.join(delimiter)`: the fields in order, one delimiter between neighbours. */
  function Join(fields: seq<string>, delimiter: string): (row: string)
    ensures fields == [] ==> row == ""
    ensures |fields| >= 1 ==> |row| >= |fields[0]| && row[..|fields[0]|] == fields[0]
    decreases |fields|
  {
    if |fields| == 0 then ""
    else if |fields| == 1 then fields[0]
    else fields[0] + delimiter + Join(fields[1..], delimiter)
  }

  /** Number of occurrences of `c` in `s`. */
  function Occurrences(s: string, c: char): nat
    decreases |s|
  {
    if s == [] then 0 else (if s[0] == c then 1 else 0) + Occurrences(s[1..], c)
  }

  /** `row.split(c)`: the pieces between occurrences of `c`; there is always at least one. */
  function Split(row: string, c: char): (pieces: seq<string>)
    ensures |pieces| == Occurrences(row, c) + 1
    decreases |row|
  {
    if row == [] then [""]
    else
      var rest := Split(row[1..], c);
      if row[0] == c then [""] + rest else [[row[0]] + rest[0]] + rest[1..]
  }

  /** A row of `n >= 1` fields is as long as the fields plus `n - 1` delimiters. */
  lemma {:induction false} JoinLength(fields: seq<string>, delimiter: string)
    requires |fields| >= 1
    ensures |Join(fields, delimiter)| == TotalLength(fields) + (|fields| - 1) * |delimiter|
    decreases |fields|
  {
    if |fields| > 1 {
      JoinLength(fields[1..], delimiter);
    } else {
      assert fields[1..] == [];
    }
  }

  lemma {:induction false} OccurrencesAppend(a: string, b: string, c: char)
    ensures Occurrences(a + b, c) == Occurrences(a, c) + Occurrences(b, c)
    decreases |a|
  {
    if a != [] {
      assert (a + b)[1..] == a[1..] + b;
      OccurrencesAppend(a[1..], b, c);
    } else {
      assert a + b == b;
    }
  }

  lemma {:induction false} NoOccurrences(s: string, c: char)
    requires c !in s
    ensures Occurrences(s, c) == 0
    decreases |s|
  {
    if s != [] {
      NoOccurrences(s[1..], c);
    }
  }

  /** When no field contains the one-character delimiter, the row holds exactly `n - 1` of them. */
  lemma {:induction false} JoinDelimiterCount(fields: seq<string>, c: char)
    requires |fields| >= 1
    requires forall k :: 0 <= k < |fields| ==> c !in fields[k]
    ensures Occurrences(Join(fields, [c]), c) == |fields| - 1
    decreases |fields|
  {
    NoOccurrences(fields[0], c);
    if |fields| > 1 {
      JoinDelimiterCount(fields[1..], c);
      OccurrencesAppend(fields[0], [c], c);
      OccurrencesAppend(fields[0] + [c], Join(fields[1..], [c]), c);
      assert Occurrences([c], c) == 1 by { assert [c][1..] == []; }
    }
  }

  lemma {:induction false} SplitField(f: string, c: char)
    requires c !in f
    ensures Split(f, c) == [f]
    decreases |f|
  {
    if f != [] {
      SplitField(f[1..], c);
      assert [f[0]] + f[1..] == f;
    }
  }

  lemma {:induction false} SplitAfterField(f: string, rest: string, c: char)
    requires c !in f
    ensures Split(f + [c] + rest, c) == [f] + Split(rest, c)
    decreases |f|
  {
    if f == [] {
      assert (f + [c] + rest)[1..] == rest;
    } else {
      assert (f + [c] + rest)[1..] == f[1..] + [c] + rest;
      SplitAfterField(f[1..], rest, c);
      assert [f[0]] + f[1..] == f;
    }
  }

  /** Splitting a row on a one-character delimiter that no field contains gives back the fields. */
  lemma {:induction false} SplitJoin(fields: seq<string>, c: char)
    requires |fields| >= 1
    requires forall k :: 0 <= k < |fields| ==> c !in fields[k]
    ensures Split(Join(fields, [c]), c) == fields
    decreases |fields|
  {
    if |fields| == 1 {
      SplitField(fields[0], c);
    } else {
      SplitJoin(fields[1..], c);
      SplitAfterField(fields[0], Join(fields[1..], [c]), c);
      assert [fields[0]] + fields[1..] == fields;
    }
  }

  /** A logger writing to its log file's stream. */
  class Logger {
    const delimiter: string
    const logFile: string
    const verbose: bool
    /** Chunks written to the stream so far, in order; the file is opened truncated. */
    var stream: seq<string>

    constructor (options: LoggerOptions)
      ensures Settings(delimiter, logFile, verbose) == Resolve(options)
      ensures delimiter != "" && stream == []
    {
      var settings := Resolve(options);
      delimiter := settings.delimiter;
      logFile := settings.logFile;
      verbose := settings.verbose;
      stream := [];
    }

    /** `log(...fields)`: writes one line holding the joined fields and returns that row. */
    method Log(fields: seq<string>) returns (row: string)
      modifies this
      ensures row == Join(fields, delimiter)
      ensures stream == old(stream) + [row + "\n"]
      ensures stream[|stream| - 1][..|row|] == row && stream[|stream| - 1][|row|..] == "\n"
    {
      row := Join(fields, delimiter);
      stream := stream + [row + "\n"];
    }
  }
}
