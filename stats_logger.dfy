/**
  The statistics logger: named columns, each with a callback giving its
  current value, written as ';'-separated lines to a text file, and the
  archiving of that file under a time-stamped name.  The file system is an
  object mapping each path to its content; the clock is a parameter.
 */
module StatsLogger {
  import opened Numeric

  /** The field separator of the log. */
  const SEPARATOR: char := ';'

  /** The terminator `std::endl` writes. */
  const NEWLINE: char := '\n'

  // ---------------------------------------------------------------------
  // Lines: joining fields with the separator, and splitting them back.
  // ---------------------------------------------------------------------

  /** The fields joined by the separator, first to last. */
  function Join(fields: seq<string>): (line: string)
    requires |fields| >= 1
    ensures fields[0] <= line
  {
    if |fields| == 1 then fields[0]
    else Join(fields[..|fields| - 1]) + [SEPARATOR] + fields[|fields| - 1]
  }

  /** The index of the last `c` in `s`, or -1 when there is none. */
  function LastIndexOf(s: string, c: char): (i: int)
    ensures -1 <= i < |s|
    ensures i >= 0 ==> s[i] == c && forall j :: i < j < |s| ==> s[j] != c
    ensures i < 0 <==> c !in s
  {
    if |s| == 0 then -1
    else if s[|s| - 1] == c then |s| - 1
    else
      var i := LastIndexOf(s[..|s| - 1], c);
      assert forall j :: 0 <= j < |s| - 1 ==> s[..|s| - 1][j] == s[j];
      i
  }

  /** A line cut at every separator. */
  function Split(s: string): (fields: seq<string>)
    ensures |fields| >= 1
    decreases |s|
  {
    var i := LastIndexOf(s, SEPARATOR);
    if i < 0 then [s] else Split(s[..i]) + [s[i + 1..]]
  }

  predicate NoSeparator(fields: seq<string>) {
    forall k :: 0 <= k < |fields| ==> SEPARATOR !in fields[k]
  }

  /** The last separator of `a + [c] + b` is the one after `a` when `b`
      has none. */
  lemma LastIndexAfterPrefix(a: string, c: char, b: string)
    requires c !in b
    ensures LastIndexOf(a + [c] + b, c) == |a|
  {
    var s := a + [c] + b;
    var i := LastIndexOf(s, c);
    assert s[|a|] == c;
  }

  /** Splitting a joined line gives the fields back when no field holds the
      separator: one field per column. */
  lemma {:induction false} SplitJoin(fields: seq<string>)
    requires |fields| >= 1 && NoSeparator(fields)
    ensures Split(Join(fields)) == fields
  {
    if |fields| > 1 {
      var init := fields[..|fields| - 1];
      var last := fields[|fields| - 1];
      var a := Join(init);
      SplitJoin(init);
      LastIndexAfterPrefix(a, SEPARATOR, last);
      var s := a + [SEPARATOR] + last;
      assert s[..|a|] == a;
      assert s[|a| + 1..] == last;
      assert init + [last] == fields;
    }
  }

  /** Joining the pieces of any line gives the line back. */
  lemma {:induction false} JoinSplit(s: string)
    ensures Join(Split(s)) == s
    decreases |s|
  {
    var i := LastIndexOf(s, SEPARATOR);
    if i >= 0 {
      JoinSplit(s[..i]);
      var fields := Split(s);
      assert fields[..|fields| - 1] == Split(s[..i]);
      assert s == s[..i] + [SEPARATOR] + s[i + 1..];
    }
  }

  // ---------------------------------------------------------------------
  // Columns and the lines they produce.
  // ---------------------------------------------------------------------

  /** A column: its title and the callback that gives its current value. */
  datatype Column = Column(name: string, callback: () -> string)

  function Names(columns: seq<Column>): (names: seq<string>)
    ensures |names| == |columns|
    ensures forall k :: 0 <= k < |columns| ==> names[k] == columns[k].name
  {
    seq(|columns|, k requires 0 <= k < |columns| => columns[k].name)
  }

  function Values(columns: seq<Column>): (values: seq<string>)
    ensures |values| == |columns|
    ensures forall k :: 0 <= k < |columns| ==> values[k] == columns[k].callback()
  {
    seq(|columns|, k requires 0 <= k < |columns| => columns[k].callback())
  }

  /** A line of the log: the fields, separated, then the newline. */
  function Line(fields: seq<string>): (line: string)
    requires |fields| >= 1
    ensures fields[0] <= line
    ensures |line| >= 1 && line[|line| - 1] == NEWLINE
  {
    Join(fields) + [NEWLINE]
  }

  /** Each line ends with exactly one newline, and what precedes it splits
      into the fields it was made of. */
  lemma LineFields(fields: seq<string>)
    requires |fields| >= 1 && NoSeparator(fields)
    ensures |Line(fields)| >= 1 && Line(fields)[|Line(fields)| - 1] == NEWLINE
    ensures Split(Line(fields)[..|Line(fields)| - 1]) == fields
  {
    assert Line(fields)[..|Line(fields)| - 1] == Join(fields);
    SplitJoin(fields);
  }

  // ---------------------------------------------------------------------
  // The file system.
  // ---------------------------------------------------------------------

  /** Opening for writing: the file now holds exactly `text`. */
  function WriteFile(files: map<string, string>, path: string, text: string): map<string, string> {
    files[path := text]
  }

  /** Opening for appending: `text` goes after the old content, a missing
      file being created empty first. */
  function AppendFile(files: map<string, string>, path: string, text: string): map<string, string> {
    files[path := (if path in files then files[path] else "") + text]
  }

  /** POSIX `rename`: the content moves to `to`, replacing what was there;
      a missing `from` leaves everything as it is. */
  function RenameFile(files: map<string, string>, from: string, to: string): map<string, string> {
    if from !in files then files
    else if from == to then files
    else (files - {from})[to := files[from]]
  }

  /** Appending to a file just written is writing the concatenation. */
  lemma AppendAfterWrite(files: map<string, string>, path: string, a: string, b: string)
    ensures AppendFile(WriteFile(files, path, a), path, b) == WriteFile(files, path, a + b)
  {
  }

  /** Renaming keeps the content, under the new name only, and touches no
      other file. */
  lemma RenameMovesContent(files: map<string, string>, from: string, to: string)
    requires from in files && from != to
    ensures to in RenameFile(files, from, to) && RenameFile(files, from, to)[to] == files[from]
    ensures from !in RenameFile(files, from, to)
    ensures forall p :: p != from && p != to ==>
      (p in files <==> p in RenameFile(files, from, to))
      && (p in files ==> RenameFile(files, from, to)[p] == files[p])
  {
  }

  class FileSystem {
    var files: map<string, string>

    constructor (files: map<string, string>)
      ensures this.files == files
    {
      this.files := files;
    }

    method Write(path: string, text: string)
      modifies this
      ensures files == WriteFile(old(files), path, text)
    {
      files := files[path := text];
    }

    method Append(path: string, text: string)
      modifies this
      ensures files == AppendFile(old(files), path, text)
    {
      var before := if path in files then files[path] else "";
      files := files[path := before + text];
    }

    method Rename(from: string, to: string)
      modifies this
      ensures files == RenameFile(old(files), from, to)
    {
      if from in files && from != to {
        var content := files[from];
        files := (files - {from})[to := content];
      }
    }
  }

  // ---------------------------------------------------------------------
  // The archive name.
  // ---------------------------------------------------------------------

  /** `std::string::npos`, the largest `size_t`. */
  const NPOS: nat := 0xFFFF_FFFF_FFFF_FFFF

  /** Arithmetic on `size_t` wraps around modulo 2^64. */
  function SizeT(x: int): (r: nat)
    ensures r <= NPOS
    ensures (r - x) % (NPOS + 1) == 0
  {
    x % (NPOS + 1)
  }

  /** `find_last_of` with a one-character set: an index, or `npos`. */
  function FindLastOf(s: string, c: char): (r: nat)
    requires |s| < NPOS
    ensures r == NPOS <==> c !in s
    ensures r != NPOS ==> r < |s| && s[r] == c && forall j :: r < j < |s| ==> s[j] != c
  {
    var i := LastIndexOf(s, c);
    if i < 0 then NPOS else i
  }

  /** `substr(0, count)`: at most `count` characters from the start. */
  function Prefix(s: string, count: nat): (r: string)
    ensures |r| == if count < |s| then count else |s|
    ensures r <= s
  {
    if count < |s| then s[..count] else s
  }

  /** A local time as `localtime` gives it. */
  datatype DateTime = DateTime(year: nat, month: nat, day: nat, hour: nat, minute: nat)

  predicate ValidDateTime(t: DateTime) {
    1 <= t.month <= 12 && 1 <= t.day <= 31 && t.hour < 24 && t.minute < 60
  }

  /** The size of the buffer `strftime` writes into. */
  const STAMP_BUFFER: nat := 20

  /** `strftime` with "%Y-%m-%d-%H-%M": the year's digits and four
      two-digit fields, separated by '-'. */
  function Timestamp(t: DateTime): (stamp: string)
    requires ValidDateTime(t)
    ensures |stamp| == DigitCount(t.year) + 12
  {
    DecimalLength(t.year);
    Decimal(t.year) + "-" + TwoDigits(t.month) + "-" + TwoDigits(t.day)
      + "-" + TwoDigits(t.hour) + "-" + TwoDigits(t.minute)
  }

  /** The stamp reads back field by field as the local time it was made
      from. */
  lemma TimestampFields(t: DateTime)
    requires ValidDateTime(t)
    ensures var stamp, y := Timestamp(t), DigitCount(t.year);
      |stamp| == y + 12
      && IsDigits(stamp[..y]) && DigitsValue(stamp[..y]) == t.year
      && stamp[y] == '-' && stamp[y + 3] == '-' && stamp[y + 6] == '-' && stamp[y + 9] == '-'
      && IsDigits(stamp[y + 1..y + 3]) && DigitsValue(stamp[y + 1..y + 3]) == t.month
      && IsDigits(stamp[y + 4..y + 6]) && DigitsValue(stamp[y + 4..y + 6]) == t.day
      && IsDigits(stamp[y + 7..y + 9]) && DigitsValue(stamp[y + 7..y + 9]) == t.hour
      && IsDigits(stamp[y + 10..]) && DigitsValue(stamp[y + 10..]) == t.minute
  {
    DecimalLength(t.year);
    var year, month, day, hour, minute :=
      Decimal(t.year), TwoDigits(t.month), TwoDigits(t.day), TwoDigits(t.hour), TwoDigits(t.minute);
    var stamp := Timestamp(t);
    var y := |year|;
    assert stamp == year + "-" + month + "-" + day + "-" + hour + "-" + minute;
    assert stamp[..y] == year;
    assert stamp[y + 1..y + 3] == month by {
      assert stamp[y + 1] == month[0] && stamp[y + 2] == month[1];
    }
    assert stamp[y + 4..y + 6] == day by {
      assert stamp[y + 4] == day[0] && stamp[y + 5] == day[1];
    }
    assert stamp[y + 7..y + 9] == hour by {
      assert stamp[y + 7] == hour[0] && stamp[y + 8] == hour[1];
    }
    assert stamp[y + 10..] == minute by {
      assert stamp[y + 10] == minute[0] && stamp[y + 11] == minute[1];
    }
  }

  /** A four-digit year gives a 16-character stamp, which fits the buffer
      with its terminating NUL. */
  lemma TimestampLength(t: DateTime)
    requires ValidDateTime(t) && 1000 <= t.year <= 9999
    ensures |Timestamp(t)| == 16 && |Timestamp(t)| + 1 <= STAMP_BUFFER
  {
    DecimalLength(t.year);
    DigitCountBound(t.year, 4);
    assert DigitCount(t.year) >= 4 by {
      DigitCountBound(t.year, 3);
    }
  }

  /** The name part `archiveLog` computes: the first `last dot - 1`
      characters, in `size_t` arithmetic. */
  function ArchiveStem(file: string): (stem: string)
    requires |file| < NPOS
    ensures var p := FindLastOf(file, '.');
      if p == NPOS || p == 0 then stem == file else stem == file[..p - 1]
  {
    Prefix(file, SizeT(FindLastOf(file, '.') - 1))
  }

  /** The extension part `archiveLog` computes: the first `last dot + 1`
      characters, in `size_t` arithmetic. */
  function ArchiveExtension(file: string): (ext: string)
    requires |file| < NPOS
    ensures var p := FindLastOf(file, '.');
      if p == NPOS then ext == "" else ext == file[..p + 1]
  {
    Prefix(file, SizeT(FindLastOf(file, '.') + 1))
  }

  /** The new name `archiveLog` passes to `rename`: the stamp always follows
      a '-', and the name is as long as stem, stamp and extension together. */
  function ArchiveName(file: string, stamp: string): (name: string)
    requires |file| < NPOS
    ensures ArchiveStem(file) <= name
    ensures |name| == |ArchiveStem(file)| + 1 + |stamp| + |ArchiveExtension(file)|
    ensures name[|ArchiveStem(file)|] == '-'
    ensures name[|ArchiveStem(file)| + 1..|ArchiveStem(file)| + 1 + |stamp|] == stamp
    ensures name[|name| - |ArchiveExtension(file)|..] == ArchiveExtension(file)
  {
    ArchiveStem(file) + "-" + stamp + ArchiveExtension(file)
  }

  /** Without a dot, `npos - 1` keeps the whole name and `npos + 1` wraps to
      0, so the stamp is appended and nothing follows it. */
  lemma ArchiveNameWithoutDot(file: string, stamp: string)
    requires |file| < NPOS && '.' !in file
    ensures ArchiveName(file, stamp) == file + "-" + stamp
  {
  }

  /** With the last dot at `p > 0`, the stem loses the character before the
      dot and the "extension" is the whole name up to and including it. */
  lemma ArchiveNameWithDot(file: string, stamp: string, p: nat)
    requires |file| < NPOS && 0 < p < |file| && file[p] == '.'
    requires forall j :: p < j < |file| ==> file[j] != '.'
    ensures ArchiveName(file, stamp) == file[..p - 1] + "-" + stamp + file[..p + 1]
  {
    assert FindLastOf(file, '.') == p;
  }

  /** With the only dot at index 0, `0 - 1` wraps to `npos` and the stem is
      the whole name. */
  lemma ArchiveNameLeadingDot(file: string, stamp: string)
    requires |file| < NPOS && |file| >= 1 && file[0] == '.'
    requires forall j :: 0 < j < |file| ==> file[j] != '.'
    ensures ArchiveName(file, stamp) == file + "-" + stamp + "."
  {
    assert FindLastOf(file, '.') == 0;
  }

  /** "stats.csv" is archived as "stat-<stamp>stats." rather than
      "stats-<stamp>.csv". */
  lemma ArchiveNameMangles(stamp: string)
    ensures ArchiveName("stats.csv", stamp) == "stat-" + stamp + "stats."
  {
    var s := "stats.csv";
    assert s[5] == '.';
    ArchiveNameWithDot(s, stamp, 5);
    assert s[..4] == "stat" && s[..6] == "stats.";
  }

  /** The intended name of "stats.csv" is "stats-<stamp>.csv". */
  lemma IntendedArchiveNameExample(stamp: string)
    ensures IntendedArchiveName("stats.csv", stamp) == "stats-" + stamp + ".csv"
  {
    var s := "stats.csv";
    LastIndexAfterPrefix("stats", '.', "csv");
    assert "stats" + ['.'] + "csv" == s;
    assert s[..5] == "stats" && s[5..] == ".csv";
  }

  /** The name split at the last dot: the stem before it and the extension
      from it on (empty when there is no dot). */
  function SplitExtension(file: string): (parts: (string, string))
    ensures parts.0 + parts.1 == file
    ensures parts.1 == "" || (parts.1[0] == '.' && '.' !in parts.1[1..])
    ensures parts.1 == "" <==> '.' !in file
  {
    var i := LastIndexOf(file, '.');
    if i < 0 then (file, "")
    else
      assert file[..i] + file[i..] == file;
      assert forall j :: 0 <= j < |file[i..]| - 1 ==> file[i..][1..][j] == file[i + 1 + j];
      (file[..i], file[i..])
  }

  /** The evidently intended archive name: stem, stamp, extension. */
  function IntendedArchiveName(file: string, stamp: string): string {
    SplitExtension(file).0 + "-" + stamp + SplitExtension(file).1
  }

  /** The intended name is the original with "-<stamp>" inserted before the
      extension: removing the insertion gives the original back. */
  lemma IntendedArchiveNameInsertsStamp(file: string, stamp: string)
    ensures var (stem, ext) := SplitExtension(file);
      IntendedArchiveName(file, stamp) == stem + "-" + stamp + ext
      && |IntendedArchiveName(file, stamp)| == |file| + 1 + |stamp|
      && IntendedArchiveName(file, stamp)[..|stem|] + IntendedArchiveName(file, stamp)[|stem| + 1 + |stamp|..] == file
  {
    var (stem, ext) := SplitExtension(file);
    var n := stem + "-" + stamp + ext;
    assert n[..|stem|] == stem;
    assert n[|stem| + 1 + |stamp|..] == ext;
  }

  // ---------------------------------------------------------------------
  // The logger.
  // ---------------------------------------------------------------------

  class Logger {
    var columns: seq<Column>

    constructor ()
      ensures columns == []
    {
      columns := [];
    }

    /** Adds a column after those registered before. */
    method RegisterLoggingColumn(columnName: string, callback: () -> string)
      modifies this
      ensures columns == old(columns) + [Column(columnName, callback)]
    {
      columns := columns + [Column(columnName, callback)];
    }

    /** The header line: the column titles, separated, then the newline.
        Reading `columns[0]` of an empty logger is undefined, so at least
        one column is required. */
    method HeaderLine() returns (line: string)
      requires |columns| >= 1
      ensures line == Line(Names(columns))
    {
      var names := Names(columns);
      line := columns[0].name;
      var i := 1;
      while i < |columns|
        invariant 1 <= i <= |columns|
        invariant line == Join(names[..i])
      {
        assert names[..i + 1][..i] == names[..i];
        line := line + [SEPARATOR] + columns[i].name;
        i := i + 1;
      }
      assert names[..|columns|] == names;
      line := line + [NEWLINE];
    }

    /** The data line: each column's callback, called in column order,
        separated, then the newline.  `calls` lists the columns whose
        callback was invoked, in the order of invocation. */
    method DataLine() returns (line: string, calls: seq<nat>)
      requires |columns| >= 1
      ensures line == Line(Values(columns))
      ensures |calls| == |columns| && forall k :: 0 <= k < |calls| ==> calls[k] == k
    {
      var values := Values(columns);
      line := columns[0].callback();
      calls := [0];
      var i := 1;
      while i < |columns|
        invariant 1 <= i <= |columns|
        invariant line == Join(values[..i])
        invariant |calls| == i && forall k :: 0 <= k < i ==> calls[k] == k
      {
        assert values[..i + 1][..i] == values[..i];
        line := line + [SEPARATOR] + columns[i].callback();
        calls := calls + [i];
        i := i + 1;
      }
      assert values[..|columns|] == values;
      line := line + [NEWLINE];
    }

    /** Creates (or empties) `file` and writes the header line. */
    method InitLog(fs: FileSystem, file: string)
      requires |columns| >= 1
      modifies fs
      ensures fs.files == WriteFile(old(fs.files), file, Line(Names(columns)))
    {
      var line := HeaderLine();
      fs.Write(file, line);
    }

    /** Appends one data line to `file`. */
    method Log(fs: FileSystem, file: string)
      requires |columns| >= 1
      modifies fs
      ensures fs.files == AppendFile(old(fs.files), file, Line(Values(columns)))
    {
      var line, _ := DataLine();
      fs.Append(file, line);
    }

    /** Renames `file` to its archive name, built from the local time `now`;
        `printed` is what `puts` writes to standard output. */
    method ArchiveLog(fs: FileSystem, file: string, now: DateTime) returns (printed: string)
      requires |file| < NPOS && ValidDateTime(now)
      requires |Timestamp(now)| < STAMP_BUFFER
      modifies fs
      ensures printed == Timestamp(now) + [NEWLINE]
      ensures fs.files == RenameFile(old(fs.files), file, ArchiveName(file, Timestamp(now)))
    {
      var nameAndPath := Prefix(file, SizeT(FindLastOf(file, '.') - 1));
      var extension := Prefix(file, SizeT(FindLastOf(file, '.') + 1));
      var buffer := Timestamp(now);
      printed := buffer + [NEWLINE];
      fs.Rename(file, nameAndPath + "-" + buffer + extension);
    }
  }

  /** A log started and then written twice holds the header and the two
      data lines, in that order. */
  lemma InitThenLogTwice(files: map<string, string>, file: string, header: string, row1: string, row2: string)
    ensures AppendFile(AppendFile(WriteFile(files, file, header), file, row1), file, row2)
            == WriteFile(files, file, header + row1 + row2)
  {
    AppendAfterWrite(files, file, header, row1);
    AppendAfterWrite(files, file, header + row1, row2);
  }
}
