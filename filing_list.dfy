/**
  The filing-list builder: it reads every quarterly `master.idx` file present
  under the index directory, in year and quarter order, skips each file's
  header, and keeps one record per 10-K line. The class-based downloader reads
  the years 2010 to 2025 and takes its URL prefix from configuration; the
  processor reads 1994 to 2025 and takes the prefix as a parameter.
*/
module FilingList {
  import opened Base
  import opened Text
  import opened Fetching
  import opened IndexSync

  /** One row of the filing list. */
  datatype Filing = Filing(cik: string, company: string, form: string, date: string, url: string)

  /** The only form kept. */
  const TenK: string := "10-K"

  /** The number of header lines skipped at the top of every index file. */
  const HeaderLines: nat := 11

  const DownloaderFirstYear: int := 2010
  const ProcessorFirstYear: int := 1994
  const LastListYear: int := 2025

  // ---------------------------------------------------------------------------
  // Reading lines

  /** Text-mode newline translation: "\r\n" and a lone "\r" both become "\n". */
  function Universal(s: string): (t: string)
    ensures '\r' !in t
  {
    if s == [] then []
    else if s[0] == '\r' then "\n" + Universal(if |s| > 1 && s[1] == '\n' then s[2..] else s[1..])
    else [s[0]] + Universal(s[1..])
  }

  /** Text without a carriage return is left alone by the translation. */
  lemma {:induction false} UniversalPlain(s: string)
    requires '\r' !in s
    ensures Universal(s) == s
  {
    if s != [] {
      UniversalPlain(s[1..]);
    }
  }

  /**
    f.readlines() in text mode, each line without its terminator: the parser
    strips every line, which removes the terminator in any case.
  */
  function ReadLines(content: string): (lines: seq<string>)
    ensures forall i :: 0 <= i < |lines| ==> '\n' !in lines[i]
  {
    var parts := Split(Universal(content), '\n');
    if parts[|parts| - 1] == [] then parts[..|parts| - 1] else parts
  }

  lemma JoinSnocEmpty(lines: seq<string>)
    requires |lines| >= 1
    ensures Join(lines + [""], '\n') == Join(lines, '\n') + "\n"
    decreases |lines|
  {
    var sep := '\n';
    var all := lines + [""];
    assert all[0] == lines[0] && all[1..] == lines[1..] + [""];
    assert Join(all, sep) == lines[0] + [sep] + Join(lines[1..] + [""], sep);
    if |lines| > 1 {
      JoinSnocEmpty(lines[1..]);
      assert Join(lines, sep) == lines[0] + [sep] + Join(lines[1..], sep);
    } else {
      assert lines[1..] + [""] == [""];
    }
  }

  /** Reading back lines written one per row, each ended by a newline, gives the lines. */
  lemma ReadLinesRoundTrip(lines: seq<string>)
    requires forall i :: 0 <= i < |lines| ==> '\n' !in lines[i] && '\r' !in lines[i]
    ensures lines == [] ==> ReadLines("") == []
    ensures lines != [] ==> ReadLines(Join(lines, '\n') + "\n") == lines
  {
    if lines == [] {
      ReadSplit("", [""]);
    } else {
      var parts := lines + [""];
      WrittenLines(lines);
      ReadSplit(Join(lines, '\n') + "\n", parts);
      assert parts[..|parts| - 1] == lines;
    }
  }

  /** Lines written one per row split back, at the newlines, into the lines and a last empty piece. */
  lemma WrittenLines(lines: seq<string>)
    requires lines != []
    requires forall i :: 0 <= i < |lines| ==> '\n' !in lines[i] && '\r' !in lines[i]
    ensures '\r' !in Join(lines, '\n') + "\n"
    ensures Split(Join(lines, '\n') + "\n", '\n') == lines + [""]
  {
    var parts := lines + [""];
    forall i | 0 <= i < |parts| ensures '\n' !in parts[i] && '\r' !in parts[i] {
      if i < |lines| { assert parts[i] == lines[i]; }
    }
    JoinSnocEmpty(lines);
    JoinPlain(parts, '\n', '\r');
    JoinSplit(parts, '\n');
  }

  /** Text free of carriage returns that splits into pieces ending with an empty one reads as the pieces before it. */
  lemma ReadSplit(content: string, parts: seq<string>)
    requires '\r' !in content && Split(content, '\n') == parts
    requires parts[|parts| - 1] == []
    ensures ReadLines(content) == parts[..|parts| - 1]
  {
    UniversalPlain(content);
  }

  /** A join of pieces free of a character c, with a separator other than c, is free of c. */
  lemma {:induction false} JoinPlain(parts: seq<string>, sep: char, c: char)
    requires |parts| >= 1 && sep != c
    requires forall i :: 0 <= i < |parts| ==> c !in parts[i]
    ensures c !in Join(parts, sep)
    decreases |parts|
  {
    if |parts| > 1 {
      JoinPlain(parts[1..], sep, c);
    }
  }

  // ---------------------------------------------------------------------------
  // One line

  /**
    One index line: split the stripped line on '|'; a line with at least five
    fields whose third field is exactly "10-K" gives a record, its URL the
    prefix followed by the fifth field.
  */
  function ParseLine(baseUrl: string, line: string): (r: Option<Filing>)
    ensures r.Some? ==> r.value.form == TenK && StartsWith(r.value.url, baseUrl)
    ensures r.Some? ==> '|' !in r.value.cik && '|' !in r.value.company && '|' !in r.value.date
  {
    var parts := Split(Strip(line), '|');
    if |parts| >= 5 && parts[2] == TenK then
      assert (baseUrl + parts[4])[..|baseUrl|] == baseUrl;
      Some(Filing(parts[0], parts[1], parts[2], parts[3], baseUrl + parts[4]))
    else None
  }

  /** An index line as EDGAR writes it: CIK, company name, form type, date filed and file name, separated by '|'. */
  function IndexLine(cik: string, company: string, form: string, date: string, file: string): string {
    Join([cik, company, form, date, file], '|')
  }

  lemma IndexLineShape(cik: string, company: string, form: string, date: string, file: string)
    ensures IndexLine(cik, company, form, date, file) == cik + "|" + company + "|" + form + "|" + date + "|" + file
  {
    var parts := [cik, company, form, date, file];
    assert parts[1..][1..][1..][1..] == [file];
    var tail3 := Join([date, file], '|');
    assert [date, file][1..] == [file];
    assert Join([file], '|') == file;
    assert tail3 == date + ['|'] + file;
    var tail2 := Join([form, date, file], '|');
    assert [form, date, file][1..] == [date, file];
    assert tail2 == form + "|" + date + "|" + file;
    var tail1 := Join([company, form, date, file], '|');
    assert [company, form, date, file][1..] == [form, date, file];
    assert tail1 == company + "|" + form + "|" + date + "|" + file;
    assert parts[1..] == [company, form, date, file];
  }

  /**
    A well-formed index line gives back its fields: a record exactly when its
    form is "10-K", with the fields in place and the URL built from the file name.
  */
  lemma ParseIndexLine(baseUrl: string, cik: string, company: string, form: string, date: string, file: string)
    requires '|' !in cik && '|' !in company && '|' !in form && '|' !in date && '|' !in file
    requires cik != [] && !IsSpace(cik[0]) && file != [] && !IsSpace(file[|file| - 1])
    ensures ParseLine(baseUrl, IndexLine(cik, company, form, date, file)) ==
      if form == TenK then Some(Filing(cik, company, form, date, baseUrl + file)) else None
  {
    var line := IndexLine(cik, company, form, date, file);
    IndexLineShape(cik, company, form, date, file);
    assert line[0] == cik[0] && line[|line| - 1] == file[|file| - 1];
    StripUnchanged(line);
    var parts := [cik, company, form, date, file];
    assert forall i :: 0 <= i < |parts| ==> '|' !in parts[i];
    JoinSplit(parts, '|');
  }

  // ---------------------------------------------------------------------------
  // One file

  /** The records of the lines, in line order. */
  function ParseLines(baseUrl: string, lines: seq<string>): seq<Filing> {
    FilterMap(line => ParseLine(baseUrl, line), lines)
  }

  /** A record is in the result exactly when some line gives it. */
  lemma ParseLinesMembers(baseUrl: string, lines: seq<string>, f: Filing)
    ensures f in ParseLines(baseUrl, lines) <==> exists i :: 0 <= i < |lines| && ParseLine(baseUrl, lines[i]) == Some(f)
  {
    FilterMapMembers(line => ParseLine(baseUrl, line), lines, f);
  }

  /** Every record is a 10-K whose URL starts with the prefix. */
  lemma ParseLinesSound(baseUrl: string, lines: seq<string>, f: Filing)
    requires f in ParseLines(baseUrl, lines)
    ensures f.form == TenK && StartsWith(f.url, baseUrl)
  {
    ParseLinesMembers(baseUrl, lines, f);
  }

  /** lines[n:] with Python's slice clamping. */
  function Drop(lines: seq<string>, n: nat): (rest: seq<string>)
    ensures |rest| == if n <= |lines| then |lines| - n else 0
  {
    if n <= |lines| then lines[n..] else []
  }

  /** The records of one index file: its lines after the header. */
  function ParseIndexFile(baseUrl: string, content: string): seq<Filing> {
    ParseLines(baseUrl, Drop(ReadLines(content), HeaderLines))
  }

  /** Whatever the header holds, even a 10-K line, it contributes nothing; a file of header only gives nothing. */
  lemma HeaderIgnored(baseUrl: string, header: seq<string>, body: seq<string>)
    requires |header| <= HeaderLines
    ensures |header| == HeaderLines ==> ParseLines(baseUrl, Drop(header + body, HeaderLines)) == ParseLines(baseUrl, body)
    ensures body == [] ==> ParseLines(baseUrl, Drop(header + body, HeaderLines)) == []
  {
    if |header| == HeaderLines {
      assert (header + body)[HeaderLines..] == body;
    }
  }

  // ---------------------------------------------------------------------------
  // The index files read, in order

  /** The index file the builder looks for, spelt out as "{dir}/{year}/{qtr}/master.idx". */
  function IndexFilePath(idxDir: string, year: int, qtr: string): string {
    idxDir + "/" + IntToString(year) + "/" + qtr + "/" + IndexName
  }

  /** The builder reads exactly the file the synchroniser writes for a cell, for a directory given without a trailing '/'. */
  lemma BuilderReadsSynchronisedFile(s: Settings, year: int, qtr: string)
    requires qtr in Quarters
    requires s.root != [] && !EndsWith(s.root, "/")
    ensures IndexFilePath(s.root, year, qtr) == CellPath(s, Cell(year, qtr))
  {
    CellPathPlain(s, Cell(year, qtr));
  }

  function QuarterPaths(idxDir: string, year: int, qs: seq<string>): (ps: seq<string>)
    ensures |ps| == |qs|
  {
    if qs == [] then []
    else QuarterPaths(idxDir, year, qs[..|qs| - 1]) + [IndexFilePath(idxDir, year, qs[|qs| - 1])]
  }

  /** The index files looked for, year by year from firstYear up to upTo, each year's four quarters in order. */
  function ListPaths(idxDir: string, firstYear: int, upTo: int): seq<string>
    decreases upTo - firstYear
  {
    if upTo < firstYear then []
    else ListPaths(idxDir, firstYear, upTo - 1) + QuarterPaths(idxDir, upTo, Quarters)
  }

  lemma {:induction false} QuarterPathsAt(idxDir: string, year: int, qs: seq<string>, q: nat)
    requires q < |qs|
    ensures QuarterPaths(idxDir, year, qs)[q] == IndexFilePath(idxDir, year, qs[q])
  {
    if q < |qs| - 1 {
      QuarterPathsAt(idxDir, year, qs[..|qs| - 1], q);
    }
  }

  /** Four index files per year read. */
  lemma {:induction false} ListPathsLength(idxDir: string, firstYear: int, upTo: int)
    ensures |ListPaths(idxDir, firstYear, upTo)| == if upTo < firstYear then 0 else 4 * (upTo - firstYear + 1)
    decreases upTo - firstYear
  {
    if upTo >= firstYear {
      ListPathsLength(idxDir, firstYear, upTo - 1);
    }
  }

  /** The q-th quarter of a year is the file read at position 4*(year - firstYear) + q: years ascending, quarters in order. */
  lemma {:induction false} ListPathsAt(idxDir: string, firstYear: int, upTo: int, year: int, q: nat)
    requires firstYear <= year <= upTo && q < 4
    ensures 4 * (year - firstYear) + q < |ListPaths(idxDir, firstYear, upTo)|
    ensures ListPaths(idxDir, firstYear, upTo)[4 * (year - firstYear) + q] == IndexFilePath(idxDir, year, Quarters[q])
    decreases upTo - firstYear
  {
    ListPathsLength(idxDir, firstYear, upTo);
    ListPathsLength(idxDir, firstYear, upTo - 1);
    if year < upTo {
      ListPathsAt(idxDir, firstYear, upTo - 1, year, q);
    } else {
      QuarterPathsAt(idxDir, upTo, Quarters, q);
    }
  }

  /** The records of the file at a path, or nothing when there is no file there. */
  function FileRecords(files: Files, baseUrl: string, path: string): seq<Filing> {
    if path in files then ParseIndexFile(baseUrl, files[path]) else []
  }

  /** The records of the files present among the paths, file after file; an absent file is skipped. */
  function FilingsFrom(files: Files, baseUrl: string, paths: seq<string>): seq<Filing> {
    FlatMap(path => FileRecords(files, baseUrl, path), paths)
  }

  /** The whole filing list built from the index directory. */
  function FilingsList(files: Files, idxDir: string, baseUrl: string, firstYear: int): seq<Filing> {
    FilingsFrom(files, baseUrl, ListPaths(idxDir, firstYear, LastListYear))
  }

  /** A record is listed exactly when it comes from a file that is present among the paths. */
  lemma FilingsFromMembers(files: Files, baseUrl: string, paths: seq<string>, f: Filing)
    ensures f in FilingsFrom(files, baseUrl, paths) <==>
      exists i :: 0 <= i < |paths| && paths[i] in files && f in ParseIndexFile(baseUrl, files[paths[i]])
  {
    FlatMapMembers(path => FileRecords(files, baseUrl, path), paths, f);
  }

  /** Files the builder does not find change nothing: the list depends only on the files present. */
  lemma {:induction false} FilingsFromIgnoresOthers(files: Files, more: Files, baseUrl: string, paths: seq<string>)
    requires forall p :: p in more && p !in files ==> p !in paths
    requires forall p :: p in files ==> p in more && more[p] == files[p]
    ensures FilingsFrom(more, baseUrl, paths) == FilingsFrom(files, baseUrl, paths)
  {
    if paths != [] {
      var init, last := paths[..|paths| - 1], paths[|paths| - 1];
      assert paths == init + [last];
      assert forall p :: p in more && p !in files ==> p !in init;
      FilingsFromIgnoresOthers(files, more, baseUrl, init);
      FlatMapSnoc(path => FileRecords(files, baseUrl, path), init, last);
      FlatMapSnoc(path => FileRecords(more, baseUrl, path), init, last);
    }
  }

  /** Every listed record is a 10-K whose URL starts with the prefix. */
  lemma FilingsListSound(files: Files, idxDir: string, baseUrl: string, firstYear: int, f: Filing)
    requires f in FilingsList(files, idxDir, baseUrl, firstYear)
    ensures f.form == TenK && StartsWith(f.url, baseUrl)
  {
    var paths := ListPaths(idxDir, firstYear, LastListYear);
    FilingsFromMembers(files, baseUrl, paths, f);
    var k :| 0 <= k < |paths| && paths[k] in files && f in ParseIndexFile(baseUrl, files[paths[k]]);
    ParseLinesSound(baseUrl, Drop(ReadLines(files[paths[k]]), HeaderLines), f);
  }

  // ---------------------------------------------------------------------------
  // The builder, step by step

  /** The lines of one file after its header, each 10-K line appended to the list as a record. */
  method AppendRecords(filings: seq<Filing>, baseUrl: string, lines: seq<string>) returns (filings': seq<Filing>)
    ensures filings' == filings + ParseLines(baseUrl, lines)
  {
    filings' := filings;
    var j := 0;
    while j < |lines|
      invariant 0 <= j <= |lines|
      invariant filings' == filings + ParseLines(baseUrl, lines[..j])
    {
      var record := ParseLine(baseUrl, lines[j]);
      FilterMapSnoc(line => ParseLine(baseUrl, line), lines, j);
      if record.Some? {
        AppendAssoc(filings, ParseLines(baseUrl, lines[..j]), [record.value]);
        filings' := filings' + [record.value];
      } else {
        assert ParseLines(baseUrl, lines[..j + 1]) == ParseLines(baseUrl, lines[..j]) + [];
      }
      j := j + 1;
    }
    assert lines[..j] == lines;
  }

  lemma QuarterPathsStep(idxDir: string, year: int, qs: seq<string>, q: nat)
    requires q < |qs|
    ensures QuarterPaths(idxDir, year, qs[..q + 1]) == QuarterPaths(idxDir, year, qs[..q]) + [IndexFilePath(idxDir, year, qs[q])]
  {
    assert qs[..q + 1][..q] == qs[..q];
  }

  /** One year of the builder: the four quarters in order, each file read only if it exists. */
  method AppendYear(files: Files, filings: seq<Filing>, idxDir: string, baseUrl: string, year: int,
                    ghost paths: seq<string>)
    returns (filings': seq<Filing>)
    requires filings == FilingsFrom(files, baseUrl, paths)
    ensures filings' == FilingsFrom(files, baseUrl, paths + QuarterPaths(idxDir, year, Quarters))
  {
    filings' := filings;
    ghost var done := paths;
    var q := 0;
    while q < |Quarters|
      invariant 0 <= q <= |Quarters|
      invariant done == paths + QuarterPaths(idxDir, year, Quarters[..q])
      invariant filings' == FilingsFrom(files, baseUrl, done)
    {
      var idxFile := idxDir + "/" + IntToString(year) + "/" + Quarters[q] + "/" + IndexName;
      if idxFile in files {
        var lines := Drop(ReadLines(files[idxFile]), HeaderLines);
        filings' := AppendRecords(filings', baseUrl, lines);
      }
      FlatMapSnoc(path => FileRecords(files, baseUrl, path), done, idxFile);
      QuarterPathsStep(idxDir, year, Quarters, q);
      done := done + [idxFile];
      q := q + 1;
    }
    assert Quarters[..q] == Quarters;
  }

  /**
    The builder: the years from firstYear to 2025, four quarters each, every
    existing index file's records appended in line order.
  */
  method BuildFilingsList(files: Files, idxDir: string, baseUrl: string, firstYear: int) returns (filings: seq<Filing>)
    ensures filings == FilingsList(files, idxDir, baseUrl, firstYear)
  {
    filings := [];
    ghost var paths: seq<string> := [];
    var year := firstYear;
    while year <= LastListYear
      invariant firstYear <= year && (year == firstYear || year <= LastListYear + 1)
      invariant paths == ListPaths(idxDir, firstYear, year - 1)
      invariant filings == FilingsFrom(files, baseUrl, paths)
    {
      filings := AppendYear(files, filings, idxDir, baseUrl, year, paths);
      paths := paths + QuarterPaths(idxDir, year, Quarters);
      year := year + 1;
    }
    assert ListPaths(idxDir, firstYear, year - 1) == ListPaths(idxDir, firstYear, LastListYear);
  }
}
