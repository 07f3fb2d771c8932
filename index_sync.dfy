/**
  The quarterly index synchroniser: it walks a year-by-quarter grid and makes
  sure every cell's EDGAR `master.idx` file is present locally, fetching only
  the missing ones. The class-based downloader and the free-function processor
  run the same loop; they differ only in the index base URL, the pause after a
  request and the local root, which `Settings` holds.
*/
module IndexSync {
  import opened Base
  import opened Text
  import opened Fetching

  /** What distinguishes one synchroniser from the other. */
  datatype Settings = Settings(indexBase: string, root: string, delay: real)

  /** The class-based downloader: its configured base URL, rate-limit delay and project folder. */
  function DownloaderSettings(baseUrl: string, rateLimitDelay: real, projectFolder: string): (s: Settings)
    ensures s.indexBase == baseUrl + "edgar/full-index/"
    ensures s.root == projectFolder && s.delay == rateLimitDelay
  {
    Settings(baseUrl + "edgar/full-index/", projectFolder, rateLimitDelay)
  }

  const SecIndexBase: string := "https://www.sec.gov/Archives/edgar/full-index/"

  /** The processor: a fixed index base URL and a fixed pause of 0.1 seconds. */
  function ProcessorSettings(projectFolder: string): (s: Settings)
    ensures s.indexBase == SecIndexBase && s.root == projectFolder && s.delay == 0.1
  {
    Settings(SecIndexBase, projectFolder, 0.1)
  }

  /** Configured with the SEC archive root and a 0.1 second delay, the downloader behaves as the processor. */
  lemma SameSynchroniser(projectFolder: string)
    ensures DownloaderSettings("https://www.sec.gov/Archives/", 0.1, projectFolder) == ProcessorSettings(projectFolder)
  {
  }

  const Quarters: seq<string> := ["QTR1", "QTR2", "QTR3", "QTR4"]

  /** The name of a quarter's index file, remote and local. */
  const IndexName: string := "master.idx"

  /**
    The quarters visited in a year. The start year is tested first, so it gets
    all four even when it is also the end year; a later end year gets QTR1 only.
  */
  function QuartersFor(year: int, startYear: int, endYear: int): (qs: seq<string>)
    ensures year == startYear ==> qs == Quarters
    ensures year != startYear && year == endYear ==> qs == ["QTR1"]
    ensures year != startYear && year != endYear ==> qs == Quarters
  {
    if year == startYear then Quarters
    else if year == endYear then Quarters[..1]
    else Quarters
  }

  /** One cell of the grid. */
  datatype Cell = Cell(year: int, quarter: string)

  function YearCells(year: int, qs: seq<string>): seq<Cell> {
    seq(|qs|, i requires 0 <= i < |qs| => Cell(year, qs[i]))
  }

  /** The cells visited for the years from startYear up to upTo, year by year, quarters in order. */
  function Grid(startYear: int, endYear: int, upTo: int): seq<Cell>
    decreases upTo - startYear
  {
    if upTo < startYear then []
    else Grid(startYear, endYear, upTo - 1) + YearCells(upTo, QuartersFor(upTo, startYear, endYear))
  }

  /** Every cell visited by one call with the given year range, in visiting order. */
  function Schedule(startYear: int, endYear: int): seq<Cell> {
    Grid(startYear, endYear, endYear)
  }

  /** The number of cells in the grid up to a year. */
  lemma {:induction false} GridSize(startYear: int, endYear: int, upTo: int)
    requires upTo <= endYear
    ensures |Grid(startYear, endYear, upTo)| ==
      if upTo < startYear then 0
      else if upTo == startYear || upTo < endYear then 4 * (upTo - startYear + 1)
      else 4 * (upTo - startYear) + 1
    decreases upTo - startYear
  {
    if upTo >= startYear {
      GridSize(startYear, endYear, upTo - 1);
    }
  }

  /** No cells for an empty range, four for a single year, and 4*(end-start)+1 otherwise. */
  lemma ScheduleSize(startYear: int, endYear: int)
    ensures |Schedule(startYear, endYear)| ==
      if startYear > endYear then 0
      else if startYear == endYear then 4
      else 4 * (endYear - startYear) + 1
  {
    GridSize(startYear, endYear, endYear);
  }

  /** A cell is visited exactly when its year lies in the range and its quarter is one chosen for that year. */
  lemma {:induction false} GridContents(startYear: int, endYear: int, upTo: int, c: Cell)
    ensures c in Grid(startYear, endYear, upTo) <==>
      startYear <= c.year <= upTo && c.quarter in QuartersFor(c.year, startYear, endYear)
    decreases upTo - startYear
  {
    if upTo >= startYear {
      GridContents(startYear, endYear, upTo - 1, c);
      var qs := QuartersFor(upTo, startYear, endYear);
      assert c in YearCells(upTo, qs) <==> c.year == upTo && c.quarter in qs by {
        if c.year == upTo && c.quarter in qs {
          var k :| 0 <= k < |qs| && qs[k] == c.quarter;
          assert YearCells(upTo, qs)[k] == c;
        }
      }
    }
  }

  /** Cells are visited in year order: every cell of a year comes before any cell of a later year. */
  lemma {:induction false} GridOrdered(startYear: int, endYear: int, upTo: int)
    ensures forall i, j :: 0 <= i < j < |Grid(startYear, endYear, upTo)| ==>
      Grid(startYear, endYear, upTo)[i].year <= Grid(startYear, endYear, upTo)[j].year
    ensures forall i :: 0 <= i < |Grid(startYear, endYear, upTo)| ==>
      startYear <= Grid(startYear, endYear, upTo)[i].year <= upTo
    decreases upTo - startYear
  {
    if upTo >= startYear {
      GridOrdered(startYear, endYear, upTo - 1);
    }
  }

  /** No cell is visited twice. */
  lemma {:induction false} GridDistinct(startYear: int, endYear: int, upTo: int)
    ensures forall i, j :: 0 <= i < j < |Grid(startYear, endYear, upTo)| ==>
      Grid(startYear, endYear, upTo)[i] != Grid(startYear, endYear, upTo)[j]
    decreases upTo - startYear
  {
    if upTo >= startYear {
      GridDistinct(startYear, endYear, upTo - 1);
      GridOrdered(startYear, endYear, upTo - 1);
    }
  }

  // ---------------------------------------------------------------------------
  // Where each cell comes from and goes to

  /** The remote index file of a cell. */
  function CellUrl(s: Settings, c: Cell): string {
    s.indexBase + IntToString(c.year) + "/" + c.quarter + "/" + IndexName
  }

  /** The local index file of a cell: root, year directory, quarter directory, `master.idx`, joined as paths. */
  function CellPath(s: Settings, c: Cell): string {
    PathJoin(PathJoin(PathJoin(s.root, IntToString(c.year)), c.quarter), IndexName)
  }

  function CellTask(s: Settings, c: Cell): Task {
    Task(CellPath(s, c), CellUrl(s, c))
  }

  function Tasks(s: Settings, cells: seq<Cell>): seq<Task> {
    seq(|cells|, i requires 0 <= i < |cells| => CellTask(s, cells[i]))
  }

  /** The directory part os.path.join puts in front of a relative name. */
  function DirPrefix(a: string): string {
    if a == [] || EndsWith(a, "/") then a else a + "/"
  }

  lemma JoinRelative(a: string, b: string)
    requires b != [] && b[0] != '/'
    ensures PathJoin(a, b) == DirPrefix(a) + b
  {
    assert b[..1] == [b[0]];
  }

  /** Joining onto a name that does not end in '/' puts exactly one '/' between. */
  lemma JoinAfterName(a: string, b: string)
    requires a != [] && a[|a| - 1] != '/'
    requires b != [] && b[0] != '/'
    ensures PathJoin(a, b) == a + "/" + b
  {
    JoinRelative(a, b);
    assert a[|a| - 1..] == [a[|a| - 1]];
  }

  lemma QuarterShape(q: string)
    requires q in Quarters
    ensures |q| == 4 && q[0] == 'Q' && IsDigit(q[3])
  {
  }

  /** Whatever the root, a cell's path is the root's directory prefix, then year/quarter/master.idx. */
  lemma CellPathShape(s: Settings, c: Cell)
    requires c.quarter in Quarters
    ensures CellPath(s, c) == DirPrefix(s.root) + IntToString(c.year) + "/" + c.quarter + "/" + IndexName
  {
    var y := IntToString(c.year);
    var q := c.quarter;
    QuarterShape(q);
    var yearDir := PathJoin(s.root, y);
    JoinRelative(s.root, y);
    assert yearDir[|yearDir| - 1] == y[|y| - 1];
    var qtrDir := PathJoin(yearDir, q);
    JoinAfterName(yearDir, q);
    assert qtrDir[|qtrDir| - 1] == q[3];
    JoinAfterName(qtrDir, IndexName);
  }

  /** For a root without a trailing '/', the joined path is the one the filing-list builder spells out. */
  lemma CellPathPlain(s: Settings, c: Cell)
    requires c.quarter in Quarters
    requires s.root != [] && !EndsWith(s.root, "/")
    ensures CellPath(s, c) == s.root + "/" + IntToString(c.year) + "/" + c.quarter + "/" + IndexName
  {
    CellPathShape(s, c);
  }

  lemma ConcatCancel(u1: string, v1: string, u2: string, v2: string)
    requires |u1| == |u2| || |v1| == |v2|
    requires u1 + v1 == u2 + v2
    ensures u1 == u2 && v1 == v2
  {
    assert u1 == (u1 + v1)[..|u1|] && v1 == (u1 + v1)[|u1|..];
    assert u2 == (u2 + v2)[..|u2|] && v2 == (u2 + v2)[|u2|..];
  }

  /** `prefix + a + "/" + x + "/" + name` determines a and x when x's length is fixed. */
  lemma FieldsDetermined(prefix: string, a: string, x: string, b: string, y: string, name: string)
    requires |x| == |y|
    requires prefix + a + "/" + x + "/" + name == prefix + b + "/" + y + "/" + name
    ensures a == b && x == y
  {
    ConcatCancel(prefix + a + "/" + x + "/", name, prefix + b + "/" + y + "/", name);
    ConcatCancel(prefix + a + "/" + x, "/", prefix + b + "/" + y, "/");
    ConcatCancel(prefix + a + "/", x, prefix + b + "/", y);
    ConcatCancel(prefix + a, "/", prefix + b, "/");
    ConcatCancel(prefix, a, prefix, b);
  }

  /** Distinct cells of the grid have distinct local files. */
  lemma CellPathInjective(s: Settings, c: Cell, d: Cell)
    requires c.quarter in Quarters && d.quarter in Quarters
    requires CellPath(s, c) == CellPath(s, d)
    ensures c == d
  {
    CellPathShape(s, c);
    CellPathShape(s, d);
    QuarterShape(c.quarter);
    QuarterShape(d.quarter);
    FieldsDetermined(DirPrefix(s.root), IntToString(c.year), c.quarter, IntToString(d.year), d.quarter, IndexName);
    IntToStringInjective(c.year, d.year);
  }

  /** Distinct cells of the grid have distinct remote files. */
  lemma CellUrlInjective(s: Settings, c: Cell, d: Cell)
    requires c.quarter in Quarters && d.quarter in Quarters
    requires CellUrl(s, c) == CellUrl(s, d)
    ensures c == d
  {
    QuarterShape(c.quarter);
    QuarterShape(d.quarter);
    FieldsDetermined(s.indexBase, IntToString(c.year), c.quarter, IntToString(d.year), d.quarter, IndexName);
    IntToStringInjective(c.year, d.year);
  }

  /** The tasks of one call never share a local file. */
  lemma ScheduleDistinctPaths(s: Settings, startYear: int, endYear: int)
    ensures DistinctPaths(Tasks(s, Schedule(startYear, endYear)))
  {
    var cells := Schedule(startYear, endYear);
    var ts := Tasks(s, cells);
    GridDistinct(startYear, endYear, endYear);
    forall i, j | 0 <= i < j < |ts| ensures ts[i].path != ts[j].path {
      GridContents(startYear, endYear, endYear, cells[i]);
      GridContents(startYear, endYear, endYear, cells[j]);
      if ts[i].path == ts[j].path {
        CellPathInjective(s, cells[i], cells[j]);
      }
    }
  }

  // ---------------------------------------------------------------------------
  // What one call does

  /** In one call, exactly the cells whose index file was absent at the start are requested, in order. */
  lemma SyncRequestsMissing(s: Settings, files: Files, startYear: int, endYear: int, fetch: Fetcher)
    ensures Requested(files, Tasks(s, Schedule(startYear, endYear)), Exists, fetch)
         == Missing(files, Tasks(s, Schedule(startYear, endYear)), Exists)
  {
    ScheduleDistinctPaths(s, startYear, endYear);
    DistinctRequested(files, Tasks(s, Schedule(startYear, endYear)), Exists, fetch);
  }

  /**
    After one call, a visited cell's index file is unchanged if it was there,
    holds the fetched body if its request answered 200, and is absent otherwise.
  */
  lemma SyncCellFile(s: Settings, files: Files, startYear: int, endYear: int, fetch: Fetcher, i: nat)
    requires i < |Schedule(startYear, endYear)|
    ensures var c := Schedule(startYear, endYear)[i];
      At(RunFiles(files, Tasks(s, Schedule(startYear, endYear)), Exists, fetch), CellPath(s, c)) ==
        if CellPath(s, c) in files then Some(files[CellPath(s, c)])
        else if IsSuccess(fetch(CellUrl(s, c))) then Some(fetch(CellUrl(s, c)).body)
        else None
  {
    var cells := Schedule(startYear, endYear);
    var ts := Tasks(s, cells);
    ScheduleDistinctPaths(s, startYear, endYear);
    DistinctAt(files, ts, i, Exists, fetch);
    assert ts[i] == CellTask(s, cells[i]);
  }

  /**
    Run again over what the first call left, a call requests exactly the cells
    still missing, and none at all once every cell's file is present.
  */
  lemma RerunRequestsMissing(s: Settings, files: Files, startYear: int, endYear: int, fetch: Fetcher)
    ensures var ts := Tasks(s, Schedule(startYear, endYear));
      var once := RunFiles(files, ts, Exists, fetch);
      && RunFiles(once, ts, Exists, fetch) == once
      && Requested(once, ts, Exists, fetch) == Missing(once, ts, Exists)
      && (Requested(once, ts, Exists, fetch) == [] <==> forall i :: 0 <= i < |ts| ==> ts[i].path in once)
  {
    var ts := Tasks(s, Schedule(startYear, endYear));
    RunIdempotent(files, ts, Exists, fetch);
    SecondRunRequests(files, ts, fetch);
  }

  /** The progress bar's total: 1 for a single year, otherwise one each for the first and last years and four for each year between. */
  function ProgressTotalOf(startYear: int, endYear: int): int {
    if startYear > endYear then 0
    else if startYear == endYear then 1
    else 2 + 4 * (endYear - startYear - 1)
  }

  /** The progress total falls short of the cells actually visited whenever the range is not empty. */
  lemma ProgressTotalUndercounts(startYear: int, endYear: int)
    ensures startYear > endYear ==> ProgressTotalOf(startYear, endYear) == |Schedule(startYear, endYear)|
    ensures startYear == endYear ==> ProgressTotalOf(startYear, endYear) + 3 == |Schedule(startYear, endYear)|
    ensures startYear < endYear ==> ProgressTotalOf(startYear, endYear) + 3 == |Schedule(startYear, endYear)|
  {
    ScheduleSize(startYear, endYear);
  }

  /** The loop computing the progress bar's total. */
  method ProgressTotal(startYear: int, endYear: int) returns (total: int)
    ensures total == ProgressTotalOf(startYear, endYear)
  {
    total := 0;
    var year := startYear;
    while year <= endYear
      invariant startYear <= year && (startYear <= endYear ==> year <= endYear + 1)
      invariant total == if year == startYear then 0
                         else if year <= endYear then 1 + 4 * (year - startYear - 1)
                         else if startYear == endYear then 1
                         else 2 + 4 * (endYear - startYear - 1)
    {
      if year == startYear || year == endYear {
        total := total + 1;
      } else {
        total := total + 4;
      }
      year := year + 1;
    }
    if startYear == endYear {
      total := 1;
    }
  }

  lemma YearCellsSnoc(before: seq<Cell>, year: int, qs: seq<string>, k: nat)
    requires k < |qs|
    ensures before + YearCells(year, qs[..k + 1]) == before + YearCells(year, qs[..k]) + [Cell(year, qs[k])]
  {
    assert YearCells(year, qs[..k + 1]) == YearCells(year, qs[..k]) + [Cell(year, qs[k])];
  }

  lemma TasksSnoc(s: Settings, cells: seq<Cell>, c: Cell)
    ensures Tasks(s, cells + [c]) == Tasks(s, cells) + [CellTask(s, c)]
  {
  }

  /** When the year loop ends, the cells handled are the whole schedule. */
  lemma GridAtEnd(startYear: int, endYear: int, year: int)
    requires endYear < year && (year == startYear || year == endYear + 1)
    ensures Grid(startYear, endYear, year - 1) == Schedule(startYear, endYear)
  {
  }

  lemma GridStep(startYear: int, endYear: int, year: int)
    requires startYear <= year
    ensures Grid(startYear, endYear, year) ==
      Grid(startYear, endYear, year - 1) + YearCells(year, QuartersFor(year, startYear, endYear))
  {
  }

  /**
    The quarters of one year, in order: each cell's index file is fetched
    unless it exists, written on status 200, and every request is followed by
    one pause. `before` are the cells handled earlier in the same call, which
    started from the filesystem f0.
  */
  method SyncQuarters(s: Settings, files: Files, trace: seq<Effect>, year: int, qtrRange: seq<string>, fetch: Fetcher,
                      ghost f0: Files, ghost before: seq<Cell>)
    returns (files': Files, trace': seq<Effect>)
    requires files == RunFiles(f0, Tasks(s, before), Exists, fetch)
    requires trace == Pairs(Requested(f0, Tasks(s, before), Exists, fetch), s.delay)
    ensures files' == RunFiles(f0, Tasks(s, before + YearCells(year, qtrRange)), Exists, fetch)
    ensures trace' == Pairs(Requested(f0, Tasks(s, before + YearCells(year, qtrRange)), Exists, fetch), s.delay)
  {
    files', trace' := files, trace;
    ghost var cells := before;
    ghost var done := Tasks(s, before);
    assert before + YearCells(year, qtrRange[..0]) == before;
    var k := 0;
    while k < |qtrRange|
      invariant 0 <= k <= |qtrRange|
      invariant cells == before + YearCells(year, qtrRange[..k])
      invariant done == Tasks(s, cells)
      invariant files' == RunFiles(f0, done, Exists, fetch)
      invariant trace' == Pairs(Requested(f0, done, Exists, fetch), s.delay)
    {
      var qtr := qtrRange[k];
      var t := CellTask(s, Cell(year, qtr));
      TaskStep(f0, done, t, Exists, fetch, s.delay);
      var outcome, effects;
      files', outcome, effects := Ensure(files', t, Exists, fetch, s.delay);
      trace' := trace' + effects;
      YearCellsSnoc(before, year, qtrRange, k);
      TasksSnoc(s, cells, Cell(year, qtr));
      cells := cells + [Cell(year, qtr)];
      done := done + [t];
      k := k + 1;
    }
    assert qtrRange[..k] == qtrRange;
  }

  /**
    One synchronising call over the years from startYear to endYear, each with
    the quarters chosen for it: the filesystem it leaves is the run of the
    schedule's tasks, and its requests and pauses are one GET and one pause
    for each task that was not skipped, in order.
  */
  method DownloadMasterFiles(s: Settings, files: Files, startYear: int, endYear: int, fetch: Fetcher)
    returns (files': Files, trace: seq<Effect>)
    ensures files' == RunFiles(files, Tasks(s, Schedule(startYear, endYear)), Exists, fetch)
    ensures trace == Pairs(Requested(files, Tasks(s, Schedule(startYear, endYear)), Exists, fetch), s.delay)
  {
    files', trace := files, [];
    ghost var cells: seq<Cell> := [];
    var year := startYear;
    while year <= endYear
      invariant startYear <= year && (year == startYear || year <= endYear + 1)
      invariant cells == Grid(startYear, endYear, year - 1)
      invariant files' == RunFiles(files, Tasks(s, cells), Exists, fetch)
      invariant trace == Pairs(Requested(files, Tasks(s, cells), Exists, fetch), s.delay)
    {
      var qtrRange: seq<string>;
      if year == startYear {
        qtrRange := Quarters;
      } else if year == endYear {
        qtrRange := Quarters[..1];
      } else {
        qtrRange := Quarters;
      }
      files', trace := SyncQuarters(s, files', trace, year, qtrRange, fetch, files, cells);
      GridStep(startYear, endYear, year);
      cells := cells + YearCells(year, qtrRange);
      year := year + 1;
    }
    GridAtEnd(startYear, endYear, year);
  }
}
