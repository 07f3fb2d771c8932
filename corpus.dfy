/**
  The filing corpus downloader: for every row of the filing list, in order,
  the filing is stored at "{dir}/{cik}/{year}/{form}_{date}.txt", where year is
  the first four characters of the filing date. A file that is there and not
  empty is skipped; otherwise the filing is fetched once, written on status 200,
  and the loop pauses. The class-based downloader counts the rows downloaded,
  skipped and failed; the processor runs the same loop with a fixed pause of
  0.1 seconds right after building the list.
*/
module Corpus {
  import opened Base
  import opened Text
  import opened Fetching
  import opened IndexSync
  import opened FilingList

  /** The pause of the processor's download loop, in seconds. */
  const ProcessorDelay: real := 0.1

  /** The processor's default prefix for filing URLs. */
  const ProcessorBaseUrl: string := "https://www.sec.gov/Archives/"

  /** The local file of one filing. */
  function FilingPath(dir: string, f: Filing): string {
    dir + "/" + f.cik + "/" + Prefix(f.date, 4) + "/" + f.form + "_" + f.date + ".txt"
  }

  function FilingTask(dir: string, f: Filing): Task {
    Task(FilingPath(dir, f), f.url)
  }

  /** One download task per row, in row order. */
  function FilingTasks(dir: string, rows: seq<Filing>): (ts: seq<Task>)
    ensures |ts| == |rows|
  {
    seq(|rows|, i requires 0 <= i < |rows| => FilingTask(dir, rows[i]))
  }

  // ---------------------------------------------------------------------------
  // What a run promises

  /** Two rows of the same company, form and filing date share one local file. */
  lemma SameFilingSamePath(dir: string, f: Filing, g: Filing)
    requires f.cik == g.cik && f.form == g.form && f.date == g.date
    ensures FilingPath(dir, f) == FilingPath(dir, g)
  {
  }

  /**
    A second row for the same company, form and date is never fetched once an
    earlier row's reply has written a non-empty file there, whatever its URL.
  */
  lemma DuplicateRowSkipped(files: Files, dir: string, rows: seq<Filing>, i: nat, j: nat, fetch: Fetcher)
    requires i < j < |rows|
    requires rows[i].cik == rows[j].cik && rows[i].form == rows[j].form && rows[i].date == rows[j].date
    requires IsSuccess(fetch(rows[i].url)) && |fetch(rows[i].url).body| > 0
    ensures |Outcomes(files, FilingTasks(dir, rows), NonEmpty, fetch)| == |rows|
    ensures Outcomes(files, FilingTasks(dir, rows), NonEmpty, fetch)[j] == Skipped
  {
    var ts := FilingTasks(dir, rows);
    SameFilingSamePath(dir, rows[i], rows[j]);
    assert ts[i].path == ts[j].path && ts[i].url == rows[i].url;
    LaterSameFileSkipped(files, ts, i, j, NonEmpty, fetch);
  }

  /**
    After a run, the file of every row is there and not empty, unless the
    reply for that row is not a status 200 with a non-empty body.
  */
  lemma CorpusSettles(files: Files, dir: string, rows: seq<Filing>, fetch: Fetcher, i: nat)
    requires i < |rows|
    requires IsSuccess(fetch(rows[i].url)) && |fetch(rows[i].url).body| > 0
    ensures var after := RunFiles(files, FilingTasks(dir, rows), NonEmpty, fetch);
      FilingPath(dir, rows[i]) in after && |after[FilingPath(dir, rows[i])]| > 0
  {
    var ts := FilingTasks(dir, rows);
    RunSettles(files, ts, NonEmpty, fetch);
    assert ts[i] == FilingTask(dir, rows[i]);
  }

  /** Rerunning the download over the same list and remote service changes no file. */
  lemma CorpusRerunIdempotent(files: Files, dir: string, rows: seq<Filing>, fetch: Fetcher)
    ensures var once := RunFiles(files, FilingTasks(dir, rows), NonEmpty, fetch);
      RunFiles(once, FilingTasks(dir, rows), NonEmpty, fetch) == once
  {
    RunIdempotent(files, FilingTasks(dir, rows), NonEmpty, fetch);
  }

  /**
    A file that is there and not empty is never overwritten, and a file that
    changes holds the body of a status-200 reply for a row naming it.
  */
  lemma CorpusKeepsExisting(files: Files, dir: string, rows: seq<Filing>, fetch: Fetcher, p: string)
    requires p in files && |files[p]| > 0
    ensures var after := RunFiles(files, FilingTasks(dir, rows), NonEmpty, fetch);
      p in after && after[p] == files[p]
  {
    RunChanges(files, FilingTasks(dir, rows), p, NonEmpty, fetch);
  }

  // ---------------------------------------------------------------------------
  // The loop

  /** One row's outcome added to the three counters. */
  method Tally(downloaded: nat, skipped: nat, failed: nat, outcome: Outcome, ghost os: seq<Outcome>)
    returns (downloaded': nat, skipped': nat, failed': nat)
    requires downloaded == Count(os, Downloaded) && skipped == Count(os, Skipped) && failed == Count(os, Failed)
    ensures downloaded' == Count(os + [outcome], Downloaded) && skipped' == Count(os + [outcome], Skipped)
    ensures failed' == Count(os + [outcome], Failed)
  {
    CountSnoc(os, outcome, Downloaded);
    CountSnoc(os, outcome, Skipped);
    CountSnoc(os, outcome, Failed);
    downloaded', skipped', failed' := downloaded, skipped, failed;
    match outcome {
      case Downloaded => downloaded' := downloaded + 1;
      case Skipped => skipped' := skipped + 1;
      case Failed => failed' := failed + 1;
    }
  }

  /**
    The download loop over the rows. Returns the new filesystem, the requests
    and pauses made, and the three counters: rows downloaded (status 200),
    skipped (file there and not empty) and failed (any other status or a
    transport error).
  */
  method DownloadFilings(files: Files, rows: seq<Filing>, dir: string, delay: real, fetch: Fetcher)
    returns (files': Files, trace: seq<Effect>, downloaded: nat, skipped: nat, failed: nat)
    ensures files' == RunFiles(files, FilingTasks(dir, rows), NonEmpty, fetch)
    ensures trace == Pairs(Requested(files, FilingTasks(dir, rows), NonEmpty, fetch), delay)
    ensures var os := Outcomes(files, FilingTasks(dir, rows), NonEmpty, fetch);
      downloaded == Count(os, Downloaded) && skipped == Count(os, Skipped) && failed == Count(os, Failed)
    ensures downloaded + skipped + failed == |rows|
    ensures |trace| == 2 * (|rows| - skipped)
  {
    ghost var ts := FilingTasks(dir, rows);
    files', trace := files, [];
    downloaded, skipped, failed := 0, 0, 0;
    var i := 0;
    while i < |rows|
      invariant 0 <= i <= |rows|
      invariant files' == RunFiles(files, ts[..i], NonEmpty, fetch)
      invariant trace == Pairs(Requested(files, ts[..i], NonEmpty, fetch), delay)
      invariant var os := Outcomes(files, ts[..i], NonEmpty, fetch);
        downloaded == Count(os, Downloaded) && skipped == Count(os, Skipped) && failed == Count(os, Failed)
    {
      var t := FilingTask(dir, rows[i]);
      assert t == ts[i];
      RunStep(files, ts, i, NonEmpty, fetch, delay);
      ghost var os := Outcomes(files, ts[..i], NonEmpty, fetch);
      var outcome, effects;
      files', outcome, effects := Ensure(files', t, NonEmpty, fetch, delay);
      downloaded, skipped, failed := Tally(downloaded, skipped, failed, outcome, os);
      trace := trace + effects;
      i := i + 1;
    }
    assert ts[..i] == ts;
    OutcomeCounts(files, ts, NonEmpty, fetch);
    PairsShape(Requested(files, ts, NonEmpty, fetch), delay);
  }

  /**
    The processor's pipeline: build the filing list from the index files of
    1994 to 2025, then download every listed filing with a 0.1 second pause.
  */
  method GenerateAndDownloadFilings(files: Files, idxDir: string, downloadDir: string, baseUrl: string, fetch: Fetcher)
    returns (filings: seq<Filing>, files': Files, trace: seq<Effect>)
    ensures filings == FilingsList(files, idxDir, baseUrl, ProcessorFirstYear)
    ensures files' == RunFiles(files, FilingTasks(downloadDir, filings), NonEmpty, fetch)
    ensures trace == Pairs(Requested(files, FilingTasks(downloadDir, filings), NonEmpty, fetch), ProcessorDelay)
  {
    filings := BuildFilingsList(files, idxDir, baseUrl, ProcessorFirstYear);
    var downloaded, skipped, failed;
    files', trace, downloaded, skipped, failed := DownloadFilings(files, filings, downloadDir, ProcessorDelay, fetch);
  }
}
