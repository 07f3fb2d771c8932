/**
  The rate-limited fetch step that the index synchroniser and the filing
  corpus downloader both perform for every unit of work: when the local file
  is already there the unit is skipped with no request and no pause;
  otherwise exactly one GET is made, the body is written only when the
  status is 200, and the rate-limit pause follows whatever the outcome.

  The filesystem is a map from path to content (a file's size is the length
  of its content); the remote service during one run is a function from URL
  to response; the requests and pauses a run makes are recorded as effects.
*/
module Fetching {
  import opened Base

  /** What requests.get gives back: a reply with a status code and a body, or an exception raised before any reply. */
  datatype Response = Reply(status: int, body: string) | TransportError

  predicate IsSuccess(r: Response) { r.Reply? && r.status == 200 }

  /** The remote service during one run: what a GET of each URL returns. */
  type Fetcher = string -> Response

  /** What a run does besides writing files: each GET and each time.sleep, in order. */
  datatype Effect = Get(url: string) | Sleep(seconds: real)

  /** One unit of work: the local file to make present and the URL it is fetched from. */
  datatype Task = Task(path: string, url: string)

  /**
    How a local file is recognised as already there: index files by
    os.path.exists alone, filings by existence and a non-zero size.
  */
  datatype Presence = Exists | NonEmpty

  /** What happened to one task; the three are exclusive. */
  datatype Outcome = Skipped | Downloaded | Failed

  type Files = map<string, string>

  /** The content stored at path p, if any. */
  function At(files: Files, p: string): Option<string> {
    if p in files then Some(files[p]) else None
  }

  /** Whether stored content (or its absence) counts as the file being there. */
  predicate PresentValue(v: Option<string>, presence: Presence) {
    v.Some? && (presence == NonEmpty ==> |v.value| > 0)
  }

  predicate Satisfied(files: Files, p: string, presence: Presence) {
    PresentValue(At(files, p), presence)
  }

  /** A response whose body, once written, makes the file count as there. */
  predicate Yields(r: Response, presence: Presence) {
    IsSuccess(r) && PresentValue(Some(r.body), presence)
  }

  // ---------------------------------------------------------------------------
  // One task

  function StepOutcome(files: Files, t: Task, presence: Presence, fetch: Fetcher): Outcome {
    if Satisfied(files, t.path, presence) then Skipped
    else if IsSuccess(fetch(t.url)) then Downloaded
    else Failed
  }

  /** The filesystem after one task. */
  function Apply(files: Files, t: Task, presence: Presence, fetch: Fetcher): Files {
    if StepOutcome(files, t, presence, fetch) == Downloaded then files[t.path := fetch(t.url).body]
    else files
  }

  // ---------------------------------------------------------------------------
  // A run over a sequence of tasks, in order

  /** The filesystem after the tasks, one after the other. */
  function RunFiles(files: Files, ts: seq<Task>, presence: Presence, fetch: Fetcher): Files {
    if ts == [] then files
    else Apply(RunFiles(files, ts[..|ts| - 1], presence, fetch), ts[|ts| - 1], presence, fetch)
  }

  /** The outcome of each task, in order. */
  function Outcomes(files: Files, ts: seq<Task>, presence: Presence, fetch: Fetcher): seq<Outcome> {
    if ts == [] then []
    else
      var init := ts[..|ts| - 1];
      Outcomes(files, init, presence, fetch) + [StepOutcome(RunFiles(files, init, presence, fetch), ts[|ts| - 1], presence, fetch)]
  }

  /** The URLs requested, in order: one per task that was not skipped. */
  function Requested(files: Files, ts: seq<Task>, presence: Presence, fetch: Fetcher): seq<string> {
    if ts == [] then []
    else
      var init := ts[..|ts| - 1];
      var t := ts[|ts| - 1];
      Requested(files, init, presence, fetch)
        + (if StepOutcome(RunFiles(files, init, presence, fetch), t, presence, fetch) == Skipped then [] else [t.url])
  }

  /** Each requested URL as a GET followed by one pause. */
  function Pairs(urls: seq<string>, delay: real): seq<Effect> {
    if urls == [] then []
    else Pairs(urls[..|urls| - 1], delay) + [Get(urls[|urls| - 1]), Sleep(delay)]
  }

  function Count(os: seq<Outcome>, o: Outcome): (n: nat)
    ensures n <= |os|
  {
    if os == [] then 0 else Count(os[..|os| - 1], o) + (if os[|os| - 1] == o then 1 else 0)
  }

  // ---------------------------------------------------------------------------
  // The effects of a run

  /** Every GET is followed at once by exactly one pause, and the GETs are the requested URLs in order. */
  lemma {:induction false} PairsShape(urls: seq<string>, delay: real)
    ensures |Pairs(urls, delay)| == 2 * |urls|
    ensures forall k :: 0 <= k < |urls| ==>
      Pairs(urls, delay)[2 * k] == Get(urls[k]) && Pairs(urls, delay)[2 * k + 1] == Sleep(delay)
  {
    if urls != [] {
      var init := urls[..|urls| - 1];
      PairsShape(init, delay);
      forall k | 0 <= k < |urls|
        ensures Pairs(urls, delay)[2 * k] == Get(urls[k]) && Pairs(urls, delay)[2 * k + 1] == Sleep(delay)
      {
        if k < |init| {
          assert Pairs(urls, delay)[2 * k] == Pairs(init, delay)[2 * k];
          assert Pairs(urls, delay)[2 * k + 1] == Pairs(init, delay)[2 * k + 1];
        }
      }
    }
  }

  /**
    Every task has exactly one outcome; exactly the tasks that were not
    skipped made a request (no request for a skipped task, no retry for a
    failed one).
  */
  lemma {:induction false} OutcomeCounts(files: Files, ts: seq<Task>, presence: Presence, fetch: Fetcher)
    ensures |Outcomes(files, ts, presence, fetch)| == |ts|
    ensures var os := Outcomes(files, ts, presence, fetch);
      Count(os, Downloaded) + Count(os, Skipped) + Count(os, Failed) == |ts|
    ensures |Requested(files, ts, presence, fetch)| == |ts| - Count(Outcomes(files, ts, presence, fetch), Skipped)
  {
    if ts != [] {
      OutcomeCounts(files, ts[..|ts| - 1], presence, fetch);
    }
  }

  /** The outcome of task i is decided by the filesystem as the earlier tasks left it. */
  lemma {:induction false} OutcomeAt(files: Files, ts: seq<Task>, presence: Presence, fetch: Fetcher, i: nat)
    requires i < |ts|
    ensures |Outcomes(files, ts, presence, fetch)| == |ts|
    ensures Outcomes(files, ts, presence, fetch)[i] == StepOutcome(RunFiles(files, ts[..i], presence, fetch), ts[i], presence, fetch)
  {
    OutcomeCounts(files, ts, presence, fetch);
    var init := ts[..|ts| - 1];
    if i < |ts| - 1 {
      OutcomeAt(files, init, presence, fetch, i);
      assert init[..i] == ts[..i];
    } else {
      OutcomeCounts(files, init, presence, fetch);
      assert ts[..i] == init;
    }
  }

  // ---------------------------------------------------------------------------
  // The filesystem after a run

  lemma {:induction false} RunAppend(files: Files, a: seq<Task>, b: seq<Task>, presence: Presence, fetch: Fetcher)
    ensures RunFiles(files, a + b, presence, fetch) == RunFiles(RunFiles(files, a, presence, fetch), b, presence, fetch)
  {
    if b == [] {
      assert a + b == a;
    } else {
      RunAppend(files, a, b[..|b| - 1], presence, fetch);
      assert (a + b)[..|a + b| - 1] == a + b[..|b| - 1];
    }
  }

  /** One step as seen from a single path. */
  function PathStep(v: Option<string>, t: Task, p: string, presence: Presence, fetch: Fetcher): Option<string> {
    if t.path == p && !PresentValue(v, presence) && IsSuccess(fetch(t.url)) then Some(fetch(t.url).body) else v
  }

  /** A run as seen from a single path. */
  function PathRun(v: Option<string>, ts: seq<Task>, p: string, presence: Presence, fetch: Fetcher): Option<string> {
    if ts == [] then v
    else PathStep(PathRun(v, ts[..|ts| - 1], p, presence, fetch), ts[|ts| - 1], p, presence, fetch)
  }

  /** Some task for path p would write its file if asked. */
  predicate HasWriter(ts: seq<Task>, p: string, fetch: Fetcher) {
    exists i :: 0 <= i < |ts| && ts[i].path == p && IsSuccess(fetch(ts[i].url))
  }

  /** What a run leaves at a path depends only on what was there and on the tasks for that path. */
  lemma {:induction false} AtRun(files: Files, ts: seq<Task>, p: string, presence: Presence, fetch: Fetcher)
    ensures At(RunFiles(files, ts, presence, fetch), p) == PathRun(At(files, p), ts, p, presence, fetch)
  {
    if ts != [] {
      AtRun(files, ts[..|ts| - 1], p, presence, fetch);
    }
  }

  lemma {:induction false} PathRunKeepsPresent(v: Option<string>, ts: seq<Task>, p: string, presence: Presence, fetch: Fetcher)
    requires PresentValue(v, presence)
    ensures PathRun(v, ts, p, presence, fetch) == v
  {
    if ts != [] {
      PathRunKeepsPresent(v, ts[..|ts| - 1], p, presence, fetch);
    }
  }

  /**
    From a path whose file is not there, a run ends in a value that does not
    depend on the starting value when some task for the path can write it,
    and leaves the starting value alone otherwise.
  */
  lemma {:induction false} PathRunFromAbsent(v: Option<string>, w: Option<string>, ts: seq<Task>, p: string, presence: Presence, fetch: Fetcher)
    requires !PresentValue(v, presence) && !PresentValue(w, presence)
    ensures HasWriter(ts, p, fetch) ==> PathRun(v, ts, p, presence, fetch) == PathRun(w, ts, p, presence, fetch)
    ensures !HasWriter(ts, p, fetch) ==> PathRun(v, ts, p, presence, fetch) == v
    decreases |ts|
  {
    if ts != [] {
      var init := ts[..|ts| - 1];
      var t := ts[|ts| - 1];
      PathRunFromAbsent(v, w, init, p, presence, fetch);
      PathRunFromAbsent(w, v, init, p, presence, fetch);
      if HasWriter(init, p, fetch) {
        var i :| 0 <= i < |init| && init[i].path == p && IsSuccess(fetch(init[i].url));
        assert ts[i] == init[i];
      } else if HasWriter(ts, p, fetch) {
        var i :| 0 <= i < |ts| && ts[i].path == p && IsSuccess(fetch(ts[i].url));
        assert t.path == p && IsSuccess(fetch(t.url));
      } else {
        assert ts[|ts| - 1] == t;
      }
    }
  }

  lemma PathRunIdempotent(v: Option<string>, ts: seq<Task>, p: string, presence: Presence, fetch: Fetcher)
    ensures PathRun(PathRun(v, ts, p, presence, fetch), ts, p, presence, fetch) == PathRun(v, ts, p, presence, fetch)
  {
    var once := PathRun(v, ts, p, presence, fetch);
    if PresentValue(v, presence) {
      PathRunKeepsPresent(v, ts, p, presence, fetch);
    } else if PresentValue(once, presence) {
      PathRunKeepsPresent(once, ts, p, presence, fetch);
    } else {
      PathRunFromAbsent(v, once, ts, p, presence, fetch);
      PathRunFromAbsent(once, once, ts, p, presence, fetch);
    }
  }

  /** Two filesystems that agree at every path are the same filesystem. */
  lemma FilesExtensional(a: Files, b: Files)
    requires forall p :: At(a, p) == At(b, p)
    ensures a == b
  {
    assert a.Keys == b.Keys by {
      forall p ensures p in a <==> p in b {
        assert At(a, p) == At(b, p);
      }
    }
    forall p | p in a ensures a[p] == b[p] {
      assert At(a, p) == At(b, p);
    }
  }

  /** Running the same tasks again against the same remote service changes no file. */
  lemma RunIdempotent(files: Files, ts: seq<Task>, presence: Presence, fetch: Fetcher)
    ensures var once := RunFiles(files, ts, presence, fetch);
      RunFiles(once, ts, presence, fetch) == once
  {
    var once := RunFiles(files, ts, presence, fetch);
    var twice := RunFiles(once, ts, presence, fetch);
    forall p ensures At(twice, p) == At(once, p) {
      AtRun(once, ts, p, presence, fetch);
      AtRun(files, ts, p, presence, fetch);
      PathRunIdempotent(At(files, p), ts, p, presence, fetch);
    }
    FilesExtensional(twice, once);
  }

  /**
    A run interrupted after any number of tasks and then restarted over the
    whole list leaves the same files as a run that was never interrupted.
  */
  lemma Resumable(files: Files, ts: seq<Task>, k: nat, presence: Presence, fetch: Fetcher)
    requires k <= |ts|
    ensures RunFiles(RunFiles(files, ts[..k], presence, fetch), ts, presence, fetch) == RunFiles(files, ts, presence, fetch)
  {
    var partial := RunFiles(files, ts[..k], presence, fetch);
    assert ts == ts[..k] + ts[k..];
    RunAppend(partial, ts[..k], ts[k..], presence, fetch);
    RunIdempotent(files, ts[..k], presence, fetch);
    RunAppend(files, ts[..k], ts[k..], presence, fetch);
  }

  /**
    A file that is already there is never fetched again and never changed;
    a path no task names is never touched; and a file that appears or
    changes holds the body of a status-200 reply for a task naming it.
  */
  lemma RunChanges(files: Files, ts: seq<Task>, p: string, presence: Presence, fetch: Fetcher)
    ensures Satisfied(files, p, presence) ==> At(RunFiles(files, ts, presence, fetch), p) == At(files, p)
    ensures (forall i :: 0 <= i < |ts| ==> ts[i].path != p) ==> At(RunFiles(files, ts, presence, fetch), p) == At(files, p)
    ensures At(RunFiles(files, ts, presence, fetch), p) != At(files, p) ==>
      exists i :: 0 <= i < |ts| && ts[i].path == p && IsSuccess(fetch(ts[i].url))
        && At(RunFiles(files, ts, presence, fetch), p) == Some(fetch(ts[i].url).body)
  {
    AtRun(files, ts, p, presence, fetch);
    if Satisfied(files, p, presence) {
      PathRunKeepsPresent(At(files, p), ts, p, presence, fetch);
    }
    PathRunWrites(At(files, p), ts, p, presence, fetch);
  }

  lemma {:induction false} PathRunWrites(v: Option<string>, ts: seq<Task>, p: string, presence: Presence, fetch: Fetcher)
    ensures (forall i :: 0 <= i < |ts| ==> ts[i].path != p) ==> PathRun(v, ts, p, presence, fetch) == v
    ensures PathRun(v, ts, p, presence, fetch) != v ==>
      exists i :: 0 <= i < |ts| && ts[i].path == p && IsSuccess(fetch(ts[i].url))
        && PathRun(v, ts, p, presence, fetch) == Some(fetch(ts[i].url).body)
  {
    if ts != [] {
      var init := ts[..|ts| - 1];
      PathRunWrites(v, init, p, presence, fetch);
      var before := PathRun(v, init, p, presence, fetch);
      if PathRun(v, ts, p, presence, fetch) != before {
        assert ts[|ts| - 1].path == p;
      } else if before != v {
        var i :| 0 <= i < |init| && init[i].path == p && IsSuccess(fetch(init[i].url))
          && before == Some(fetch(init[i].url).body);
        assert ts[i] == init[i];
      }
      if forall i :: 0 <= i < |ts| ==> ts[i].path != p {
        assert forall i :: 0 <= i < |init| ==> init[i] == ts[i];
      }
    }
  }

  /** After a run, every task's file is there, or the reply for it would not make it so. */
  lemma {:induction false} RunSettles(files: Files, ts: seq<Task>, presence: Presence, fetch: Fetcher)
    ensures forall i :: 0 <= i < |ts| ==>
      Satisfied(RunFiles(files, ts, presence, fetch), ts[i].path, presence) || !Yields(fetch(ts[i].url), presence)
  {
    if ts != [] {
      var init := ts[..|ts| - 1];
      var before := RunFiles(files, init, presence, fetch);
      var after := RunFiles(files, ts, presence, fetch);
      RunSettles(files, init, presence, fetch);
      forall i | 0 <= i < |ts|
        ensures Satisfied(after, ts[i].path, presence) || !Yields(fetch(ts[i].url), presence)
      {
        if i < |init| {
          assert ts[i] == init[i];
          if Satisfied(before, ts[i].path, presence) {
            assert At(after, ts[i].path) == At(before, ts[i].path);
          }
        }
      }
    }
  }

  /** The URLs of the tasks whose file is not there. */
  function Missing(files: Files, ts: seq<Task>, presence: Presence): seq<string> {
    if ts == [] then []
    else
      var t := ts[|ts| - 1];
      Missing(files, ts[..|ts| - 1], presence) + (if Satisfied(files, t.path, presence) then [] else [t.url])
  }

  /** Over files that settle every task, a run writes nothing and requests exactly the missing ones. */
  lemma {:induction false} SettledRun(files: Files, ts: seq<Task>, fetch: Fetcher)
    requires forall i :: 0 <= i < |ts| ==> ts[i].path in files || !IsSuccess(fetch(ts[i].url))
    ensures RunFiles(files, ts, Exists, fetch) == files
    ensures Requested(files, ts, Exists, fetch) == Missing(files, ts, Exists)
  {
    if ts != [] {
      var init := ts[..|ts| - 1];
      assert forall i :: 0 <= i < |init| ==> init[i] == ts[i];
      SettledRun(files, init, fetch);
    }
  }

  /**
    With existence as the test (index files), a second run against the same
    remote service requests exactly the files the first run left missing, and
    it makes no request at all exactly when every file is there.
  */
  lemma SecondRunRequests(files: Files, ts: seq<Task>, fetch: Fetcher)
    ensures var once := RunFiles(files, ts, Exists, fetch);
      && Requested(once, ts, Exists, fetch) == Missing(once, ts, Exists)
      && (Requested(once, ts, Exists, fetch) == [] <==> forall i :: 0 <= i < |ts| ==> ts[i].path in once)
  {
    var once := RunFiles(files, ts, Exists, fetch);
    RunSettles(files, ts, Exists, fetch);
    SettledRun(once, ts, fetch);
    MissingEmpty(once, ts, Exists);
  }

  lemma {:induction false} MissingEmpty(files: Files, ts: seq<Task>, presence: Presence)
    ensures Missing(files, ts, presence) == [] <==> forall i :: 0 <= i < |ts| ==> Satisfied(files, ts[i].path, presence)
  {
    if ts != [] {
      var init := ts[..|ts| - 1];
      MissingEmpty(files, init, presence);
      assert forall i :: 0 <= i < |init| ==> init[i] == ts[i];
    }
  }

  /** No two tasks name the same local file. */
  predicate DistinctPaths(ts: seq<Task>) {
    forall i, j :: 0 <= i < j < |ts| ==> ts[i].path != ts[j].path
  }

  /** When no two tasks share a file, exactly the tasks whose file was not there at the start make a request. */
  lemma {:induction false} DistinctRequested(files: Files, ts: seq<Task>, presence: Presence, fetch: Fetcher)
    requires DistinctPaths(ts)
    ensures Requested(files, ts, presence, fetch) == Missing(files, ts, presence)
  {
    if ts != [] {
      var init := ts[..|ts| - 1];
      var t := ts[|ts| - 1];
      DistinctRequested(files, init, presence, fetch);
      assert forall i :: 0 <= i < |init| ==> init[i].path != t.path by {
        forall i | 0 <= i < |init| ensures init[i].path != t.path {
          assert init[i] == ts[i];
        }
      }
      RunChanges(files, init, t.path, presence, fetch);
    }
  }

  /** When no two tasks share a file, each file ends as its own task alone leaves it. */
  lemma DistinctAt(files: Files, ts: seq<Task>, i: nat, presence: Presence, fetch: Fetcher)
    requires DistinctPaths(ts) && i < |ts|
    ensures At(RunFiles(files, ts, presence, fetch), ts[i].path) == PathStep(At(files, ts[i].path), ts[i], ts[i].path, presence, fetch)
  {
    var p := ts[i].path;
    var before := RunFiles(files, ts[..i], presence, fetch);
    var mid := RunFiles(before, [ts[i]], presence, fetch);
    assert ts == ts[..i] + ([ts[i]] + ts[i + 1..]);
    RunAppend(files, ts[..i], [ts[i]] + ts[i + 1..], presence, fetch);
    RunAppend(before, [ts[i]], ts[i + 1..], presence, fetch);
    RunChanges(files, ts[..i], p, presence, fetch);
    RunChanges(mid, ts[i + 1..], p, presence, fetch);
    AtRun(before, [ts[i]], p, presence, fetch);
    assert [ts[i]][..0] == [];
  }

  /**
    Once a task's reply has made its file count as there, every later task
    naming the same file is skipped: a file is fetched at most once per run.
  */
  lemma LaterSameFileSkipped(files: Files, ts: seq<Task>, i: nat, j: nat, presence: Presence, fetch: Fetcher)
    requires i < j < |ts| && ts[i].path == ts[j].path
    requires Yields(fetch(ts[i].url), presence)
    ensures |Outcomes(files, ts, presence, fetch)| == |ts|
    ensures Outcomes(files, ts, presence, fetch)[j] == Skipped
  {
    var p := ts[i].path;
    OutcomeAt(files, ts, presence, fetch, j);
    var upTo := ts[..i + 1];
    assert upTo == ts[..i] + [ts[i]];
    RunSnoc(files, ts[..i], ts[i], presence, fetch);
    var after := RunFiles(files, upTo, presence, fetch);
    assert Satisfied(after, p, presence);
    assert ts[..j] == upTo + ts[i + 1..j];
    RunAppend(files, upTo, ts[i + 1..j], presence, fetch);
    RunChanges(after, ts[i + 1..j], p, presence, fetch);
  }

  lemma CountSnoc(os: seq<Outcome>, o: Outcome, x: Outcome)
    ensures Count(os + [o], x) == Count(os, x) + (if o == x then 1 else 0)
  {
    assert (os + [o])[..|os|] == os;
  }

  // ---------------------------------------------------------------------------
  // One task, step by step

  /**
    One task against the filesystem: skip it when its file is there (for
    filings: there and not empty); otherwise one GET, a write only on status
    200, then one pause. Returns the new filesystem, the outcome and the
    requests and pauses made.
  */
  method Ensure(files: Files, t: Task, presence: Presence, fetch: Fetcher, delay: real)
    returns (after: Files, outcome: Outcome, effects: seq<Effect>)
    ensures outcome == StepOutcome(files, t, presence, fetch)
    ensures after == Apply(files, t, presence, fetch)
    ensures effects == if outcome == Skipped then [] else [Get(t.url), Sleep(delay)]
  {
    after := files;
    var present := t.path in files;
    if present && presence == NonEmpty {
      present := |files[t.path]| > 0;
    }
    if present {
      outcome := Skipped;
      effects := [];
      return;
    }
    effects := [Get(t.url)];
    var response := fetch(t.url);
    if response.Reply? && response.status == 200 {
      after := files[t.path := response.body];
      outcome := Downloaded;
    } else {
      outcome := Failed;
    }
    effects := effects + [Sleep(delay)];
  }

  /** The run over a prefix extended by one task, as the loops of the pipeline see it. */
  lemma RunSnoc(files: Files, done: seq<Task>, t: Task, presence: Presence, fetch: Fetcher)
    ensures RunFiles(files, done + [t], presence, fetch) == Apply(RunFiles(files, done, presence, fetch), t, presence, fetch)
    ensures Outcomes(files, done + [t], presence, fetch)
      == Outcomes(files, done, presence, fetch) + [StepOutcome(RunFiles(files, done, presence, fetch), t, presence, fetch)]
    ensures Requested(files, done + [t], presence, fetch)
      == Requested(files, done, presence, fetch)
        + (if StepOutcome(RunFiles(files, done, presence, fetch), t, presence, fetch) == Skipped then [] else [t.url])
  {
    assert (done + [t])[..|done|] == done;
  }

  lemma PairsSnoc(urls: seq<string>, extra: seq<string>, delay: real)
    requires |extra| <= 1
    ensures Pairs(urls + extra, delay) == Pairs(urls, delay) + (if extra == [] then [] else [Get(extra[0]), Sleep(delay)])
  {
    if extra == [] {
      assert urls + extra == urls;
    } else {
      assert (urls + extra)[..|urls|] == urls;
    }
  }

  /** The run over one more task of ts, as a loop over ts sees it. */
  lemma RunStep(files: Files, ts: seq<Task>, i: nat, presence: Presence, fetch: Fetcher, delay: real)
    requires i < |ts|
    ensures RunFiles(files, ts[..i + 1], presence, fetch) == Apply(RunFiles(files, ts[..i], presence, fetch), ts[i], presence, fetch)
    ensures Outcomes(files, ts[..i + 1], presence, fetch)
      == Outcomes(files, ts[..i], presence, fetch) + [StepOutcome(RunFiles(files, ts[..i], presence, fetch), ts[i], presence, fetch)]
    ensures Pairs(Requested(files, ts[..i + 1], presence, fetch), delay)
      == Pairs(Requested(files, ts[..i], presence, fetch), delay)
        + (if StepOutcome(RunFiles(files, ts[..i], presence, fetch), ts[i], presence, fetch) == Skipped then []
           else [Get(ts[i].url), Sleep(delay)])
  {
    assert ts[..i + 1] == ts[..i] + [ts[i]];
    RunSnoc(files, ts[..i], ts[i], presence, fetch);
    var o := StepOutcome(RunFiles(files, ts[..i], presence, fetch), ts[i], presence, fetch);
    PairsSnoc(Requested(files, ts[..i], presence, fetch), if o == Skipped then [] else [ts[i].url], delay);
  }

  /** A run extended by one task, as a loop that builds its task list sees it. */
  lemma TaskStep(files: Files, done: seq<Task>, t: Task, presence: Presence, fetch: Fetcher, delay: real)
    ensures RunFiles(files, done + [t], presence, fetch) == Apply(RunFiles(files, done, presence, fetch), t, presence, fetch)
    ensures Outcomes(files, done + [t], presence, fetch)
      == Outcomes(files, done, presence, fetch) + [StepOutcome(RunFiles(files, done, presence, fetch), t, presence, fetch)]
    ensures Pairs(Requested(files, done + [t], presence, fetch), delay)
      == Pairs(Requested(files, done, presence, fetch), delay)
        + (if StepOutcome(RunFiles(files, done, presence, fetch), t, presence, fetch) == Skipped then []
           else [Get(t.url), Sleep(delay)])
  {
    RunSnoc(files, done, t, presence, fetch);
    var o := StepOutcome(RunFiles(files, done, presence, fetch), t, presence, fetch);
    PairsSnoc(Requested(files, done, presence, fetch), if o == Skipped then [] else [t.url], delay);
  }
}
