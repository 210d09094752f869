/** The fail-closed executor of ext4 fault jobs: it runs a shell test until its cut marker, preserves
    crash and replay images, and writes a result manifest only after every recovery, check, matrix
    and oracle step succeeded. Subprocesses are arbitrary: they may fail to launch, exit with any
    code and change any file. File digests are compared as the contents they stand for. */
module FaultExecutor {
  import opened Options

  type Path = string

  /** Any file a tool writes is a blob; only the executor writes manifests. */
  datatype Content = Blob(data: nat) | Manifest

  type Files = map<Path, Content>

  datatype Arg = Text(text: string) | File(path: Path)

  datatype Response = Response(launched: bool, exit: int, confirmed: bool, output: nat,
                               writes: map<Path, nat>, deletes: set<Path>)

  datatype Step =
    | ShellTest
    | Recover(start: Option<Content>)
    | Check(args: seq<Arg>)
    | Matrix(id: string, image: Path, before: Option<Content>, replay: Option<Content>)
    | Oracle(id: string, image: Path, before: Option<Content>, replay: Option<Content>)

  /** A subprocess on record: what it was for, how it came out, and the files before and after it. */
  datatype Event = Event(step: Step, response: Response, before: Files, after: Files)

  /** What the executor asks of its surroundings. */
  datatype Question =
    | MayRun
    | MatrixReady
    | OraclesReady
    | ShellCommand
    | CutObserved
    | RecoveryRunner
    | CheckTool(index: nat)
    | EntryTool(id: string)
    | OracleRunner
    | Copied(source: Path, target: Path)

  datatype Answer = Answer(question: Question, yes: bool)

  datatype CheckDecl = CheckDecl(tool: string, wellFormed: bool, args: seq<Arg>, log: Path)

  datatype Entry = Entry(id: string, valid: bool, image: Path, log: Path, attemptLogs: seq<Path>, args: seq<Arg>, request: Path)

  datatype Job = Job(scratch: Path, staged: seq<Path>, sources: seq<Path>, hasRoleImages: bool, serialLog: Path,
                     crash: Path, replay: Path, recoveryLog: Path, attemptLogs: seq<Path>, result: Path,
                     checks: seq<CheckDecl>, matrix: Option<seq<Entry>>, oracles: Option<seq<Entry>>)

  /** Three roles, each with a source image and a staged copy, scratch among them. */
  ghost predicate WellFormed(job: Job) {
    && |job.staged| == 3 && |job.sources| == 3 && job.scratch == job.staged[1] && |job.attemptLogs| == 3
    && (job.matrix.Some? ==> forall e :: e in job.matrix.value ==> |e.attemptLogs| == 3)
  }

  /** Refused: the plan records a reason and no evidence is written. Raised: the executor gives up
      with an error. */
  datatype Outcome = Done | Refused | Raised

  function Get(fs: Files, p: Path): Option<Content> {
    if p in fs then Some(fs[p]) else None
  }

  /** The file system after a subprocess. */
  function Apply(fs: Files, r: Response): Files {
    (fs - r.deletes) + map p | p in r.writes :: Blob(r.writes[p])
  }

  /** The file system after moving `log` to `saved`. */
  function SavedLog(fs: Files, log: Path, saved: Path): Files {
    if log in fs then fs[saved := fs[log]] - ({log} - {saved}) else fs
  }

  /** Saving a failed attempt's log replaces whatever lies at the saved path without asking: another
      file keeps its contents exactly when it is not that path or holds the log's own contents. */
  lemma SavingALogKeeps(fs: Files, log: Path, saved: Path, p: Path)
    requires log in fs && p in fs && p != log
    ensures Get(SavedLog(fs, log, saved), p) == Get(fs, p) <==> saved != p || fs[log] == fs[p]
  {}

  ghost predicate Succeeded(e: Event) { e.response.launched && e.response.exit == 0 }

  // What the evidence consists of

  ghost predicate ShellOk(s: seq<Event>) {
    && 1 <= |s| <= 3
    && (forall i :: 0 <= i < |s| ==> s[i].step == ShellTest && s[i].response.launched)
    && (forall i :: 0 <= i < |s| ==> ((s[i].response.exit == 0 && s[i].response.confirmed) <==> i == |s| - 1))
  }

  /** Between two shell tests: the serial log is gone, every other role image holds what its source held, and
      nothing else has changed. */
  ghost predicate Retried(job: Job, was: Files, now: Files)
    requires WellFormed(job)
  {
    && job.serialLog !in now
    && (SourcesApart(job) ==>
          forall k :: 0 <= k < 3 && job.staged[k] != job.serialLog ==>
            Get(now, job.staged[k]).Some? && Get(now, job.staged[k]) == Get(was, job.sources[k]))
    && now - (Staged(job) + {job.serialLog}) == was - (Staged(job) + {job.serialLog})
  }

  ghost predicate Ran(e: Event) { e.after == if e.response.launched then Apply(e.before, e.response) else e.before }

  /** Shell tests from these files on, every retry on freshly staged images. */
  ghost predicate ShellRun(job: Job, start: Files, s: seq<Event>)
    requires WellFormed(job)
  {
    && (s != [] ==> s[0].before == start)
    && (forall i :: 0 <= i < |s| ==> Ran(s[i]))
    && (forall i :: 1 <= i < |s| ==> Retried(job, s[i - 1].after, s[i].before))
  }

  lemma RetryIsFresh(job: Job, was: Files, staged: Files)
    requires WellFormed(job) && staged - Staged(job) == was - Staged(job)
    requires SourcesApart(job) ==> StagedFrom(job, staged, was, 3)
    ensures Retried(job, was, staged - {job.serialLog})
  {
    var both := Staged(job) + {job.serialLog};
    var now := staged - {job.serialLog};
    assert now - both == (staged - Staged(job)) - {job.serialLog};
    assert was - both == (was - Staged(job)) - {job.serialLog};
  }

  /** Between one and three recovery attempts, of which exactly the last succeeded. */
  ghost predicate RecoveryOk(s: seq<Event>) {
    && 1 <= |s| <= 3
    && (forall i :: 0 <= i < |s| ==> s[i].step.Recover? && s[i].response.launched)
    && (forall i :: 0 <= i < |s| ==> (s[i].response.exit == 0 <==> i == |s| - 1))
  }

  /** No recovery attempt touched the preserved crash image. */
  ghost predicate CrashSpared(job: Job, s: seq<Event>) {
    forall i :: 0 <= i < |s| ==> job.crash !in s[i].response.writes && job.crash !in s[i].response.deletes
  }

  // The recovery stage as a history of its attempts

  /** The files after a failed attempt, whose log has just been written: the log is moved away, and a
      replay image other than the one compared with is replaced by the crash image, if there is one. */
  function CleanedUp(job: Job, logged: Files, saved: Path, initial: Option<Content>): (fs: Files) {
    var moved := SavedLog(logged, job.recoveryLog, saved);
    if Get(logged, job.replay) == initial || job.crash !in moved then moved else moved[job.replay := moved[job.crash]]
  }

  /** What the next attempt's image is compared with. */
  function Compared(job: Job, logged: Files, saved: Path, initial: Option<Content>): (c: Option<Content>) {
    if Get(logged, job.replay) == initial then initial else Get(CleanedUp(job, logged, saved, initial), job.replay)
  }

  ghost function Logged(job: Job, e: Event): (fs: Files) { e.after[job.recoveryLog := Blob(e.response.output)] }

  /** Another attempt follows only when a changed image can be restored. */
  ghost predicate Continues(job: Job, e: Event, saved: Path, initial: Option<Content>) {
    && e.response.launched && e.response.exit != 0
    && (Get(Logged(job, e), job.replay) == initial || job.crash in SavedLog(Logged(job, e), job.recoveryLog, saved))
  }

  /** Files and compared contents when all attempts of s have failed and been cleaned up after. */
  ghost function Stand(job: Job, start: Files, s: seq<Event>): (r: (Files, Option<Content>))
    requires |s| <= |job.attemptLogs|
  {
    if s == [] then (start, Get(start, job.replay))
    else
      var k := |s| - 1;
      var initial := Stand(job, start, s[..k]).1;
      (CleanedUp(job, Logged(job, s[k]), job.attemptLogs[k], initial), Compared(job, Logged(job, s[k]), job.attemptLogs[k], initial))
  }

  ghost predicate AttemptAt(job: Job, start: Files, s: seq<Event>, i: nat)
    requires i < |s| <= |job.attemptLogs|
  {
    var (fs, initial) := Stand(job, start, s[..i]);
    && s[i].before == fs && s[i].step == Recover(Get(fs, job.replay))
    && s[i].after == (if s[i].response.launched then Apply(fs, s[i].response) else fs)
    && (i < |s| - 1 ==> Continues(job, s[i], job.attemptLogs[i], initial))
  }

  /** Attempts from these files on, each on what the one before it left behind. */
  ghost predicate RecoveryRun(job: Job, start: Files, s: seq<Event>) {
    |s| <= |job.attemptLogs| && forall i :: 0 <= i < |s| ==> AttemptAt(job, start, s, i)
  }

  /** An attempt after which the next one starts on the image again: it left the replay image alone and its
      log is not saved over it, or it left the crash image alone and its log is not saved over that. */
  ghost predicate Restarts(job: Job, e: Event, saved: Path, image: Content) {
    if Get(e.after, job.replay) == Some(image) then saved != job.replay || Blob(e.response.output) == image
    else if saved == job.crash then Blob(e.response.output) == image
    else Get(e.after, job.crash) == Some(image)
  }

  ghost predicate AllRestart(job: Job, s: seq<Event>, image: Content) {
    |s| <= |job.attemptLogs| && forall i :: 0 <= i < |s| - 1 ==> Restarts(job, s[i], job.attemptLogs[i], image)
  }

  /** Both images are there, hold this, and the recovery log is a file of its own. */
  ghost predicate Ready(job: Job, fs: Files, image: Content) {
    && job.crash != job.replay && job.recoveryLog !in fs
    && Get(fs, job.crash) == Some(image) && Get(fs, job.replay) == Some(image)
  }

  /** One attempt that starts on the image: the next does too exactly when it restarts. */
  lemma RestartStep(job: Job, e: Event, saved: Path, image: Content)
    requires job.recoveryLog != job.crash && job.recoveryLog != job.replay && job.crash != job.replay
    requires Continues(job, e, saved, Some(image))
    ensures Get(CleanedUp(job, Logged(job, e), saved, Some(image)), job.replay) == Some(image) <==> Restarts(job, e, saved, image)
    ensures Restarts(job, e, saved, image) ==> Compared(job, Logged(job, e), saved, Some(image)) == Some(image)
  {}

  lemma {:induction false} StandsOnImage(job: Job, start: Files, s: seq<Event>, image: Content, k: nat)
    requires RecoveryRun(job, start, s) && Ready(job, start, image) && k < |s|
    requires forall i :: 0 <= i < k ==> Restarts(job, s[i], job.attemptLogs[i], image)
    ensures Get(Stand(job, start, s[..k]).0, job.replay) == Some(image) && Stand(job, start, s[..k]).1 == Some(image)
  {
    hide CleanedUp, Compared, Logged, Restarts;
    if k > 0 {
      StandsOnImage(job, start, s, image, k - 1);
      assert s[..k][..k - 1] == s[..k - 1];
      assert AttemptAt(job, start, s, k - 1);
      RestartStep(job, s[k - 1], job.attemptLogs[k - 1], image);
    }
  }

  lemma {:induction false} StartsTell(job: Job, start: Files, s: seq<Event>, image: Content, k: nat)
    requires RecoveryRun(job, start, s) && Ready(job, start, image) && StartsOn(s, image) && k < |s|
    ensures forall i :: 0 <= i < k ==> Restarts(job, s[i], job.attemptLogs[i], image)
  {
    hide CleanedUp, Compared, Logged, Restarts;
    if k > 0 {
      StartsTell(job, start, s, image, k - 1);
      StandsOnImage(job, start, s, image, k - 1);
      assert s[..k][..k - 1] == s[..k - 1];
      assert AttemptAt(job, start, s, k - 1) && AttemptAt(job, start, s, k);
      RestartStep(job, s[k - 1], job.attemptLogs[k - 1], image);
    }
  }

  /** Every attempt starts on the preserved image exactly when every attempt but the last left the replay
      image, or else the crash image, as it was and no log was saved over what it left. */
  lemma StartsOnIff(job: Job, start: Files, s: seq<Event>, image: Content)
    requires RecoveryRun(job, start, s) && Ready(job, start, image)
    ensures StartsOn(s, image) <==> AllRestart(job, s, image)
  {
    hide Restarts, Stand;
    if StartsOn(s, image) && s != [] {
      StartsTell(job, start, s, image, |s| - 1);
    }
    if AllRestart(job, s, image) {
      forall i | 0 <= i < |s| ensures s[i].step == Recover(Some(image)) {
        StandsOnImage(job, start, s, image, i);
        assert AttemptAt(job, start, s, i);
      }
    }
  }

  /** Saving a failed attempt's log cannot hit either preserved image. */
  predicate LogsApart(job: Job) {
    job.crash !in job.attemptLogs && job.replay !in job.attemptLogs
  }

  /** Then only the images themselves matter. */
  lemma RestartsApart(job: Job, e: Event, i: nat, image: Content)
    requires LogsApart(job) && i < |job.attemptLogs|
    ensures Restarts(job, e, job.attemptLogs[i], image)
            <==> Get(e.after, job.replay) == Some(image) || Get(e.after, job.crash) == Some(image)
  {
    assert job.attemptLogs[i] in job.attemptLogs;
  }

  /** As long as no process touches the crash image and no log is saved over an image, both stay. */
  lemma {:induction false} CrashStays(job: Job, start: Files, s: seq<Event>, image: Content, k: nat)
    requires RecoveryRun(job, start, s) && Ready(job, start, image) && LogsApart(job) && CrashSpared(job, s) && k < |s|
    ensures Get(s[k].after, job.crash) == Some(image) && Get(Stand(job, start, s[..k]).0, job.crash) == Some(image)
  {
    hide Apply, Restarts;
    assert AttemptAt(job, start, s, k);
    if k > 0 {
      CrashStays(job, start, s, image, k - 1);
      assert s[..k][..k - 1] == s[..k - 1];
      assert job.attemptLogs[k - 1] in job.attemptLogs;
    }
    ApplyKeeps(s[k].before, s[k].response, job.crash);
  }

  lemma SparedStarts(job: Job, start: Files, s: seq<Event>, image: Content)
    requires RecoveryRun(job, start, s) && Ready(job, start, image) && LogsApart(job) && CrashSpared(job, s)
    ensures StartsOn(s, image)
  {
    hide Restarts, Stand, CrashSpared, LogsApart, Ready, StartsOn;
    forall i | 0 <= i < |s| - 1 ensures Restarts(job, s[i], job.attemptLogs[i], image) {
      CrashStays(job, start, s, image, i);
      RestartsApart(job, s[i], i, image);
    }
    StartsOnIff(job, start, s, image);
  }

  /** Everything known of a run of attempts. */
  lemma RunFacts(job: Job, start: Files, s: seq<Event>, image: Content)
    requires RecoveryRun(job, start, s) && Ready(job, start, image)
    ensures StartsOn(s, image) <==> AllRestart(job, s, image)
    ensures LogsApart(job) && CrashSpared(job, s) ==> StartsOn(s, image)
  {
    hide *;
    StartsOnIff(job, start, s, image);
    if LogsApart(job) && CrashSpared(job, s) {
      SparedStarts(job, start, s, image);
    }
  }

  lemma NoAttempts(job: Job, start: Files, image: Content)
    ensures RecoveryRun(job, start, []) && AllContinue(job, start, []) && StartsOn([], image) && AllRestart(job, [], image)
    ensures Stand(job, start, []) == (start, Get(start, job.replay))
  {}

  /** Attempts that all failed and were all cleaned up after. */
  ghost predicate AllContinue(job: Job, start: Files, s: seq<Event>) {
    && RecoveryRun(job, start, s)
    && (s != [] ==> Continues(job, s[|s| - 1], job.attemptLogs[|s| - 1], Stand(job, start, s[..|s| - 1]).1))
  }

  /** One more attempt on what they left behind. */
  ghost predicate Follows(job: Job, fs: Files, e: Event) {
    && e.before == fs && e.step == Recover(Get(fs, job.replay))
    && e.after == if e.response.launched then Apply(fs, e.response) else fs
  }

  lemma IsRun(job: Job, start: Files, s: seq<Event>)
    requires AllContinue(job, start, s)
    ensures RecoveryRun(job, start, s)
  {}

  lemma OneAttempt(job: Job, start: Files, s: seq<Event>, e: Event)
    requires |s| < |job.attemptLogs| && AllContinue(job, start, s) && Follows(job, Stand(job, start, s).0, e)
    ensures RecoveryRun(job, start, s + [e])
  {
    hide Stand, Continues, Apply;
    var t := s + [e];
    forall i | 0 <= i < |t| ensures AttemptAt(job, start, t, i) {
      assert t[..i] == s[..i];
      if i < |s| {
        assert AttemptAt(job, start, s, i);
      } else {
        assert s[..i] == s;
      }
    }
  }

  lemma FailedAttempt(job: Job, start: Files, s: seq<Event>, e: Event)
    requires |s| < |job.attemptLogs| && RecoveryRun(job, start, s + [e])
    requires Continues(job, e, job.attemptLogs[|s|], Stand(job, start, s).1)
    ensures AllContinue(job, start, s + [e])
    ensures var initial, saved := Stand(job, start, s).1, job.attemptLogs[|s|];
            Stand(job, start, s + [e]) == (CleanedUp(job, Logged(job, e), saved, initial), Compared(job, Logged(job, e), saved, initial))
  {
    hide Continues, CleanedUp, Compared, Logged, RecoveryRun;
    assert (s + [e])[..|s|] == s;
  }

  /** The second attempt after a first one that came out like this. */
  ghost function SecondAttempt(job: Job, start: Files, r: Response): (s: seq<Event>)
    requires |job.attemptLogs| >= 2
  {
    var first := Event(Recover(Get(start, job.replay)), r, start, Apply(start, r));
    var fs := CleanedUp(job, Logged(job, first), job.attemptLogs[0], Get(start, job.replay));
    [first, Event(Recover(Get(fs, job.replay)), r, fs, Apply(fs, r))]
  }

  lemma SecondAttemptRuns(job: Job, start: Files, r: Response)
    requires |job.attemptLogs| >= 2 && r.launched
    requires Continues(job, SecondAttempt(job, start, r)[0], job.attemptLogs[0], Get(start, job.replay))
    ensures RecoveryRun(job, start, SecondAttempt(job, start, r))
  {
    hide CleanedUp, Continues, Logged, Apply;
    var s := SecondAttempt(job, start, r);
    assert s[..0] == [];
    assert s[..1] == [s[0]] && s[..1][..0] == [];
    assert AttemptAt(job, start, s, 0) && AttemptAt(job, start, s, 1);
  }

  /** The promise fails: an attempt that exits with an error and writes both images makes the next one start
      on something else, whatever the job. */
  lemma BothWritten(job: Job, start: Files, image: Content, other: nat) returns (s: seq<Event>)
    requires |job.attemptLogs| >= 2 && Ready(job, start, image) && LogsApart(job) && Blob(other) != image
    ensures RecoveryRun(job, start, s) && |s| == 2 && s[1].step == Recover(Some(Blob(other))) && !StartsOn(s, image)
    ensures s[0].response == Response(true, 1, false, 0, map[job.crash := other, job.replay := other], {})
  {
    var r := Response(true, 1, false, 0, map[job.crash := other, job.replay := other], {});
    s := SecondAttempt(job, start, r);
    assert job.attemptLogs[0] in job.attemptLogs;
    SecondAttemptRuns(job, start, r);
    assert s[1].step == Recover(Some(Blob(other)));
  }

  /** And so does an attempt that changes no image but whose log is saved over the replay image. */
  lemma LogOverImage(job: Job, start: Files, image: Content, output: nat) returns (s: seq<Event>)
    requires |job.attemptLogs| >= 2 && Ready(job, start, image) && Blob(output) != image
    requires job.attemptLogs[0] == job.replay
    ensures RecoveryRun(job, start, s) && |s| == 2 && s[1].step == Recover(Some(Blob(output))) && !StartsOn(s, image)
    ensures s[0].response.writes == map[] && s[0].response.deletes == {}
  {
    var r := Response(true, 1, false, output, map[], {});
    s := SecondAttempt(job, start, r);
    SecondAttemptRuns(job, start, r);
    assert s[1].step == Recover(Some(Blob(output)));
  }

  /** No role image is staged over a source. */
  predicate SourcesApart(job: Job) { forall i :: 0 <= i < |job.sources| ==> job.sources[i] !in job.staged }

  function Staged(job: Job): set<Path> { set p | p in job.staged }

  /** The first n staged images hold what their sources held. */
  ghost predicate StagedFrom(job: Job, fs: Files, was: Files, n: nat)
    requires WellFormed(job)
  {
    forall k :: 0 <= k < n && k < 3 ==> Get(fs, job.staged[k]).Some? && Get(fs, job.staged[k]) == Get(was, job.sources[k])
  }

  lemma MinusKeeps(fs: Files, job: Job)
    ensures (fs - Staged(job)) - Staged(job) == fs - Staged(job)
    ensures NoManifest(fs) ==> NoManifest(fs - Staged(job))
  {}

  /** A copy touches nothing but its target. */
  lemma Elsewhere(a: Files, b: Files, target: Path, s: set<Path>)
    requires target in s && (b - {target} == a - {target} || (target in b && b == a[target := b[target]]))
    ensures b - s == a - s
  {
    assert forall p :: p !in s && p in a ==> p in a - {target} && (a - {target})[p] == a[p];
    assert forall p :: p !in s && p in b ==> p in b - {target} && (b - {target})[p] == b[p];
    assert b - {target} == a - {target};
  }

  lemma StagedOneMore(job: Job, was: Files, a: Files, b: Files, i: nat)
    requires WellFormed(job) && i < 3 && a - Staged(job) == was - Staged(job)
    requires job.staged[i] !in a && job.sources[i] in a && b == a[job.staged[i] := a[job.sources[i]]]
    ensures SourcesApart(job) && StagedFrom(job, a, was, i) ==> StagedFrom(job, b, was, i + 1)
  {
    var src := job.sources[i];
    if SourcesApart(job) {
      assert src !in Staged(job);
      assert src in a - Staged(job) && (a - Staged(job))[src] == a[src];
      assert src in was - Staged(job) && (was - Staged(job))[src] == was[src];
    }
  }

  ghost predicate StartsOn(s: seq<Event>, image: Content) {
    forall i :: 0 <= i < |s| ==> s[i].step == Recover(Some(image))
  }

  predicate DeclaredOk(c: CheckDecl, replay: Path) {
    c.tool == "e2fsck" && c.wellFormed && c.args == [Text("-fn"), File(replay)]
  }

  ghost predicate ChecksOk(job: Job, s: seq<Event>) {
    && |s| == |job.checks| > 0
    && (forall i :: 0 <= i < |s| ==>
          job.checks[i].tool == "e2fsck" && job.checks[i].wellFormed && job.checks[i].args == [Text("-fn"), File(job.replay)])
    && (forall i :: 0 <= i < |s| ==> s[i].step == Check([Text("-fn"), File(job.replay)]) && Succeeded(s[i]))
  }

  /** Checks from these files on, each on what the one before it and its log left. */
  ghost predicate CheckRun(job: Job, start: Files, s: seq<Event>) {
    && |s| <= |job.checks|
    && (s != [] ==> s[0].before == start)
    && (forall i :: 1 <= i < |s| ==> s[i].before == s[i - 1].after[job.checks[i - 1].log := Blob(s[i - 1].response.output)])
  }

  /** The files when all checks are done. */
  ghost function Checked(job: Job, s: seq<Event>): (fs: Files)
    requires 1 <= |s| <= |job.checks|
  {
    s[|s| - 1].after[job.checks[|s| - 1].log := Blob(s[|s| - 1].response.output)]
  }

  /** One matrix entry: a single successful run, or for tx-remount up to two failed ones before it, every retry on
      a fresh copy of the replay image with the log of the failed run saved and out of the way. */
  ghost predicate EntryOk(e: Entry, s: seq<Event>) {
    && e.id in ["linux-rw-replay", "linux-post-replay-e2fsck", "tx-remount"]
    && (e.id == "linux-post-replay-e2fsck" ==> e.args == [Text("-fn"), File(e.image)])
    && 1 <= |s| <= (if e.id == "tx-remount" then 3 else 1)
    && EntryRuns(e, s) && Succeeded(s[|s| - 1])
  }

  ghost predicate EntryRuns(e: Entry, s: seq<Event>) {
    && (forall i :: 0 <= i < |s| ==> s[i].step.Matrix? && s[i].step.id == e.id && s[i].step.image == e.image)
    && (forall i :: 1 <= i < |s| ==> s[i].step.before == s[i].step.replay && s[i].step.before.Some?)
    && (forall i :: 1 <= i < |s| && i <= |e.attemptLogs| ==> LogSaved(e, e.attemptLogs[i - 1], s[i - 1], s[i].before))
  }

  lemma OneMoreRun(e: Entry, s: seq<Event>, run: Event)
    requires EntryRuns(e, s) && run.step.Matrix? && run.step.id == e.id && run.step.image == e.image
    requires s != [] ==> run.step.before == run.step.replay && run.step.before.Some?
    requires 1 <= |s| <= |e.attemptLogs| ==> LogSaved(e, e.attemptLogs[|s| - 1], s[|s| - 1], run.before)
    ensures EntryRuns(e, s + [run])
  {
    hide LogSaved;
  }

  ghost predicate LogSaved(e: Entry, saved: Path, was: Event, now: Files) {
    && (e.log != e.image ==> e.log !in now)
    && (was.response.launched && saved !in [e.image, e.log] ==> Get(now, saved) == Some(Blob(was.response.output)))
  }

  ghost predicate MatrixOk(job: Job, m: seq<seq<Event>>) {
    match job.matrix
    case None => m == []
    case Some(es) =>
      |m| == |es| > 0 && forall i :: 0 <= i < |m| ==> es[i].valid && es[i].image != job.replay && EntryOk(es[i], m[i])
  }

  ghost predicate OracleRunOk(job: Job, e: Entry, ev: Event) {
    && e.valid && e.image != job.replay
    && ev.step.Oracle? && ev.step.id == e.id && ev.step.image == e.image
    && ev.step.before == ev.step.replay && ev.step.before.Some?
    && e.request in ev.before && e.log in ev.after
    && Succeeded(ev)
  }

  /** Every oracle ran on its own fresh copy of the replay image, with its request, and left its log. */
  ghost predicate OraclesOk(job: Job, s: seq<Event>) {
    match job.oracles
    case None => s == []
    case Some(es) =>
      && |s| == |es| > 0
      && forall i :: 0 <= i < |s| ==> OracleRunOk(job, es[i], s[i])
  }

  datatype Evidence = Evidence(image: Content, shell: seq<Event>, recovery: seq<Event>, checks: seq<Event>,
                               matrix: seq<seq<Event>>, oracles: seq<Event>)

  ghost function Concat(m: seq<seq<Event>>): seq<Event> {
    if m == [] then [] else Concat(m[..|m| - 1]) + m[|m| - 1]
  }

  lemma ConcatSnoc(m: seq<seq<Event>>, s: seq<Event>)
    ensures Concat(m + [s]) == Concat(m) + s
  {
    assert (m + [s])[..|m|] == m;
  }

  ghost function History(ev: Evidence): seq<Event> {
    ev.shell + ev.recovery + ev.checks + Concat(ev.matrix) + ev.oracles
  }

  /** The scratch image as the confirmed shell test left it is the image both preserved paths held when
      recovery began. */
  ghost predicate Preserved(job: Job, ev: Evidence) {
    && ev.shell != [] && ev.recovery != []
    && Get(ev.shell[|ev.shell| - 1].after, job.scratch) == Some(ev.image)
    && job.serialLog in ev.shell[|ev.shell| - 1].after && AllStaged(job, ev.shell[|ev.shell| - 1].after)
    && ev.recovery[0].before == Kept(job, ev.shell[|ev.shell| - 1].after, ev.image)
    && Ready(job, ev.recovery[0].before, ev.image)
  }

  /** Every role image is there, unless the crash or replay path takes its place. */
  ghost predicate AllStaged(job: Job, fs: Files) { forall p :: p in job.staged ==> p in fs || p == job.crash || p == job.replay }

  /** The files after preserving: two copies of the scratch image more, and no staged image. */
  ghost function Kept(job: Job, fs: Files, image: Content): (kept: Files) {
    fs[job.crash := image][job.replay := image] - Staged(job)
  }

  /** Recovery, checks, matrix and oracles from these files on, all successful. */
  ghost predicate Verified(job: Job, start: Files, ev: Evidence) {
    && RecoveryOk(ev.recovery) && ev.recovery[0].before == start && Ready(job, start, ev.image) && RecoveryRun(job, start, ev.recovery)
    && (StartsOn(ev.recovery, ev.image) <==> AllRestart(job, ev.recovery, ev.image))
    && (LogsApart(job) && CrashSpared(job, ev.recovery) ==> StartsOn(ev.recovery, ev.image))
    && ChecksOk(job, ev.checks) && CheckRun(job, Logged(job, ev.recovery[|ev.recovery| - 1]), ev.checks)
    && MatrixOk(job, ev.matrix) && NoMatrixImage(job, Checked(job, ev.checks))
    && OraclesOk(job, ev.oracles)
  }

  /** The evidence behind a manifest. */
  ghost predicate Complete(job: Job, ev: Evidence)
    requires WellFormed(job)
  {
    && ShellOk(ev.shell) && ShellRun(job, ev.shell[0].before, ev.shell)
    && Preserved(job, ev)
    && Verified(job, ev.recovery[0].before, ev)
  }

  ghost predicate NoMatrixImage(job: Job, fs: Files) {
    job.matrix.Some? ==> forall e :: e in job.matrix.value ==> e.image !in fs
  }

  // Why a run ends without a manifest

  datatype Cause = NoCause | Denied(question: Question) | Failed(event: Event) | Missing(path: Path) | InTheWay(path: Path) | BadPlan

  ghost predicate Failing(e: Event) {
    || !e.response.launched || e.response.exit != 0
    || (e.step.ShellTest? && !e.response.confirmed)
    || (e.step.Matrix? && e.step.image !in e.after)
  }

  predicate EntryPlanned(job: Job, e: Entry) {
    && e.valid && e.image != job.replay
    && e.id in ["linux-rw-replay", "linux-post-replay-e2fsck", "tx-remount"]
    && (e.id == "linux-post-replay-e2fsck" ==> e.args == [Text("-fn"), File(e.image)])
  }

  /** A plan every part of which can be carried out. */
  ghost predicate GoodPlan(job: Job) {
    && job.checks != [] && (forall i :: 0 <= i < |job.checks| ==> DeclaredOk(job.checks[i], job.replay))
    && (job.matrix.Some? ==> job.matrix.value != [] && forall e :: e in job.matrix.value ==> EntryPlanned(job, e))
    && (job.oracles.Some? ==> job.oracles.value != [] && forall e :: e in job.oracles.value ==> e.valid && e.image != job.replay)
  }

  /** Files that have to be there at some point. */
  ghost predicate Needed(job: Job, p: Path) {
    || p in [job.serialLog, job.scratch, job.crash, job.replay] || p in job.staged || p in job.sources
    || (job.oracles.Some? && exists e :: e in job.oracles.value && p == e.log)
  }

  /** Files the executor creates and refuses to find. */
  ghost predicate Created(job: Job, p: Path) {
    || p in [job.crash, job.replay, job.recoveryLog, job.result] || p in job.staged
    || (job.matrix.Some? && exists e :: e in job.matrix.value && p == e.image)
    || (job.oracles.Some? && exists e :: e in job.oracles.value && p in [e.image, e.log, e.request])
  }

  /** The cause is there to see: a denied request, the last subprocess on record, a file, or the plan. */
  ghost predicate Shown(c: Cause, job: Job, answers: seq<Answer>, trace: seq<Event>, fs: Files) {
    match c
    case NoCause => false
    case Denied(q) => Answer(q, false) in answers
    case Failed(e) => trace != [] && trace[|trace| - 1] == e && Failing(e)
    case Missing(p) => p !in fs && Needed(job, p)
    case InTheWay(p) => p in fs && Created(job, p)
    case BadPlan => !GoodPlan(job)
  }

  ghost predicate CopyFailed(c: Cause, source: Path, target: Path, answers: seq<Answer>, fs: Files) {
    || (c == Missing(source) && source !in fs)
    || (c == InTheWay(target) && target in fs)
    || (c == Denied(Copied(source, target)) && Answer(Copied(source, target), false) in answers)
  }

  lemma CopyShown(c: Cause, source: Path, target: Path, job: Job, answers: seq<Answer>, trace: seq<Event>, fs: Files)
    requires CopyFailed(c, source, target, answers, fs) && Needed(job, source) && Created(job, target)
    ensures Shown(c, job, answers, trace, fs)
  {}

  ghost predicate NoManifest(fs: Files) {
    forall p :: p in fs ==> fs[p].Blob?
  }

  class Executor {
    const job: Job
    var fs: Files
    var trace: seq<Event>
    var answers: seq<Answer>
    var written: bool

    constructor (job: Job, fs: Files)
      ensures this.job == job && this.fs == fs && trace == [] && answers == [] && !written
    {
      this.job, this.fs, trace, answers, written := job, fs, [], [], false;
    }

    /** What the last subprocess left is still there. */
    ghost predicate LastKept()
      reads this
    {
      trace != [] && trace[|trace| - 1].after.Keys <= fs.Keys
    }

    /** Anything outside the executor's control is asked for, and the answer is on record. */
    method Ask(q: Question) returns (yes: bool)
      modifies this`answers
      ensures answers == old(answers) + [Answer(q, yes)]
    {
      yes := *;
      answers := answers + [Answer(q, yes)];
    }

    /** Any subprocess: whatever it does to the files is in its response, and it is on record. */
    method Run(step: Step) returns (r: Response, ghost e: Event)
      modifies this`fs, this`trace
      ensures e == Event(step, r, old(fs), fs) && trace == old(trace) + [e]
      ensures fs == if r.launched then Apply(old(fs), r) else old(fs)
    {
      r := *;
      var before := fs;
      if r.launched {
        fs := Apply(fs, r);
      }
      e := Event(step, r, before, fs);
      trace := trace + [Event(step, r, before, fs)];
    }

    /** A copy-on-write clone: it refuses a missing source and an existing target, and a failed cp
        may leave anything at the target. */
    method CopyImage(source: Path, target: Path) returns (ok: bool, ghost why: Cause)
      modifies this`fs, this`answers
      ensures old(answers) <= answers && (!ok ==> CopyFailed(why, source, target, answers, fs))
      ensures ok ==> source in old(fs) && target !in old(fs) && fs == old(fs)[target := old(fs)[source]]
      ensures !ok ==> fs - {target} == old(fs) - {target} && (target in old(fs) ==> fs == old(fs))
      ensures NoManifest(old(fs)) ==> NoManifest(fs)
    {
      if source !in fs {
        return false, Missing(source);
      }
      if target in fs {
        return false, InTheWay(target);
      }
      var copied := Ask(Copied(source, target));
      if copied {
        fs := fs[target := fs[source]];
        return true, NoCause;
      }
      var partial: Option<nat> := *;
      if partial.Some? {
        fs := fs[target := Blob(partial.value)];
      }
      return false, Denied(Copied(source, target));
    }

    /** A retry starts from freshly staged copies of the role images. */
    method Restage() returns (ok: bool, ghost why: Cause)
      requires WellFormed(job)
      modifies this`fs, this`answers
      ensures !ok ==> Shown(why, job, answers, trace, fs)
      ensures ok && SourcesApart(job) ==> StagedFrom(job, fs, old(fs), 3)
      ensures fs - Staged(job) == old(fs) - Staged(job)
      ensures NoManifest(old(fs)) ==> NoManifest(fs)
    {
      hide NoManifest, CopyFailed;
      why := NoCause;
      MinusKeeps(fs, job);
      fs := fs - Staged(job);
      for i := 0 to 3
        invariant fs - Staged(job) == old(fs) - Staged(job)
        invariant SourcesApart(job) ==> StagedFrom(job, fs, old(fs), i)
        invariant NoManifest(old(fs)) ==> NoManifest(fs)
      {
        if job.sources[i] !in fs {
          return false, Missing(job.sources[i]);
        }
        ghost var before := fs;
        ok, why := CopyImage(job.sources[i], job.staged[i]);
        Elsewhere(before, fs, job.staged[i], Staged(job));
        if !ok {
          CopyShown(why, job.sources[i], job.staged[i], job, answers, trace, fs);
          return false, why;
        }
        StagedOneMore(job, old(fs), before, fs, i);
      }
      return true, NoCause;
    }

    /** Up to three shell-test runs; only one that exits with 0 and confirms the stop marker counts. */
    method RunShellTestUntilCut() returns (o: Outcome, ghost s: seq<Event>, ghost why: Cause)
      requires WellFormed(job)
      modifies this`fs, this`trace, this`answers
      ensures trace == old(trace) + s
      ensures o == Done ==> ShellOk(s) && s[|s| - 1].after == fs
      ensures ShellRun(job, old(fs), s)
      ensures o != Done ==> Shown(why, job, answers, trace, fs)
      ensures NoManifest(old(fs)) ==> NoManifest(fs)
    {
      hide Apply, Retried, StagedFrom, SourcesApart, NoManifest;
      s, why := [], NoCause;
      for attempt := 1 to 4
        invariant |s| == attempt - 1 && trace == old(trace) + s
        invariant s == [] ==> fs == old(fs)
        invariant s != [] ==> s[|s| - 1].after == fs
        invariant ShellRun(job, old(fs), s)
        invariant forall i :: 0 <= i < |s| ==>
          s[i].step == ShellTest && s[i].response.launched && !(s[i].response.exit == 0 && s[i].response.confirmed)
        invariant s != [] ==> why == Failed(s[|s| - 1])
        invariant NoManifest(old(fs)) ==> NoManifest(fs)
      {
        if attempt > 1 {
          ghost var was := fs;
          var ok;
          ok, why := Restage();
          if !ok {
            return Raised, s, why;
          }
          RetryIsFresh(job, was, fs);
          FewerKeeps(fs, {job.serialLog});
          fs := fs - {job.serialLog};
        }
        ghost var runFs := fs;
        var r;
        ghost var e;
        r, e := Run(ShellTest);
        ApplyKeeps(runFs, r, job.crash);
        s, why := s + [e], Failed(e);
        if !r.launched {
          return Raised, s, why;
        }
        if r.exit == 0 && r.confirmed {
          return Done, s, why;
        }
        if attempt == 3 || !job.hasRoleImages {
          return Raised, s, why;
        }
      }
      return Raised, s, why;
    }

    /** Copies the scratch image to the crash and replay paths, then removes the staged images. */
    method PreserveImages() returns (o: Outcome, ghost image: Content, ghost why: Cause)
      requires WellFormed(job)
      modifies this`fs, this`answers
      ensures o == Done ==> job.scratch in old(fs) && image == old(fs)[job.scratch] && job.crash != job.replay
      ensures o == Done ==> fs == Kept(job, old(fs), image) && AllStaged(job, old(fs))
      ensures o == Done && job.crash in fs ==> fs[job.crash] == image
      ensures o == Done && job.replay in fs ==> fs[job.replay] == image
      ensures old(answers) <= answers && (o != Done ==> Shown(why, job, answers, trace, fs))
      ensures NoManifest(old(fs)) ==> NoManifest(fs)
    {
      hide CopyFailed;
      image := if job.scratch in fs then fs[job.scratch] else Manifest;
      var ok;
      ok, why := CopyImage(job.scratch, job.crash);
      if !ok {
        CopyShown(why, job.scratch, job.crash, job, answers, trace, fs);
        return Raised, image, why;
      }
      ok, why := CopyImage(job.scratch, job.replay);
      if !ok {
        CopyShown(why, job.scratch, job.replay, job, answers, trace, fs);
        return Raised, image, why;
      }
      if exists p :: p in job.staged && p !in fs {
        ghost var p :| p in job.staged && p !in fs;
        return Raised, image, Missing(p);
      }
      fs := fs - (set p | p in job.staged);
      return Done, image, NoCause;
    }

    method RestoreReplay() returns (ok: bool, ghost why: Cause)
      requires job.crash != job.replay
      modifies this`fs, this`answers
      ensures !ok ==> Shown(why, job, answers, trace, fs)
      ensures ok ==> job.crash in old(fs) && fs == old(fs)[job.replay := old(fs)[job.crash]]
      ensures NoManifest(old(fs)) ==> NoManifest(fs)
    {
      if job.crash !in fs {
        return false, Missing(job.crash);
      }
      fs := fs - {job.replay};
      ok, why := CopyImage(job.crash, job.replay);
    }

    /** Moves the log of a failed attempt out of the way, when there is one. */
    method SaveFailedLog(log: Path, saved: Path)
      modifies this`fs
      ensures fs == SavedLog(old(fs), log, saved)
      ensures log in old(fs) ==> Get(fs, saved) == Get(old(fs), log) && (log != saved ==> log !in fs)
      ensures forall p :: p != log && p != saved ==> Get(fs, p) == Get(old(fs), p)
    {
      if log in fs {
        fs := fs[saved := fs[log]] - ({log} - {saved});
      }
    }

    /** After a failed attempt: its log is saved, and an image it changed is restored. */
    method AfterFailure(saved: Path, initial: Option<Content>) returns (ok: bool, next: Option<Content>, ghost why: Cause)
      requires job.crash != job.replay
      modifies this`fs, this`answers
      ensures !ok ==> Shown(why, job, answers, trace, fs)
      ensures ok ==> fs == CleanedUp(job, old(fs), saved, initial) && next == Compared(job, old(fs), saved, initial)
      ensures ok ==> Get(old(fs), job.replay) == initial || job.crash in SavedLog(old(fs), job.recoveryLog, saved)
      ensures && ok && initial.Some? && Get(old(fs), job.crash) == initial
              && {job.crash, job.replay} !! {saved, job.recoveryLog} ==>
                Get(fs, job.crash) == initial && Get(fs, job.replay) == initial && next == initial
      ensures NoManifest(old(fs)) ==> NoManifest(fs)
    {
      hide Shown;
      next, why := initial, NoCause;
      var failed := Get(fs, job.replay);
      SaveFailedLog(job.recoveryLog, saved);
      ok := true;
      if failed != initial {
        ok, why := RestoreReplay();
        next := Get(fs, job.replay);
      }
    }

    /** Up to three recovery runs on the replay image. A failed run that changed the image is followed
        by a restore from the crash image. */
    method RecoverReplay(ghost image: Content) returns (o: Outcome, ghost s: seq<Event>, ghost why: Cause)
      requires WellFormed(job) && job.crash != job.replay
      requires Get(fs, job.crash) == Some(image) && Get(fs, job.replay) == Some(image)
      modifies this`fs, this`trace, this`answers
      ensures trace == old(trace) + s
      ensures o == Done ==> RecoveryOk(s) && fs == Logged(job, s[|s| - 1])
      ensures o != Done ==> Shown(why, job, answers, trace, fs)
      ensures RecoveryRun(job, old(fs), s) && (StartsOn(s, image) <==> AllRestart(job, s, image))
      ensures s != [] ==> Ready(job, old(fs), image) && s[0].before == old(fs)
      ensures LogsApart(job) && CrashSpared(job, s) ==> StartsOn(s, image)
      ensures NoManifest(old(fs)) ==> NoManifest(fs)
    {
      hide Apply, SavedLog, CleanedUp, Compared, Stand, AllRestart, RecoveryRun, AllContinue, NoManifest, StartsOn, CrashSpared, LogsApart;
      s, why := [], NoCause;
      NoAttempts(job, fs, image);
      var available := Ask(RecoveryRunner);
      if !available {
        return Refused, s, Denied(RecoveryRunner);
      }
      if job.recoveryLog in fs {
        return Refused, s, InTheWay(job.recoveryLog);
      }
      ghost var start := fs;
      var initial := Get(fs, job.replay);
      for attempt := 1 to 4
        invariant |s| == attempt - 1 && trace == old(trace) + s && start == old(fs)
        invariant s != [] ==> why == Failed(s[|s| - 1])
        invariant forall i :: 0 <= i < |s| ==> s[i].step.Recover? && s[i].response.launched && s[i].response.exit != 0
        invariant Stand(job, start, s) == (fs, initial) && AllContinue(job, start, s)
        invariant s != [] ==> s[0].before == start
        invariant NoManifest(old(fs)) ==> NoManifest(fs)
      {
        ghost var before := s;
        ghost var runFs := fs;
        var from := Get(fs, job.replay);
        var r;
        ghost var e;
        r, e := Run(Recover(from));
        s, why := s + [e], Failed(e);
        OneAttempt(job, start, before, e);
        RunFacts(job, start, s, image);
        ApplyKeeps(runFs, r, job.crash);
        if !r.launched {
          return Refused, s, why;
        }
        fs := fs[job.recoveryLog := Blob(r.output)];
        LogKeeps(e.after, job.recoveryLog, r.output);
        if r.exit == 0 {
          return Done, s, why;
        }
        var ok;
        ghost var cause;
        ok, initial, cause := AfterFailure(job.attemptLogs[attempt - 1], initial);
        if !ok {
          return Refused, s, cause;
        }
        FailedAttempt(job, start, before, e);
      }
      IsRun(job, start, s);
      RunFacts(job, start, s, image);
      return Refused, s, why;
    }

    /** Every declared check in order, each required to exit with 0. */
    method RunChecks() returns (o: Outcome, ghost s: seq<Event>, ghost why: Cause)
      requires |job.checks| > 0 && forall i :: 0 <= i < |job.checks| ==> DeclaredOk(job.checks[i], job.replay)
      modifies this`fs, this`trace, this`answers
      ensures trace == old(trace) + s
      ensures o == Done ==> ChecksOk(job, s) && fs == Checked(job, s) && LastKept()
      ensures CheckRun(job, old(fs), s)
      ensures o != Done ==> Shown(why, job, answers, trace, fs)
      ensures NoManifest(old(fs)) ==> NoManifest(fs)
    {
      s, why := [], NoCause;
      for k := 0 to |job.checks|
        invariant trace == old(trace) + s && |s| == k && CheckRun(job, old(fs), s)
        invariant fs == if k == 0 then old(fs) else s[k - 1].after[job.checks[k - 1].log := Blob(s[k - 1].response.output)]
        invariant forall i :: 0 <= i < k ==> s[i].step == Check([Text("-fn"), File(job.replay)]) && Succeeded(s[i])
        invariant NoManifest(old(fs)) ==> NoManifest(fs)
      {
        var available := Ask(CheckTool(k));
        if !available {
          return Raised, s, Denied(CheckTool(k));
        }
        var r;
        ghost var e;
        r, e := Run(Check(job.checks[k].args));
        s, why := s + [e], Failed(e);
        if !r.launched {
          return Refused, s, why;
        }
        fs := fs[job.checks[k].log := Blob(r.output)];
        if r.exit != 0 {
          return Refused, s, why;
        }
      }
      return Done, s, NoCause;
    }

    /** One matrix command: it has to launch, leave its image in place and exit with 0. */
    method RunMatrixCommand(e: Entry) returns (ok: bool, ghost ev: Event)
      modifies this`fs, this`trace
      ensures trace == old(trace) + [ev]
      ensures ev.step == Matrix(e.id, e.image, Get(old(fs), e.image), Get(old(fs), job.replay))
      ensures ok ==> Succeeded(ev) && e.image in fs && LastKept()
      ensures !ok ==> Failing(ev)
      ensures ev.response.launched ==> Get(fs, e.log) == Some(Blob(ev.response.output))
      ensures ev.before == old(fs)
      ensures NoManifest(old(fs)) ==> NoManifest(fs)
    {
      var step := Matrix(e.id, e.image, Get(fs, e.image), Get(fs, job.replay));
      var r;
      r, ev := Run(step);
      if !r.launched {
        return false, ev;
      }
      fs := fs[e.log := Blob(r.output)];
      return e.image in fs && r.exit == 0, ev;
    }

    /** An image not yet prepared is copied from the replay image. */
    method PrepareImage(image: Path, prepared: set<Path>) returns (ok: bool, prepared': set<Path>, ghost why: Cause)
      modifies this`fs, this`answers
      ensures !ok ==> CopyFailed(why, job.replay, image, answers, fs)
      ensures ok ==> prepared' == prepared + {image}
      ensures ok && image !in prepared ==> Get(fs, image).Some? && Get(fs, image) == Get(fs, job.replay)
      ensures ok ==> fs - {image} == old(fs) - {image}
      ensures NoManifest(old(fs)) ==> NoManifest(fs)
    {
      prepared', why := prepared + {image}, NoCause;
      ok := true;
      if image !in prepared {
        ok, why := CopyImage(job.replay, image);
      }
    }

    /** One attempt: Raised when its image cannot be prepared, Refused when the run fails. */
    method TryRemount(e: Entry, prepared: set<Path>)
      returns (o: Outcome, prepared': set<Path>, ghost s: seq<Event>, ghost why: Cause)
      requires Created(job, e.image)
      modifies this`fs, this`trace, this`answers
      ensures trace == old(trace) + s && (o != Raised ==> |s| == 1)
      ensures o != Raised ==> s[0].step.Matrix? && s[0].step.id == e.id && s[0].step.image == e.image
      ensures o != Raised ==> s[0].before - {e.image} == old(fs) - {e.image}
      ensures o != Raised && e.image !in prepared ==> s[0].step.before == s[0].step.replay && s[0].step.before.Some?
      ensures o == Done ==> Succeeded(s[0]) && LastKept()
      ensures o == Refused && s[0].response.launched ==> Get(fs, e.log) == Some(Blob(s[0].response.output))
      ensures o != Done ==> Shown(why, job, answers, trace, fs)
      ensures o == Refused ==> why == Failed(s[0]) && Failing(s[0])
      ensures NoManifest(old(fs)) ==> NoManifest(fs)
    {
      hide Failing, CopyFailed, Created, NoManifest;
      s := [];
      var ok;
      ok, prepared', why := PrepareImage(e.image, prepared);
      if !ok {
        CopyShown(why, job.replay, e.image, job, answers, trace, fs);
        return Raised, prepared', s, why;
      }
      ghost var ev;
      ok, ev := RunMatrixCommand(e);
      s, why := [ev], Failed(ev);
      o := if ok then Done else Refused;
    }

    /** After a failed attempt its log is saved and its image goes. */
    method ClearRemount(e: Entry, saved: Path, ghost run: Event)
      requires run.response.launched ==> Get(fs, e.log) == Some(Blob(run.response.output))
      requires trace != [] && trace[|trace| - 1] == run && Failing(run)
      modifies this`fs
      ensures LogSaved(e, saved, run, fs) && Shown(Failed(run), job, answers, trace, fs)
      ensures NoManifest(old(fs)) ==> NoManifest(fs)
    {
      ghost var was := fs;
      SaveFailedLog(e.log, saved);
      fs := fs - {e.image, e.log};
      LogMoved(e, saved, run, was);
    }

    /** tx-remount gets three attempts; after a failed one its log is saved and its image goes, so the next starts
        on a fresh copy of the replay image. */
    method RunRemount(e: Entry, prepared: set<Path>)
      returns (o: Outcome, prepared': set<Path>, ghost s: seq<Event>, ghost why: Cause)
      requires e.id == "tx-remount" && |e.attemptLogs| == 3 && Created(job, e.image)
      modifies this`fs, this`trace, this`answers
      ensures trace == old(trace) + s
      ensures o == Done ==> EntryOk(e, s) && LastKept()
      ensures o != Done ==> Shown(why, job, answers, trace, fs)
      ensures NoManifest(old(fs)) ==> NoManifest(fs)
    {
      hide Failing, Created, NoManifest, LogSaved, EntryRuns, Shown;
      s, prepared', why := [], prepared, NoCause;
      NoRuns(e);
      for attempt := 1 to 4
        invariant |s| == attempt - 1 && trace == old(trace) + s
        invariant EntryRuns(e, s) && (s != [] ==> Shown(why, job, answers, trace, fs))
        invariant attempt > 1 ==> e.image !in prepared' && LogSaved(e, e.attemptLogs[attempt - 2], s[attempt - 2], fs)
        invariant NoManifest(old(fs)) ==> NoManifest(fs)
      {
        ghost var left, before, run := fs, s, [];
        o, prepared', run, why := TryRemount(e, prepared');
        s := s + run;
        if o == Raised {
          return;
        }
        if before != [] {
          LogStays(e, e.attemptLogs[attempt - 2], before[attempt - 2], left, run[0].before);
        }
        assert run == [run[0]];
        OneMoreRun(e, before, run[0]);
        if o == Done {
          return;
        }
        ClearRemount(e, e.attemptLogs[attempt - 1], run[0]);
        prepared' := prepared' - {e.image};
      }
      return Refused, prepared', s, why;
    }

    method RunEntry(e: Entry, prepared: set<Path>)
      returns (o: Outcome, prepared': set<Path>, ghost s: seq<Event>, ghost why: Cause)
      requires |e.attemptLogs| == 3 && job.matrix.Some? && e in job.matrix.value
      modifies this`fs, this`trace, this`answers
      ensures trace == old(trace) + s
      ensures o == Done ==> EntryOk(e, s) && LastKept()
      ensures o != Done ==> Shown(why, job, answers, trace, fs)
      ensures NoManifest(old(fs)) ==> NoManifest(fs)
    {
      hide Failing, CopyFailed;
      s, prepared', why := [], prepared, NoCause;
      if e.id == "tx-remount" {
        var available := Ask(EntryTool(e.id));
        if !available {
          return Refused, prepared, s, Denied(EntryTool(e.id));
        }
        o, prepared', s, why := RunRemount(e, prepared);
        return;
      }
      if e.id == "linux-rw-replay" {
        var available := Ask(EntryTool(e.id));
        if !available {
          return Refused, prepared, s, Denied(EntryTool(e.id));
        }
      } else if e.id == "linux-post-replay-e2fsck" {
        if e.args != [Text("-fn"), File(e.image)] {
          return Refused, prepared, s, BadPlan;
        }
      } else {
        return Refused, prepared, s, BadPlan;
      }
      var ok;
      ok, prepared', why := PrepareImage(e.image, prepared);
      if !ok {
        CopyShown(why, job.replay, e.image, job, answers, trace, fs);
        return Raised, prepared', s, why;
      }
      if e.id == "linux-post-replay-e2fsck" {
        var available := Ask(EntryTool(e.id));
        if !available {
          return Raised, prepared', s, Denied(EntryTool(e.id));
        }
      }
      ghost var ev;
      ok, ev := RunMatrixCommand(e);
      s, why := [ev], Failed(ev);
      o := if ok then Done else Refused;
    }

    method ExecuteMatrix() returns (o: Outcome, ghost m: seq<seq<Event>>, ghost why: Cause)
      requires WellFormed(job)
      modifies this`fs, this`trace, this`answers
      ensures trace == old(trace) + Concat(m)
      requires LastKept()
      ensures o == Done ==> MatrixOk(job, m) && NoMatrixImage(job, old(fs)) && LastKept()
      ensures o != Done ==> Shown(why, job, answers, trace, fs)
      ensures NoManifest(old(fs)) ==> NoManifest(fs)
    {
      hide EntryOk, NoManifest;
      m, why := [], NoCause;
      if job.matrix.None? {
        return Done, m, why;
      }
      var es := job.matrix.value;
      if es == [] || exists e :: e in es && (!e.valid || e.image == job.replay || e.image in fs) {
        why := MatrixCause(job, fs);
        return Refused, m, why;
      }
      hide Shown;
      var prepared := {};
      for k := 0 to |es|
        invariant |m| == k && trace == old(trace) + Concat(m) && LastKept()
        invariant forall i :: 0 <= i < k ==> EntryOk(es[i], m[i])
        invariant NoManifest(old(fs)) ==> NoManifest(fs)
      {
        ghost var s;
        o, prepared, s, why := RunEntry(es[k], prepared);
        ConcatSnoc(m, s);
        m := m + [s];
        if o != Done {
          return o, m, why;
        }
      }
      return Done, m, why;
    }

    /** One oracle: nothing of its own may be there, and it gets a copy of the replay image and its request. */
    method RunOracle(e: Entry) returns (o: Outcome, ghost s: seq<Event>, ghost why: Cause)
      requires job.oracles.Some? && e in job.oracles.value
      modifies this`fs, this`trace, this`answers
      ensures trace == old(trace) + s
      ensures o == Done ==> |s| == 1 && OracleRunOk(job, e, s[0]) && LastKept()
      ensures o != Done ==> Shown(why, job, answers, trace, fs)
      ensures NoManifest(old(fs)) ==> NoManifest(fs)
    {
      hide CopyFailed;
      s, why := [], NoCause;
      if !e.valid || e.image == job.replay {
        return Refused, s, BadPlan;
      }
      if e.image in fs || e.log in fs || e.request in fs {
        return Refused, s, InTheWay(if e.image in fs then e.image else if e.log in fs then e.log else e.request);
      }
      var ok;
      ok, why := CopyImage(job.replay, e.image);
      if !ok {
        CopyShown(why, job.replay, e.image, job, answers, trace, fs);
        return Raised, s, why;
      }
      var step := Oracle(e.id, e.image, Get(fs, e.image), Get(fs, job.replay));
      fs := fs[e.request := Blob(0)];
      var r;
      ghost var run;
      r, run := Run(step);
      s := [run];
      if !r.launched || r.exit != 0 {
        return Refused, s, Failed(run);
      }
      if e.log !in fs {
        return Refused, s, Missing(e.log);
      }
      return Done, s, why;
    }

    method ExecuteOracles() returns (o: Outcome, ghost s: seq<Event>, ghost why: Cause)
      modifies this`fs, this`trace, this`answers
      ensures trace == old(trace) + s
      requires LastKept()
      ensures o == Done ==> OraclesOk(job, s) && LastKept()
      ensures o != Done ==> Shown(why, job, answers, trace, fs)
      ensures NoManifest(old(fs)) ==> NoManifest(fs)
    {
      hide CopyFailed, OracleRunOk, NoManifest;
      s, why := [], NoCause;
      if job.oracles.None? {
        return Done, s, why;
      }
      var es := job.oracles.value;
      var available := Ask(OracleRunner);
      if es == [] || !available {
        return Refused, s, if es == [] then BadPlan else Denied(OracleRunner);
      }
      hide Shown;
      for k := 0 to |es|
        invariant |s| == k && trace == old(trace) + s && LastKept()
        invariant forall i :: 0 <= i < k ==> OracleRunOk(job, es[i], s[i])
        invariant NoManifest(old(fs)) ==> NoManifest(fs)
      {
        ghost var run;
        o, run, why := RunOracle(es[k]);
        s := s + run;
        if o != Done {
          return;
        }
      }
      return Done, s, why;
    }

    /** Everything between the preserved images and the manifest. */
    method RunStages(ghost image: Content) returns (o: Outcome, ghost ev: Evidence, ghost why: Cause)
      requires WellFormed(job) && job.crash != job.replay
      requires Get(fs, job.crash) == Some(image) && Get(fs, job.replay) == Some(image)
      requires |job.checks| > 0 && forall i :: 0 <= i < |job.checks| ==> DeclaredOk(job.checks[i], job.replay)
      modifies this`fs, this`trace, this`answers
      ensures o == Done ==> ev.image == image && Verified(job, old(fs), ev) && LastKept()
      ensures o == Done ==> trace == old(trace) + ev.recovery + ev.checks + Concat(ev.matrix) + ev.oracles
      ensures o != Done ==> Shown(why, job, answers, trace, fs)
      ensures NoManifest(old(fs)) ==> NoManifest(fs)
    {
      hide MatrixOk, OraclesOk, StartsOn, CrashSpared, LogsApart, Concat, RecoveryRun, AllRestart, Ready, CheckRun, Logged, Shown, NoManifest;
      hide NoMatrixImage, DeclaredOk;
      ev := Evidence(image, [], [], [], [], []);
      ghost var recovery, checks, matrix, oracles;
      o, recovery, why := RecoverReplay(image);
      if o != Done {
        return;
      }
      o, checks, why := RunChecks();
      if o != Done {
        return;
      }
      o, matrix, why := ExecuteMatrix();
      if o != Done {
        return;
      }
      o, oracles, why := ExecuteOracles();
      ev := Evidence(image, [], recovery, checks, matrix, oracles);
    }

    /** The only place a manifest is written, after everything above. */
    method ProduceResultIfVerified(shellCommand: bool, hardKill: bool, ghost image: Content)
      returns (o: Outcome, ghost ev: Evidence, ghost why: Cause)
      requires WellFormed(job) && !written && job.crash != job.replay
      requires !shellCommand || !hardKill ==> Answer(ShellCommand, false) in answers
      requires job.crash in fs ==> fs[job.crash] == image
      requires job.replay in fs ==> fs[job.replay] == image
      modifies this
      ensures written ==> shellCommand && hardKill
      ensures written <==> o == Done
      ensures o != Done ==> Shown(why, job, answers, trace, fs)
      ensures written ==> ev.image == image && trace == old(trace) + ev.recovery + ev.checks + Concat(ev.matrix) + ev.oracles
      ensures written ==> Verified(job, old(fs), ev) && trace != [] && job.result !in trace[|trace| - 1].after
      ensures NoManifest(old(fs)) ==> forall p :: p in fs ==> (fs[p].Manifest? <==> written && p == job.result)
      ensures written ==> job.result in fs && fs[job.result] == Manifest
    {
      hide Verified, Concat;
      ev, why := Evidence(image, [], [], [], [], []), NoCause;
      if !shellCommand || !hardKill {
        return Refused, ev, Denied(ShellCommand);
      }
      if job.crash !in fs || job.replay !in fs {
        return Refused, ev, Missing(if job.crash !in fs then job.crash else job.replay);
      }
      if job.checks == [] || exists i :: 0 <= i < |job.checks| && !DeclaredOk(job.checks[i], job.replay) {
        return Refused, ev, BadPlan;
      }
      hide GoodPlan, DeclaredOk;
      o, ev, why := RunStages(image);
      if o != Done {
        return;
      }
      if job.result in fs {
        return Raised, ev, InTheWay(job.result);
      }
      fs := fs[job.result := Manifest];
      written := true;
    }

    /** Up to the preserved images: the preflights, the shell test or an overriding command, the serial log. */
    method CutAndPreserve() returns (o: Outcome, shellCommand: bool, ghost shell: seq<Event>, ghost image: Content, ghost why: Cause)
      requires WellFormed(job)
      modifies this`fs, this`trace, this`answers
      ensures trace == old(trace) + shell
      ensures o == Done && shellCommand ==> ShellOk(shell) && ShellRun(job, old(fs), shell)
      ensures o == Done && shellCommand ==>
                var left := shell[|shell| - 1].after;
                && Get(left, job.scratch) == Some(image) && job.serialLog in left && AllStaged(job, left)
                && fs == Kept(job, left, image)
      ensures o == Done && !shellCommand ==> Answer(ShellCommand, false) in answers
      ensures o == Done ==> job.crash != job.replay
      ensures o == Done && job.crash in fs ==> fs[job.crash] == image
      ensures o == Done && job.replay in fs ==> fs[job.replay] == image
      ensures o != Done ==> Shown(why, job, answers, trace, fs)
      ensures NoManifest(old(fs)) ==> NoManifest(fs)
    {
      hide ShellRun, Kept, NoManifest, Needed;
      shell, image, why, shellCommand := [], Manifest, NoCause, false;
      var mayRun := Ask(MayRun);
      if !mayRun {
        return Refused, false, shell, image, Denied(MayRun);
      }
      var matrixReady := Ask(MatrixReady);
      if !matrixReady {
        return Refused, false, shell, image, Denied(MatrixReady);
      }
      var oraclesReady := Ask(OraclesReady);
      if !oraclesReady {
        return Refused, false, shell, image, Denied(OraclesReady);
      }
      shellCommand := Ask(ShellCommand);
      if shellCommand {
        o, shell, why := RunShellTestUntilCut();
        if o != Done {
          return;
        }
      } else {
        var observed := Ask(CutObserved);
        if !observed {
          return Raised, false, shell, image, Denied(CutObserved);
        }
      }
      if job.serialLog !in fs {
        NeedsLog(job);
        return Raised, shellCommand, shell, image, Missing(job.serialLog);
      }
      hide Shown;
      ghost var asked := answers;
      assert !shellCommand ==> Answer(ShellCommand, false) in asked;
      o, image, why := PreserveImages();
      StillAsked(asked, answers, Answer(ShellCommand, false));
    }

    /** A whole run. A manifest is written only with complete evidence, and the evidence is exactly
        the record of every subprocess that ran, in order. A run without one shows its cause. */
    method Execute() returns (o: Outcome, ghost ev: Evidence, ghost why: Cause)
      requires WellFormed(job) && !written && trace == []
      modifies this
      ensures written ==> Complete(job, ev) && trace == History(ev) && ev.shell[0].before == old(fs)
      ensures written <==> o == Done
      ensures o != Done ==> Shown(why, job, answers, trace, fs)
      ensures written ==> job.result in fs && fs[job.result] == Manifest && job.result !in trace[|trace| - 1].after
      ensures NoManifest(old(fs)) ==> forall p :: p in fs ==> (fs[p].Manifest? <==> written && p == job.result)
    {
      hide ShellOk, Concat, ShellRun, Kept, Shown, Verified, Ready;
      ev := Evidence(Manifest, [], [], [], [], []);
      var shellCommand;
      ghost var shell, image;
      o, shellCommand, shell, image, why := CutAndPreserve();
      if o != Done {
        return;
      }
      if shellCommand {
        FirstRun(job, old(fs), shell);
      }
      ghost var start := fs;
      ghost var found;
      o, found, why := ProduceResultIfVerified(shellCommand, shellCommand, image);
      ev := found.(shell := shell);
      if written {
        VerifiedStarts(job, start, found);
        SameStages(job, start, found, ev);
      }
    }
  }

  /** Preparing the image for another attempt leaves the saved log alone. */
  lemma LogStays(e: Entry, saved: Path, was: Event, a: Files, b: Files)
    requires LogSaved(e, saved, was, a) && b - {e.image} == a - {e.image}
    ensures LogSaved(e, saved, was, b)
  {
    assert forall p :: p != e.image ==> (p in b <==> p in b - {e.image}) && (p in a <==> p in a - {e.image});
    assert forall p :: p != e.image && p in a ==> (a - {e.image})[p] == a[p];
    assert forall p :: p != e.image && p in b ==> (b - {e.image})[p] == b[p];
  }

  lemma LogMoved(e: Entry, saved: Path, was: Event, fs: Files)
    requires was.response.launched ==> Get(fs, e.log) == Some(Blob(was.response.output))
    ensures LogSaved(e, saved, was, SavedLog(fs, e.log, saved) - {e.image, e.log})
  {}

  lemma NoRuns(e: Entry)
    ensures EntryRuns(e, [])
  {}

  lemma VerifiedStarts(job: Job, start: Files, ev: Evidence)
    requires Verified(job, start, ev)
    ensures ev.recovery != [] && ev.recovery[0].before == start && Ready(job, start, ev.image)
  {}

  lemma SameStages(job: Job, start: Files, a: Evidence, b: Evidence)
    requires Verified(job, start, a) && b == a.(shell := b.shell)
    ensures Verified(job, start, b)
  {}

  lemma NeedsLog(job: Job)
    ensures Needed(job, job.serialLog)
  {}

  lemma StillAsked(a: seq<Answer>, b: seq<Answer>, x: Answer)
    requires a <= b
    ensures x in a ==> x in b
  {
    assert b[..|a|] == a;
  }

  lemma FirstRun(job: Job, start: Files, s: seq<Event>)
    requires WellFormed(job) && ShellOk(s) && ShellRun(job, start, s)
    ensures s != [] && s[0].before == start
  {}

  /** What stands against the matrix before its first run. */
  lemma MatrixCause(job: Job, fs: Files) returns (why: Cause)
    requires job.matrix.Some?
    requires var es := job.matrix.value; es == [] || exists e :: e in es && (!e.valid || e.image == job.replay || e.image in fs)
    ensures forall answers, trace :: Shown(why, job, answers, trace, fs)
  {
    var es := job.matrix.value;
    if es == [] {
      return BadPlan;
    }
    var e :| e in es && (!e.valid || e.image == job.replay || e.image in fs);
    why := if e.valid && e.image != job.replay then InTheWay(e.image) else BadPlan;
    if why == BadPlan {
      assert !EntryPlanned(job, e);
    }
  }

  lemma FewerKeeps(fs: Files, gone: set<Path>)
    ensures NoManifest(fs) ==> NoManifest(fs - gone)
  {}

  lemma ApplyKeeps(fs: Files, r: Response, p: Path)
    ensures p !in r.writes && p !in r.deletes ==> Get(Apply(fs, r), p) == Get(fs, p)
    ensures NoManifest(fs) ==> NoManifest(Apply(fs, r))
  {}

  lemma LogKeeps(fs: Files, log: Path, output: nat)
    ensures NoManifest(fs) ==> NoManifest(fs[log := Blob(output)])
  {}
}
