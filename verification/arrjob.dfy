/** A whole *arr backup job (internal/arrbackup/runner.go), and a run of one that ends with two versions. */
module ArrJob {
  import opened Wrappers
  import opened ArrVersions
  import opened ArrRules
  import opened ArrRuns
  import opened ArrBackup
  import Env = ArrEnvironment
  import Retention

  /** What RunJob promises of the attempts ts of a job. */
  ghost predicate JobLosesNone(s: Setting, ts: seq<Try>)
    requires ts != []
  {
    && LosesNoneFrom(s, ts, 0, ts[0].before)
    && forall k :: 0 <= k < |ts| && ts[k].pruned.Some? ==> LosesNoneFrom(s, ts, k, ts[k].pruned.value.before)
  }

  ghost predicate LosesNoneFrom(s: Setting, ts: seq<Try>, k: nat, start: World)
    requires ts != []
  {
    forall i :: i in Listed(s, start) && start.rows[i].ok && start.rows[i].path !in Last(ts).spoiled ==>
      Stays(Last(ts).after, i, start.rows[i]) || GaveUp(ts, k, i, start.rows[i])
  }

  lemma RunsLoseNone(s: Setting, week: Retention.Time -> Retention.Week, c: Case, ts: seq<Try>)
    requires Runs(s, week, c, ts)
    ensures JobLosesNone(s, ts)
  {
    forall k, start, i | 0 <= k < |ts| && i in Listed(s, start) && start.rows[i].ok &&
        start.rows[i].path !in Last(ts).spoiled &&
        ((k == 0 && start == ts[k].before) || (ts[k].pruned.Some? && start == ts[k].pruned.value.before))
      ensures Stays(Last(ts).after, i, start.rows[i]) || GaveUp(ts, k, i, start.rows[i])
    {
      NothingLost(s, week, c, ts, k, start, i);
    }
  }

  /** A job from its first attempt on: c says what fails in each attempt and what happens after each that is
      stopped, which can be at any point. Whatever happens (ArrRuns says more of every run):
      - every version recorded ok and not changed by anything else is whole;
      - an ok version of the integration that was recorded before the job, or when one of its prunes began, is
        recorded as it was, unless something else changed it or a prune of the job gave it up as the retention
        says; and if there was one, there is one;
      - a job that ends as unchanged found a copy that reads back;
      - when the job succeeds undisturbed, exactly one recorded ok version names it, and the folders are tidy
        when nothing failed in its last attempt;
      - when it succeeds and the attempts before the last were undisturbed, it has written a second version if
        and only if the accesses that fail in the last one overlook the first;
      - it is over with the first attempt that is healthy, successful but for a version of an earlier attempt that
        failed verification. */
  method RunJob(s: Setting, week: Retention.Time -> Retention.Week, c: Case)
    returns (out: Outcome, w: World, ghost ts: seq<Try>)
    requires Inv(c.w, c.spoiled) && s.it.folder.id == s.it.id && NewJob(s, c.w)
    requires |c.inputs| == |c.events| + 1
    ensures Runs(s, week, c, ts) && Last(ts).after == w && Last(ts).out == out
    ensures out == Interrupted ==> |ts| == |c.inputs| && Last(ts).input.stops
    ensures forall k :: 0 <= k < |ts| && Healthy(c.inputs[k]) ==>
      k == |ts| - 1 && (out.Success? || out.Unchanged? || (k > 0 && out.BadVersion?))
    ensures Inv(w, Last(ts).spoiled)
    ensures JobLosesNone(s, ts)
    ensures HasOk(s, c.w, Last(ts).spoiled) && PrunesUnspoiled(s, ts, Last(ts).spoiled) ==>
      HasOk(s, w, Last(ts).spoiled)
    ensures out.Success? && Undisturbed(s, c, ts) && Harmless(Last(ts).input.broken) ==>
      forall i :: IsOwnOk(s, w, i) <==> i == out.row
    ensures out.Success? && Undisturbed(s, c, ts) && Last(ts).input.broken == {} ==> Tidy(s, w)
    ensures out.Success? && Undisturbed(s, c, ts) ==>
      (WroteSecond(s, Last(ts)) <==> exists v :: Overlooks(s, Last(ts).before, Last(ts).input.broken, v))
    ensures out.Success? && OnlyTime(c) ==> forall i :: IsOwnOk(s, w, i) <==> i == out.row
    ensures out.Unchanged? ==> out.row in Listed(s, w) && w.rows[out.row].ok && WholeFiles(w, w.rows[out.row])
  {
    out, w, ts := AllTries(s, week, c);
    Promises(s, week, c, ts);
  }

  /** Attempt after attempt, until one is not stopped or no more are to come. */
  method AllTries(s: Setting, week: Retention.Time -> Retention.Week, c: Case)
    returns (out: Outcome, w: World, ghost ts: seq<Try>)
    requires Inv(c.w, c.spoiled) && s.it.folder.id == s.it.id && |c.inputs| == |c.events| + 1
    ensures Runs(s, week, c, ts) && Last(ts).after == w && Last(ts).out == out
    ensures out == Interrupted ==> |ts| == |c.inputs|
  {
    var spoiled := c.spoiled;
    out, w, ts := OneAttempt(s, false, week, c.inputs[0], spoiled, c.w, c, []);
    var k := 0;
    while out == Interrupted && k < |c.events|
      invariant 0 <= k <= |c.events| && |ts| == k + 1
      invariant Runs(s, week, c, ts) && Last(ts).after == w && Last(ts).out == out && Last(ts).spoiled == spoiled
      decreases |c.events| - k
    {
      BeginsNext(s, week, c, ts);
      spoiled := Env.SpoiledAfter(s, w, spoiled, c.events[k]);
      w := Env.After(s, w, c.events[k]);
      k := k + 1;
      out, w, ts := OneAttempt(s, true, week, c.inputs[k], spoiled, w, c, ts);
    }
  }

  /** Nothing harmful fails, and only time passes between the attempts. */
  ghost predicate OnlyTime(c: Case) {
    && (forall input :: input in c.inputs ==> Harmless(input.broken))
    && (forall es :: es in c.events ==> forall e :: e in es ==> e.Pass?)
  }

  lemma Promises(s: Setting, week: Retention.Time -> Retention.Week, c: Case, ts: seq<Try>)
    requires Runs(s, week, c, ts) && NewJob(s, c.w)
    ensures TryOk(s, week, Last(ts)) && JobLosesNone(s, ts)
    ensures HasOk(s, c.w, Last(ts).spoiled) && PrunesUnspoiled(s, ts, Last(ts).spoiled) ==>
      HasOk(s, Last(ts).after, Last(ts).spoiled)
    ensures Undisturbed(s, c, ts) && Last(ts).out.Success? && Harmless(Last(ts).input.broken) ==>
      forall i :: IsOwnOk(s, Last(ts).after, i) <==> i == Last(ts).out.row
    ensures Undisturbed(s, c, ts) && Last(ts).out.Success? && Last(ts).input.broken == {} ==> Tidy(s, Last(ts).after)
    ensures |ts| <= |c.inputs| && forall k :: 0 <= k < |ts| && Healthy(c.inputs[k]) ==>
      k == |ts| - 1 && (Last(ts).out.Success? || Last(ts).out.Unchanged? || (k > 0 && Last(ts).out.BadVersion?))
    ensures Undisturbed(s, c, ts) && Last(ts).out.Success? ==>
      (WroteSecond(s, Last(ts)) <==> exists v :: Overlooks(s, Last(ts).before, Last(ts).input.broken, v))
    ensures OnlyTime(c) ==> Undisturbed(s, c, ts) && Harmless(Last(ts).input.broken)
  {
    RunsAt(s, week, c, ts, |ts| - 1);
    RunsLoseNone(s, week, c, ts);
    forall k | 0 <= k < |ts| && Healthy(c.inputs[k])
      ensures k == |ts| - 1 && (Last(ts).out.Success? || Last(ts).out.Unchanged? || (k > 0 && Last(ts).out.BadVersion?))
    {
      StoppedBefore(s, week, c, ts, k);
      HealthyEnds(s, week, c, ts, k);
    }
    if HasOk(s, c.w, Last(ts).spoiled) && PrunesUnspoiled(s, ts, Last(ts).spoiled) {
      AnOkStays(s, week, c, ts, Last(ts).spoiled);
    }
    if Undisturbed(s, c, ts) && Last(ts).out.Success? {
      OneVersion(s, week, c, ts);
      SecondVersionIff(s, week, c, ts);
    }
    if OnlyTime(c) {
      OnlyTimeIsUndisturbed(s, c, ts);
    }
  }

  /** The attempt after ts begins in w. */
  ghost predicate Next(s: Setting, c: Case, ts: seq<Try>, w: World, spoiled: set<VersionPath>)
    requires |ts| <= |c.events|
  {
    if ts == [] then w == c.w && spoiled == c.spoiled
    else
      var t, es := Last(ts), c.events[|ts| - 1];
      && t.out == Interrupted
      && w == Env.After(s, t.after, es) && spoiled == Env.SpoiledAfter(s, t.after, t.spoiled, es)
  }

  /** After the attempts ts and what follows them, the invariant holds. */
  lemma BeginsNext(s: Setting, week: Retention.Time -> Retention.Week, c: Case, ts: seq<Try>)
    requires Runs(s, week, c, ts) && Last(ts).out == Interrupted && |ts| <= |c.events|
    ensures
      var t, es := Last(ts), c.events[|ts| - 1];
      var w, spoiled := Env.After(s, t.after, es), Env.SpoiledAfter(s, t.after, t.spoiled, es);
      Inv(w, spoiled) && Next(s, c, ts, w, spoiled)
  {
    RunsAt(s, week, c, ts, |ts| - 1);
    Env.AfterKeeps(s, Last(ts).after, Last(ts).spoiled, c.events[|ts| - 1]);
  }

  /** One more attempt, from the state the earlier ones and what followed left. */
  method OneAttempt(s: Setting, resumed: bool, week: Retention.Time -> Retention.Week, input: Input,
                    ghost spoiled: set<VersionPath>, w: World, ghost c: Case, ghost ts: seq<Try>)
    returns (out: Outcome, w': World, ghost ts': seq<Try>)
    requires Inv(w, spoiled) && s.it.folder.id == s.it.id
    requires |ts| < |c.inputs| && |ts| <= |c.events| && input == c.inputs[|ts|] && resumed == (ts != [])
    requires Next(s, c, ts, w, spoiled) && (ts != [] ==> Runs(s, week, c, ts))
    ensures Runs(s, week, c, ts') && |ts'| == |ts| + 1
    ensures Last(ts').after == w' && Last(ts').out == out && Last(ts').spoiled == spoiled
  {
    var run := new Run(s, resumed, week, input, spoiled, w);
    ghost var found, pruned, wrote;
    out, found, pruned, wrote := run.Attempt();
    w' := run.world;
    ghost var t := Try(w, spoiled, resumed, input, out, pruned, wrote, w');
    OneMoreTry(s, week, c, ts, t);
    ts' := ts + [t];
  }

  lemma OneMoreLink(s: Setting, c: Case, ts: seq<Try>, t: Try)
    requires |ts| < |c.inputs| && |ts| <= |c.events| && t.input == c.inputs[|ts|] && t.resumed == (ts != [])
    requires Next(s, c, ts, t.before, t.spoiled) && (ts != [] ==> Chain(s, c, ts))
    ensures Chain(s, c, ts + [t])
  {
    assert (ts + [t])[..|ts|] == ts;
  }

  lemma OneMoreTry(s: Setting, week: Retention.Time -> Retention.Week, c: Case, ts: seq<Try>, t: Try)
    requires |ts| < |c.inputs| && |ts| <= |c.events| && t.input == c.inputs[|ts|] && t.resumed == (ts != [])
    requires Next(s, c, ts, t.before, t.spoiled) && (ts != [] ==> Runs(s, week, c, ts))
    requires TryOk(s, week, t)
    ensures Runs(s, week, c, ts + [t])
  {
    OneMoreLink(s, c, ts, t);
    forall u | u in ts + [t] ensures TryOk(s, week, u) {
      assert u in ts || u == t;
    }
  }

  // ---- A job that ends with two versions ----

  const FOLDER := Folder(1, 1)

  const JOB := Job(1, 5)

  const SETTING := Setting(Integration(1, 1, FOLDER), JOB, {JOB}, 1, 0)

  const FILE := Zip(1, 1)

  const PARTIAL := Partial(FOLDER, JOB.id)

  const FIRST := VersionPath(FOLDER, 10)

  const SECOND := VersionPath(FOLDER, 11)

  function RowAt(at: Time): Row {
    Row(VersionPath(FOLDER, at), 1, at, true, Some(NewManifest(SETTING, at, Backup(1, false), true, FILE)))
  }

  function DirAt(at: Time): Dir {
    NewDir(SETTING, at, Backup(1, false), true, FILE)
  }

  /** An attempt up to its rename: it reads the clock, fills the partial directory and gives it the name. */
  function Renamed(w: World): World {
    Move(Put(w.(now := w.now + 1), PARTIAL, DirAt(w.now)), PARTIAL, Version(VersionPath(FOLDER, w.now)))
  }

  const EMPTY := World(map[], map[], 0, 10)

  /** The process stopped between the rename and the row. */
  const STOPPED := Renamed(EMPTY)

  /** Resumed, it could not read the manifest of the version that is there, and wrote another. */
  const WROTE_AGAIN := Record(Renamed(STOPPED), RowAt(11))

  /** Then the recovery of a later job recorded the first one too. */
  const BOTH := Record(WROTE_AGAIN, RowAt(10))

  const UNREADABLE: set<Access> := {ReadManifest(FIRST)}

  lemma FirstVersionWaits()
    ensures NewJob(SETTING, EMPTY) && Inv(EMPTY, {})
    ensures STOPPED.dirs == map[Version(FIRST) := DirAt(10)] && STOPPED.rows == map[] && STOPPED.now == 11
    ensures Inv(STOPPED, {}) && InOrder(SETTING, STOPPED, {}, true) && Waits(SETTING, STOPPED, FIRST)
  {
    assert STOPPED.dirs == map[Version(FIRST) := DirAt(10)];
    assert Adoptable(SETTING, FIRST, DirAt(10)) && Whole(DirAt(10), DirAt(10).manifest.m);
    assert WaitingOk(SETTING, STOPPED, FIRST);
  }

  /** recover and ownVersion leave everything as it is when the one manifest cannot be read. */
  lemma RecoveryLeavesIt()
    ensures Overlooks(SETTING, STOPPED, UNREADABLE, FIRST)
    ensures Recovered(SETTING, STOPPED, STOPPED, true, UNREADABLE, {FIRST})
    ensures Inv(STOPPED, {}) && !Quiet(SETTING, STOPPED, {})
  {
    FirstVersionWaits();
    assert Claim(STOPPED, JOB, FIRST);
    QuietUnlessOverlooked(SETTING, STOPPED, STOPPED, {}, true, UNREADABLE, {FIRST});
  }

  const TWO := World(map[Version(FIRST) := DirAt(10), Version(SECOND) := DirAt(11)], map[0 := RowAt(11)], 1, 12)

  lemma SecondVersionWritten()
    ensures WROTE_AGAIN == TWO
    ensures Inv(WROTE_AGAIN, {}) && IsOwnOk(SETTING, WROTE_AGAIN, 0) && !OneClaim(WROTE_AGAIN, JOB, {})
  {
    FirstVersionWaits();
    assert WROTE_AGAIN.dirs == TWO.dirs && WROTE_AGAIN.rows == TWO.rows;
    BothAreThere();
  }

  lemma BothAreThere()
    ensures Inv(TWO, {}) && IsOwnOk(SETTING, TWO, 0) && !OneClaim(TWO, JOB, {})
  {
    assert Whole(DirAt(11), DirAt(11).manifest.m);
    assert 0 in TWO.rows && TWO.rows[0].path == SECOND && OkRowOf(TWO, JOB, SECOND);
    assert Claim(TWO, JOB, FIRST) && Claim(TWO, JOB, SECOND);
  }

  const OFFER := Offer(None, Some(Backup(1, false)), true, true, FILE)

  const FIRST_INPUT := Input({}, OFFER, true)

  const SECOND_INPUT := Input(UNREADABLE, OFFER, false)

  const FIRST_TRY := Try(EMPTY, {}, false, FIRST_INPUT, Interrupted, None, None, STOPPED)

  const SECOND_TRY := Try(STOPPED, {}, true, SECOND_INPUT, Success(0), None, Some(WROTE_AGAIN), WROTE_AGAIN)

  const CASE := Case(EMPTY, {}, [FIRST_INPUT, SECOND_INPUT], [[]])

  lemma FirstTryOk(week: Retention.Time -> Retention.Week)
    ensures TryOk(SETTING, week, FIRST_TRY)
  {
    FirstVersionWaits();
  }

  lemma SecondTryOk(week: Retention.Time -> Retention.Week)
    ensures TryOk(SETTING, week, SECOND_TRY)
  {
    FirstVersionWaits();
    RecoveryLeavesIt();
    SecondVersionWritten();
    assert ReadManifest(FIRST) in UNREADABLE;
  }

  lemma TwoTries(week: Retention.Time -> Retention.Week)
    ensures Runs(SETTING, week, CASE, [FIRST_TRY, SECOND_TRY])
  {
    FirstTryOk(week);
    SecondTryOk(week);
    OneMoreTry(SETTING, week, CASE, [], FIRST_TRY);
    assert [] + [FIRST_TRY] == [FIRST_TRY] && [FIRST_TRY] + [SECOND_TRY] == [FIRST_TRY, SECOND_TRY];
    OneMoreTry(SETTING, week, CASE, [FIRST_TRY], SECOND_TRY);
  }

  /** From an empty destination, one manifest that cannot be read leads to two recorded ok versions that name one
      job: it is stopped before its row, overlooks its version when it is resumed and writes another, and the
      recovery of a later job records the first. */
  lemma TwoVersionsOfOneJob(week: Retention.Time -> Retention.Week, later: Setting)
    requires later == SETTING.(job := Job(2, 30), history := {JOB, Job(2, 30)})
    ensures NewJob(SETTING, EMPTY) && Runs(SETTING, week, CASE, [FIRST_TRY, SECOND_TRY])
    ensures SECOND_TRY.after == WROTE_AGAIN && SECOND_TRY.out.Success?
    ensures Recovering(later, WROTE_AGAIN, BOTH) && Inv(BOTH, {})
    ensures IsOwnOk(SETTING, BOTH, 0) && IsOwnOk(SETTING, BOTH, 1)
  {
    FirstVersionWaits();
    TwoTries(week);
    FirstRecordedLater(later);
  }

  lemma FirstRecordedLater(later: Setting)
    requires later == SETTING.(job := Job(2, 30), history := {JOB, Job(2, 30)})
    ensures Recovering(later, WROTE_AGAIN, BOTH) && Inv(BOTH, {})
    ensures IsOwnOk(SETTING, BOTH, 0) && IsOwnOk(SETTING, BOTH, 1)
  {
    SecondVersionWritten();
    assert !Recorded(WROTE_AGAIN, FIRST);
    assert Whole(DirAt(10), DirAt(10).manifest.m) && Adoptable(later, FIRST, DirAt(10));
    assert Adopted(later, WROTE_AGAIN, RowAt(10));
    RecordKeeps(WROTE_AGAIN, {}, RowAt(10));
  }
}
