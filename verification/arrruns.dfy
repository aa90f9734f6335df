/** Runs of a whole *arr backup job: its attempts, each perhaps stopped, and what happens at the destination
    between them; and what holds of every run. */
module ArrRuns {
  import opened Wrappers
  import opened ArrVersions
  import opened ArrRules
  import Env = ArrEnvironment
  import Retention

  /** One attempt: the state it began in and the one it left, what it met, its prune, and the state in which it had
      just recorded an ok version. */
  datatype Try = Try(
    before: World, spoiled: set<VersionPath>, resumed: bool, input: Input, out: Outcome,
    pruned: Option<PruneRun>, wrote: Option<World>, after: World)

  /** Nothing fails or stops, and a backup that passes verification can be had. */
  predicate Healthy(input: Input) {
    && input.broken == {} && !input.stops
    && input.offer.made.Some? && input.offer.fetched && input.offer.ok
  }

  /** What an attempt does. */
  ghost predicate TryOk(s: Setting, week: Retention.Time -> Retention.Week, t: Try) {
    && Inv(t.before, t.spoiled) && Inv(t.after, t.spoiled)
    && LosesNone(s, week, t)
    && (InOrder(s, t.before, t.spoiled, t.resumed) ==> KeepsOrder(s, t))
    && (Healthy(t.input) ==> t.out.Success? || t.out.Unchanged? || (t.resumed && t.out.BadVersion?))
    && (t.out == Interrupted ==> t.input.stops)
    && (t.out.Unchanged? ==>
        && t.out.row in Listed(s, t.after) && t.after.rows[t.out.row].ok
        && WholeFiles(t.after, t.after.rows[t.out.row]))
  }

  ghost predicate LosesNone(s: Setting, week: Retention.Time -> Retention.Week, t: Try) {
    && NoneLost(t.before, t.after, t.spoiled, t.pruned)
    && (t.pruned.Some? ==>
        && Anchored(s, week, t.spoiled, t.pruned.value, t.after)
        && RowsKept(t.before, t.pruned.value.before, t.spoiled))
  }

  /** What it does when what earlier attempts wrote is in order. */
  ghost predicate KeepsOrder(s: Setting, t: Try) {
    && (Harmless(t.input.broken) ==>
        OwnOk(s, t.after, t.spoiled) && (t.out.Success? ==> IsOwnOk(s, t.after, t.out.row)))
    && (t.input.broken == {} && t.out.Success? ==> Tidy(s, t.after))
    && (t.out.Success? && t.wrote.None? ==>
        IsOwnOk(s, t.after, t.out.row) && Returns(s, t.before, t.input.broken, t.after.rows[t.out.row].path))
    && (t.out.Success? && t.wrote.Some? ==>
        && WroteNew(s, t.before, t.wrote.value, t.out.row)
        && forall v :: !Returns(s, t.before, t.input.broken, v))
    && (t.wrote.Some? ==>
        (OneClaim(t.wrote.value, s.job, t.spoiled) <==> forall v :: !Overlooks(s, t.before, t.input.broken, v)))
  }

  /** A job: the state it begins in, what each of its attempts meets, and what happens after each. */
  datatype Case = Case(
    w: World, spoiled: set<VersionPath>, inputs: seq<Input>, events: seq<seq<Env.Event>>)

  /** ts are the attempts of the job c: each stopped but the last. */
  ghost predicate Chain(s: Setting, c: Case, ts: seq<Try>) {
    var n := |ts| - 1;
    && 0 <= n < |c.inputs| && n <= |c.events|
    && ts[n].input == c.inputs[n] && ts[n].resumed == (n > 0)
    && if n == 0 then ts[0].before == c.w && ts[0].spoiled == c.spoiled
       else Chain(s, c, ts[..n]) && Follows(s, ts[n - 1], c.events[n - 1], ts[n])
  }

  ghost predicate Follows(s: Setting, a: Try, es: seq<Env.Event>, b: Try) {
    && a.out == Interrupted
    && b.before == Env.After(s, a.after, es)
    && b.spoiled == Env.SpoiledAfter(s, a.after, a.spoiled, es)
  }

  ghost predicate Runs(s: Setting, week: Retention.Time -> Retention.Week, c: Case, ts: seq<Try>) {
    Chain(s, c, ts) && forall t :: t in ts ==> TryOk(s, week, t)
  }

  function Last(ts: seq<Try>): Try
    requires ts != []
  {
    ts[|ts| - 1]
  }

  /** Every attempt but the last was stopped, and each met what the job was given for it. */
  lemma {:induction false} StoppedBefore(s: Setting, week: Retention.Time -> Retention.Week, c: Case, ts: seq<Try>,
      k: nat)
    requires Runs(s, week, c, ts) && k < |ts|
    ensures k < |c.inputs| && ts[k].input == c.inputs[k] && ts[k].resumed == (k > 0)
    ensures k < |ts| - 1 ==> ts[k].out == Interrupted
  {
    var n := |ts| - 1;
    if k < n {
      RunsAt(s, week, c, ts, n);
      StoppedBefore(s, week, c, ts[..n], k);
    }
  }

  /** With a healthy attempt the job is over: it succeeded or had nothing to do or, resumed, ends with a version of
      an earlier attempt that failed verification. */
  lemma HealthyEnds(s: Setting, week: Retention.Time -> Retention.Week, c: Case, ts: seq<Try>, k: nat)
    requires Runs(s, week, c, ts) && k < |ts| && Healthy(ts[k].input)
    ensures k == |ts| - 1
    ensures Last(ts).out.Success? || Last(ts).out.Unchanged? || (k > 0 && Last(ts).out.BadVersion?)
  {
    StoppedBefore(s, week, c, ts, k);
    RunsAt(s, week, c, ts, k);
  }

  // ---- Nothing is lost ----

  /** The prune of t gave row i up, when it still was row. */
  predicate GaveUpIn(t: Try, i: RowId, row: Row) {
    t.pruned.Some? && i in t.pruned.value.gone && Stays(t.pruned.value.before, i, row)
  }

  /** A prune of attempt from or a later one did. */
  predicate GaveUp(ts: seq<Try>, from: nat, i: RowId, row: Row) {
    |ts| > from && (GaveUpIn(Last(ts), i, row) || GaveUp(ts[..|ts| - 1], from, i, row))
  }

  predicate Stays(w: World, i: RowId, row: Row) {
    i in w.rows && w.rows[i] == row
  }

  lemma RunsAt(s: Setting, week: Retention.Time -> Retention.Week, c: Case, ts: seq<Try>, k: nat)
    requires Runs(s, week, c, ts) && k < |ts|
    ensures TryOk(s, week, ts[k])
    ensures |ts| > 1 ==> Runs(s, week, c, ts[..|ts| - 1]) && Follows(s, ts[|ts| - 2], c.events[|ts| - 2], Last(ts))
  {
    assert ts[k] in ts;
  }

  lemma BetweenTries(s: Setting, week: Retention.Time -> Retention.Week, a: Try, es: seq<Env.Event>, b: Try)
    requires TryOk(s, week, a) && Follows(s, a, es, b)
    ensures a.spoiled <= b.spoiled
    ensures forall i :: i in Listed(s, a.after) ==> Stays(b.before, i, a.after.rows[i])
  {
    Env.AfterKeeps(s, a.after, a.spoiled, es);
  }

  lemma InTry(s: Setting, week: Retention.Time -> Retention.Week, t: Try, i: RowId, row: Row)
    requires TryOk(s, week, t) && row.ok && row.path !in t.spoiled
    requires Stays(t.before, i, row) || (t.pruned.Some? && Stays(t.pruned.value.before, i, row))
    ensures Stays(t.after, i, row) || GaveUpIn(t, i, row)
  {
  }

  /** What attempt a left recorded ok and nothing else changed, attempt b leaves so or gives up. */
  ghost predicate Carries(s: Setting, a: Try, b: Try) {
    && a.spoiled <= b.spoiled
    && forall i, row :: Stays(a.after, i, row) && row.integration == s.it.id && row.ok && row.path !in b.spoiled ==>
      Stays(b.after, i, row) || GaveUpIn(b, i, row)
  }

  lemma EachCarries(s: Setting, week: Retention.Time -> Retention.Week, c: Case, ts: seq<Try>)
    requires Runs(s, week, c, ts) && |ts| > 1
    ensures Runs(s, week, c, ts[..|ts| - 1]) && Carries(s, ts[|ts| - 2], Last(ts))
  {
    var n := |ts| - 1;
    var a, b := ts[n - 1], ts[n];
    RunsAt(s, week, c, ts, n);
    RunsAt(s, week, c, ts, n - 1);
    BetweenTries(s, week, a, c.events[n - 1], b);
    forall i, row | Stays(a.after, i, row) && row.integration == s.it.id && row.ok && row.path !in b.spoiled
      ensures Stays(b.after, i, row) || GaveUpIn(b, i, row)
    {
      assert i in Listed(s, a.after);
      InTry(s, week, b, i, row);
    }
  }

  lemma {:induction false} Lasts(s: Setting, week: Retention.Time -> Retention.Week, c: Case, ts: seq<Try>, k: nat,
      i: RowId, row: Row)
    requires Runs(s, week, c, ts) && k < |ts|
    requires Stays(ts[k].after, i, row) && row.integration == s.it.id && row.ok && row.path !in Last(ts).spoiled
    ensures Stays(Last(ts).after, i, row) || GaveUp(ts, k, i, row)
  {
    var n := |ts| - 1;
    if k < n {
      EachCarries(s, week, c, ts);
      Lasts(s, week, c, ts[..n], k, i, row);
    }
  }

  /** An ok version of the integration that is recorded as attempt k begins, or as its prune does, is recorded
      the same in the end, unless something else changed it or a prune from then on gave it up. */
  lemma NothingLost(s: Setting, week: Retention.Time -> Retention.Week, c: Case, ts: seq<Try>, k: nat, start: World,
      i: RowId)
    requires Runs(s, week, c, ts) && k < |ts|
    requires start == ts[k].before || (ts[k].pruned.Some? && start == ts[k].pruned.value.before)
    requires i in Listed(s, start) && start.rows[i].ok && start.rows[i].path !in Last(ts).spoiled
    ensures Stays(Last(ts).after, i, start.rows[i]) || GaveUp(ts, k, i, start.rows[i])
  {
    SpoiledGrows(s, week, c, ts, k);
    RunsAt(s, week, c, ts, k);
    InTry(s, week, ts[k], i, start.rows[i]);
    if Stays(ts[k].after, i, start.rows[i]) {
      Lasts(s, week, c, ts, k, i, start.rows[i]);
    } else {
      GaveUpLater(ts, k, i, start.rows[i]);
    }
  }

  lemma {:induction false} GaveUpLater(ts: seq<Try>, k: nat, i: RowId, row: Row)
    requires k < |ts| && GaveUpIn(ts[k], i, row)
    ensures GaveUp(ts, k, i, row)
  {
    if k < |ts| - 1 {
      GaveUpLater(ts[..|ts| - 1], k, i, row);
    }
  }

  /** What something else changed stays so. */
  lemma {:induction false} SpoiledGrows(s: Setting, week: Retention.Time -> Retention.Week, c: Case, ts: seq<Try>,
      k: nat)
    requires Runs(s, week, c, ts) && k < |ts|
    ensures ts[k].spoiled <= Last(ts).spoiled
  {
    var n := |ts| - 1;
    if k < n {
      EachCarries(s, week, c, ts);
      SpoiledGrows(s, week, c, ts[..n], k);
    }
  }

  // ---- An ok version stays ----

  predicate HasOk(s: Setting, w: World, spoiled: set<VersionPath>) {
    exists i :: i in Listed(s, w) && w.rows[i].ok && w.rows[i].path !in spoiled
  }

  /** Nothing else changed an ok version of the integration. */
  predicate OksUnspoiled(s: Setting, w: World, spoiled: set<VersionPath>) {
    forall i :: i in Listed(s, w) && w.rows[i].ok ==> w.rows[i].path !in spoiled
  }

  predicate PrunesUnspoiled(s: Setting, ts: seq<Try>, spoiled: set<VersionPath>) {
    ts == [] ||
    (&& (Last(ts).pruned.Some? ==> OksUnspoiled(s, Last(ts).pruned.value.before, spoiled))
     && PrunesUnspoiled(s, ts[..|ts| - 1], spoiled))
  }

  /** A prune that finds an ok version leaves one: the newest is never given up. */
  lemma SomeOkNotGivenUp(s: Setting, week: Retention.Time -> Retention.Week, p: PruneRun, i: RowId) returns (j: RowId)
    requires Justified(s, week, p) && i in Listed(s, p.before) && p.before.rows[i].ok
    ensures j in Listed(s, p.before) && p.before.rows[j].ok && j !in p.gone
  {
    j := i;
    if i in p.gone {
      assert View(i, p.before.rows[i]) in p.cands;
      var v := Retention.NewestOk(p.cands);
      Retention.NewestOkKept(p.cands, v, s.daily, s.weekly, week, p.before.now);
      j := v.id;
    }
  }

  lemma TryKeepsAnOk(s: Setting, week: Retention.Time -> Retention.Week, t: Try, spoiled: set<VersionPath>)
    requires TryOk(s, week, t) && t.spoiled <= spoiled && HasOk(s, t.before, spoiled)
    requires t.pruned.Some? ==> OksUnspoiled(s, t.pruned.value.before, spoiled)
    ensures HasOk(s, t.after, spoiled)
  {
    var i :| i in Listed(s, t.before) && t.before.rows[i].ok && t.before.rows[i].path !in spoiled;
    if t.pruned.Some? {
      var p := t.pruned.value;
      assert Stays(p.before, i, t.before.rows[i]);
      var j := SomeOkNotGivenUp(s, week, p, i);
      assert Stays(t.after, j, p.before.rows[j]);
    } else {
      assert Stays(t.after, i, t.before.rows[i]);
    }
  }

  /** If an ok version of the integration was recorded before the job, one is recorded after it, unless
      something else changed an ok version a prune saw. */
  lemma {:induction false} AnOkStays(s: Setting, week: Retention.Time -> Retention.Week, c: Case, ts: seq<Try>,
      all: set<VersionPath>)
    requires Runs(s, week, c, ts) && Last(ts).spoiled <= all
    requires HasOk(s, c.w, all) && PrunesUnspoiled(s, ts, all)
    ensures HasOk(s, Last(ts).after, all)
  {
    var n := |ts| - 1;
    RunsAt(s, week, c, ts, n);
    if n > 0 {
      var a, b := ts[n - 1], ts[n];
      RunsAt(s, week, c, ts, n - 1);
      BetweenTries(s, week, a, c.events[n - 1], b);
      AnOkStays(s, week, c, ts[..n], all);
      var i :| i in Listed(s, a.after) && a.after.rows[i].ok && a.after.rows[i].path !in all;
      assert Stays(b.before, i, a.after.rows[i]);
    }
    TryKeepsAnOk(s, week, ts[n], all);
  }

  // ---- One version for one job ----

  /** No version at the destination and no row names the job: it was just queued. */
  ghost predicate NewJob(s: Setting, w: World) {
    && (forall i :: i in w.rows ==> !RowNames(w.rows[i], s.job))
    && (forall n :: n in w.dirs ==> !DirNames(w.dirs[n], s.job))
  }

  lemma NewJobIsQuiet(s: Setting, w: World, spoiled: set<VersionPath>)
    requires NewJob(s, w)
    ensures Quiet(s, w, spoiled) && OwnOk(s, w, spoiled)
  {
    QuietIsOwnOk(s, w, spoiled);
  }

  /** No access that fails keeps a version from being recorded or found, but perhaps in the last attempt, and no
      event is about what this job wrote. */
  ghost predicate Undisturbed(s: Setting, c: Case, ts: seq<Try>)
    requires |ts| <= |c.events| + 1
  {
    |ts| <= 1 ||
    (var n := |ts| - 1;
     && Harmless(ts[n - 1].input.broken) && Env.AllAside(s, ts[n - 1].after, c.events[n - 1])
     && Undisturbed(s, c, ts[..n]))
  }

  lemma OrderBetween(s: Setting, week: Retention.Time -> Retention.Week, a: Try, es: seq<Env.Event>, b: Try)
    requires TryOk(s, week, a) && Follows(s, a, es, b) && b.resumed
    requires InOrder(s, a.before, a.spoiled, a.resumed) && Harmless(a.input.broken) && Env.AllAside(s, a.after, es)
    ensures InOrder(s, b.before, b.spoiled, b.resumed)
  {
    Env.AfterKeepsOwn(s, a.after, a.spoiled, es);
  }

  lemma {:induction false} BeginsInOrder(s: Setting, week: Retention.Time -> Retention.Week, c: Case, ts: seq<Try>)
    requires Runs(s, week, c, ts) && NewJob(s, c.w) && Undisturbed(s, c, ts)
    ensures InOrder(s, Last(ts).before, Last(ts).spoiled, Last(ts).resumed)
  {
    var n := |ts| - 1;
    if n == 0 {
      NewJobIsQuiet(s, c.w, c.spoiled);
    } else {
      RunsAt(s, week, c, ts, n - 1);
      BeginsInOrder(s, week, c, ts[..n]);
      OrderBetween(s, week, ts[n - 1], c.events[n - 1], ts[n]);
    }
  }

  /** When a job succeeds undisturbed, exactly one recorded ok version names it; when nothing failed in its last
      attempt, its folders are tidy. */
  lemma OneVersion(s: Setting, week: Retention.Time -> Retention.Week, c: Case, ts: seq<Try>)
    requires Runs(s, week, c, ts) && NewJob(s, c.w)
    requires Undisturbed(s, c, ts) && Last(ts).out.Success?
    ensures Harmless(Last(ts).input.broken) ==>
      forall i :: IsOwnOk(s, Last(ts).after, i) <==> i == Last(ts).out.row
    ensures Last(ts).input.broken == {} ==> Tidy(s, Last(ts).after)
  {
    BeginsInOrder(s, week, c, ts);
    RunsAt(s, week, c, ts, |ts| - 1);
    var t := Last(ts);
    if Harmless(t.input.broken) {
      forall i | IsOwnOk(s, t.after, i) ensures i == t.out.row {
        OnlyOwn(s, t.after, t.spoiled, i, t.out.row);
      }
    }
  }

  /** When attempt t had just recorded an ok version, before its prune, this job had two. */
  ghost predicate WroteSecond(s: Setting, t: Try) {
    t.wrote.Some? && !OneClaim(t.wrote.value, s.job, t.spoiled)
  }

  /** The attempt that follows undisturbed ones and succeeds, or records an ok version and then stops, has written
      a second version if and only if its failing accesses overlook the one that was there. When it succeeds it
      ends with a version that was there if they let it return one, and with a new one otherwise. */
  lemma SecondVersionIff(s: Setting, week: Retention.Time -> Retention.Week, c: Case, ts: seq<Try>)
    requires Runs(s, week, c, ts) && NewJob(s, c.w)
    requires Undisturbed(s, c, ts) && (Last(ts).out.Success? || Last(ts).wrote.Some?)
    ensures WroteSecond(s, Last(ts)) <==> exists v :: Overlooks(s, Last(ts).before, Last(ts).input.broken, v)
    ensures Last(ts).out.Success? ==>
      (Last(ts).wrote.None? <==> exists v :: Returns(s, Last(ts).before, Last(ts).input.broken, v))
  {
    BeginsInOrder(s, week, c, ts);
    RunsAt(s, week, c, ts, |ts| - 1);
    var t := Last(ts);
    if t.wrote.None? {
      ReturnsOrOverlooks(s, t.before, t.spoiled, t.input.broken, t.after.rows[t.out.row].path);
    }
  }

  /** Jobs that only time passes between, and that meet no harmful failure, are undisturbed. */
  lemma {:induction false} OnlyTimeIsUndisturbed(s: Setting, c: Case, ts: seq<Try>)
    requires Chain(s, c, ts)
    requires forall input :: input in c.inputs ==> Harmless(input.broken)
    requires forall es :: es in c.events ==> forall e :: e in es ==> e.Pass?
    ensures Undisturbed(s, c, ts) && Harmless(Last(ts).input.broken)
  {
    var n := |ts| - 1;
    assert c.inputs[n] in c.inputs;
    if n > 0 {
      OnlyTimeIsUndisturbed(s, c, ts[..n]);
      assert c.events[n - 1] in c.events;
      Env.PassingIsAside(s, ts[n - 1].after, c.events[n - 1]);
    }
  }
}
