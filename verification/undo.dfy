/** What undo takes back, over any run of calls to the limiter (internal/auth/limiter.go), when no two
    readings of its clock are alike. */
module LimiterUndo {
  import opened Wrappers
  import opened LoginLimiter

  datatype Call = Try(key: Key) | Miss(key: Key) | Right(key: Key) | Ask(key: Key) | Undoing(n: nat)

  /** No two records of a history have one time. */
  ghost predicate Apart(log: seq<Rec>) {
    log == [] || (var n := |log| - 1; Apart(log[..n]) && (n > 0 ==> log[n - 1].at < log[n].at))
  }

  lemma {:induction false} ApartAt(log: seq<Rec>, i: nat, j: nat)
    requires Apart(log) && i < j < |log|
    ensures log[i].at < log[j].at
  {
    var n := |log| - 1;
    if j < n {
      ApartAt(log[..n], i, j);
    } else if i < n - 1 {
      ApartAt(log[..n], i, n - 1);
    }
  }

  lemma {:induction false} ApartWithout(log: seq<Rec>, k: nat)
    requires Apart(log) && k < |log|
    ensures Apart(Without(log, k))
  {
    var n := |log| - 1;
    if k == n {
      assert Without(log, k) == log[..n];
    } else {
      ApartWithout(log[..n], k);
      WithoutButLast(log, k);
      var r := Without(log, k);
      assert r[..n - 1] == Without(log[..n], k);
      if n > 1 {
        assert r[n - 2] == log[n - 1] || r[n - 2] == log[n - 2];
        ApartAt(log, n - 2, n);
      }
    }
  }

  lemma ApartAppended(log: seq<Rec>, now: Time, r: Rec)
    requires Apart(log) && InOrder(log, now) && now < r.at
    ensures Apart(log + [r])
  {
    assert (log + [r])[..|log|] == log;
  }

  ghost predicate AllApart(logs: map<Key, seq<Rec>>) {
    forall key :: Apart(At(logs, key))
  }

  /** What log' has that log had not is newer than at. */
  ghost predicate NewerIn(log: seq<Rec>, at: Time, log': seq<Rec>) {
    forall r :: r in log' ==> r in log || r.at > at
  }

  /** What any history has gained is newer than at. */
  ghost predicate Newer(logs: map<Key, seq<Rec>>, at: Time, logs': map<Key, seq<Rec>>) {
    forall key :: NewerIn(At(logs, key), at, At(logs', key))
  }

  lemma NewerTwice(logs: map<Key, seq<Rec>>, at: Time, logs': map<Key, seq<Rec>>, later: Time,
      logs'': map<Key, seq<Rec>>)
    requires Newer(logs, at, logs') && at <= later && Newer(logs', later, logs'')
    ensures Newer(logs, at, logs'')
  {
    forall key ensures NewerIn(At(logs, key), at, At(logs'', key)) {
      assert NewerIn(At(logs, key), at, At(logs', key)) && NewerIn(At(logs', key), later, At(logs'', key));
    }
  }

  /** The step of a call that gave one key the history log, after evicting another perhaps. */
  lemma Stepped(logs: map<Key, seq<Rec>>, now: Time, evicted: Option<Key>, key: Key, log: seq<Rec>)
    requires AllApart(logs) && Apart(log) && NewerIn(At(logs, key), now, log)
    ensures AllApart(Evicted(logs, evicted)[key := log]) && Newer(logs, now, Evicted(logs, evicted)[key := log])
  {
    var logs' := Evicted(logs, evicted)[key := log];
    forall k ensures Apart(At(logs', k)) && NewerIn(At(logs, k), now, At(logs', k)) {
      assert Apart(At(logs, k));
    }
  }

  lemma Recorded(l: Limiter, key: Key, logs: map<Key, seq<Rec>>, fails: map<Key, seq<Time>>, now: Time,
      evicted: Option<Key>, r: Rec)
    requires AllOkay(fails, logs, l.max, l.window, now) && AllApart(logs) && now < r.at
    ensures AllApart(Evicted(logs, evicted)[key := At(logs, key) + [r]])
    ensures Newer(logs, now, Evicted(logs, evicted)[key := At(logs, key) + [r]])
  {
    LogInOrder(fails, logs, l.max, l.window, now, key);
    assert Apart(At(logs, key));
    ApartAppended(At(logs, key), now, r);
    Stepped(logs, now, evicted, key, At(logs, key) + [r]);
  }

  lemma TakenBack(fails: map<Key, seq<Time>>, logs: map<Key, seq<Rec>>, key: Key, at: Time, now: Time)
    requires AllApart(logs)
    ensures AllApart(Forgotten(fails, logs, key, at).1) && Newer(logs, now, Forgotten(fails, logs, key, at).1)
  {
    var f, log := At(fails, key), At(logs, key);
    var i := IndexOf(f, at);
    if i < |f| <= |log| {
      assert Apart(log);
      ApartWithout(log, |log| - |f| + i);
      Stepped(logs, now, None, key, Without(log, |log| - |f| + i));
    }
  }

  /** One call; undos are the undos handed out so far. */
  method Make(l: Limiter, call: Call, undos: seq<Undo>) returns (undos': seq<Undo>)
    requires l.Valid() && l.strict && AllApart(l.logs)
    modifies l, set u | u in undos
    ensures l.Valid() && AllApart(l.logs) && l.clock >= old(l.clock)
    ensures Newer(old(l.logs), old(l.clock), l.logs)
    ensures undos <= undos' && forall u :: u in undos' ==> u in undos || fresh(u)
  {
    undos' := undos;
    ghost var fails, logs, now := l.fails, l.logs, l.clock;
    match call {
      case Try(key) =>
        var undo, wait, f, read, evicted := l.Attempt(key);
        if undo.Some? {
          Recorded(l, key, logs, fails, now, evicted, Rec(undo.value.at, true));
          undos' := undos + [undo.value];
        }
      case Miss(key) =>
        ghost var at, evicted := l.Fail(key);
        Recorded(l, key, logs, fails, now, evicted, Rec(at, false));
      case Right(key) =>
        l.Success(key);
        Stepped(logs, now, None, key, []);
      case Ask(key) =>
        var blocked, wait, f, read := l.Blocked(key);
      case Undoing(n) =>
        if n < |undos| {
          TakenBack(fails, logs, undos[n].key, undos[n].at, now);
          l.TakeBack(undos[n]);
        }
    }
  }

  /** Any calls, one after another: requests running together take turns at the limiter's mutex. */
  method MakeAll(l: Limiter, calls: seq<Call>, undos: seq<Undo>) returns (undos': seq<Undo>)
    requires l.Valid() && l.strict && AllApart(l.logs)
    modifies l, set u | u in undos
    ensures l.Valid() && AllApart(l.logs) && l.clock >= old(l.clock)
    ensures Newer(old(l.logs), old(l.clock), l.logs)
    ensures undos <= undos' && forall u :: u in undos' ==> u in undos || fresh(u)
  {
    undos' := undos;
    for i := 0 to |calls|
      invariant l.Valid() && AllApart(l.logs) && l.clock >= old(l.clock)
      invariant Newer(old(l.logs), old(l.clock), l.logs)
      invariant undos <= undos' && forall u :: u in undos' ==> u in undos || fresh(u)
    {
      ghost var logs, now, had := l.logs, l.clock, undos';
      undos' := Make(l, calls[i], undos');
      NewerTwice(old(l.logs), old(l.clock), logs, now, l.logs);
    }
  }

  // ---- What the undo of an attempt finds after any calls ----

  /** A history without its records at one time. */
  ghost function Except(log: seq<Rec>, at: Time): seq<Rec> {
    if log == [] then []
    else
      var n := |log| - 1;
      Except(log[..n], at) + if log[n].at == at then [] else [log[n]]
  }

  lemma {:induction false} ExceptNone(log: seq<Rec>, at: Time)
    requires forall r :: r in log ==> r.at != at
    ensures Except(log, at) == log
  {
    if log != [] {
      ExceptNone(log[..|log| - 1], at);
    }
  }

  lemma {:induction false} ExceptOne(log: seq<Rec>, k: nat)
    requires Apart(log) && k < |log|
    ensures Except(log, log[k].at) == Without(log, k)
  {
    var n := |log| - 1;
    if k == n {
      forall r | r in log[..n] ensures r.at != log[k].at {
        var i :| 0 <= i < n && log[i] == r;
        ApartAt(log, i, n);
      }
      ExceptNone(log[..n], log[k].at);
      assert Without(log, k) == log[..n];
    } else {
      ExceptOne(log[..n], k);
      ApartAt(log, k, n);
      WithoutButLast(log, k);
    }
  }

  /** The kept failures of a key are times of its history. */
  lemma KeptIsRecorded(f: seq<Time>, log: seq<Rec>, window: nat, now: Time, i: nat)
    requires Keeps(f, log, window, now) && i < |f|
    ensures |f| <= |log| && log[|log| - |f| + i] in log && log[|log| - |f| + i].at == f[i]
  {
    KeepsTail(f, log, window, now, i);
  }

  /** No record has the undo's time: nothing is taken back. */
  lemma NothingToTakeBack(l: Limiter, key: Key, at: Time)
    requires l.Valid() && forall r :: r in At(l.logs, key) ==> r.at != at
    ensures Forgotten(l.fails, l.logs, key, at) == (l.fails, l.logs)
  {
    var f, log := At(l.fails, key), At(l.logs, key);
    assert KeyOkay(l.fails, l.logs, l.max, l.window, l.clock, key);
    if IndexOf(f, at) < |f| {
      KeptIsRecorded(f, log, l.window, l.clock, IndexOf(f, at));
    }
  }

  /** Taking back at removes the record an attempt made then, if it is still kept, and no other record. */
  ghost predicate TakesJust(fails: map<Key, seq<Time>>, logs: map<Key, seq<Rec>>, key: Key, at: Time) {
    && (forall r :: r in At(logs, key) && r.at == at ==> r.attempt)
    && Forgotten(fails, logs, key, at).1 ==
      (if at in At(fails, key) then logs[key := Except(At(logs, key), at)] else logs)
  }

  lemma TakesOneRecord(fails: map<Key, seq<Time>>, logs: map<Key, seq<Rec>>, max: nat, window: nat, now: Time, key: Key,
      at: Time)
    requires AllOkay(fails, logs, max, window, now) && AllApart(logs)
    requires forall r :: r in At(logs, key) && r.at == at ==> r.attempt
    ensures TakesJust(fails, logs, key, at)
  {
    var f, log := At(fails, key), At(logs, key);
    assert KeyOkay(fails, logs, max, window, now, key) && Apart(log);
    if IndexOf(f, at) < |f| {
      KeptIsRecorded(f, log, window, now, IndexOf(f, at));
      ExceptOne(log, |log| - |f| + IndexOf(f, at));
    }
  }

  /** The record an attempt makes is the only one of its time, then and after any calls. */
  lemma OnlyOwn(fails: map<Key, seq<Time>>, logs: map<Key, seq<Rec>>, max: nat, window: nat, now: Time, key: Key,
      made: seq<Rec>, at: Time, later: Time, log: seq<Rec>)
    requires AllOkay(fails, logs, max, window, now) && now < at <= later
    requires made == At(logs, key) + [Rec(at, true)] && NewerIn(made, later, log)
    ensures forall r :: r in log && r.at == at ==> r.attempt
  {
    LogInOrder(fails, logs, max, window, now, key);
    forall r | r in log && r.at == at ensures r.attempt {
      var i :| 0 <= i < |made| && made[i] == r;
      if i < |made| - 1 {
        Ordered(At(logs, key), now, i, i);
      }
    }
  }

  /** After any calls, the undo of an attempt takes back that attempt's record, if it is still kept, and
      no other record of any key. */
  method UndoTakesItsOwn(l: Limiter, key: Key, calls: seq<Call>, undos: seq<Undo>)
    returns (undo: Option<Undo>, undos': seq<Undo>)
    requires l.Valid() && l.strict && AllApart(l.logs)
    modifies l, set u | u in undos
    ensures l.Valid() && AllApart(l.logs)
    ensures undos <= undos' && forall u :: u in undos' ==> u in undos || fresh(u)
    ensures undo.Some? ==> undo.value.key == key && undo.value.at <= l.clock && undo.value in undos'
    ensures undo.Some? ==> TakesJust(l.fails, l.logs, key, undo.value.at)
  {
    ghost var fails, logs, now := l.fails, l.logs, l.clock;
    var wait;
    ghost var f, read, evicted;
    undo, wait, f, read, evicted := l.Attempt(key);
    undos' := undos;
    if undo.Some? {
      var at := undo.value.at;
      Recorded(l, key, logs, fails, now, evicted, Rec(at, true));
      ghost var made, later := At(l.logs, key), l.clock;
      ghost var madeLogs := l.logs;
      undos' := MakeAll(l, calls, undos + [undo.value]);
      assert undos'[|undos|] == undo.value;
      assert NewerIn(At(madeLogs, key), later, At(l.logs, key));
      OnlyOwn(fails, logs, l.max, l.window, now, key, made, at, later, At(l.logs, key));
      TakesOneRecord(l.fails, l.logs, l.max, l.window, l.clock, key, at);
    }
  }

  /** The undo of an attempt finds nothing to take back once its key had a Success, whatever was called
      between the attempt and the Success and after it. */
  method UndoAfterSuccess(l: Limiter, key: Key, between: seq<Call>, after: seq<Call>, undos: seq<Undo>)
    returns (undo: Option<Undo>, undos': seq<Undo>)
    requires l.Valid() && l.strict && AllApart(l.logs)
    modifies l, set u | u in undos
    ensures l.Valid() && AllApart(l.logs)
    ensures undo.Some? ==> undo.value.key == key
    ensures undo.Some? ==> Forgotten(l.fails, l.logs, key, undo.value.at) == (l.fails, l.logs)
  {
    undo, undos' := UndoTakesItsOwn(l, key, between, undos);
    ghost var logs, now := l.logs, l.clock;
    l.Success(key);
    Stepped(logs, now, None, key, []);
    ghost var cleared := l.logs;
    undos' := MakeAll(l, after, undos');
    if undo.Some? {
      assert NewerIn(At(cleared, key), now, At(l.logs, key));
      NothingToTakeBack(l, key, undo.value.at);
    }
  }
}
