/** The login limiter (internal/auth/limiter.go): at most max failures per client within a sliding
    window. Every method holds the limiter's mutex, so any interleaving of requests is a sequence of
    these calls. */
module LoginLimiter {
  import opened Sets
  import opened Wrappers

  type Time = int

  type Key = string

  const MAX_TRACKED: nat := 10000

  /** A recorded failure; attempt when Attempt admitted it. */
  datatype Rec = Rec(at: Time, attempt: bool)

  // ---- The history of one key since it was last forgotten ----

  ghost predicate InOrder(log: seq<Rec>, now: Time) {
    log == [] || (log[|log| - 1].at <= now && InOrder(log[..|log| - 1], log[|log| - 1].at))
  }

  lemma {:induction false} Ordered(log: seq<Rec>, now: Time, i: nat, j: nat)
    requires InOrder(log, now) && i <= j < |log|
    ensures log[i].at <= log[j].at <= now
  {
    var n := |log| - 1;
    if j < n {
      Ordered(log[..n], log[n].at, i, j);
    } else if i < n {
      Ordered(log[..n], log[n].at, i, n - 1);
    }
  }

  /** Before each admitted attempt, the max-th record back is a whole window older. */
  ghost predicate Spaced(log: seq<Rec>, max: nat, window: nat) {
    log == [] ||
    (var n := |log| - 1;
     && Spaced(log[..n], max, window)
     && (log[n].attempt && max <= n ==> log[n - max].at + window <= log[n].at))
  }

  /** f is what the limiter keeps of log: a tail of it, the rest having left the window. */
  ghost predicate Keeps(f: seq<Time>, log: seq<Rec>, window: nat, now: Time) {
    if f == [] then log == [] || log[|log| - 1].at + window <= now
    else
      && log != []
      && f[|f| - 1] == log[|log| - 1].at
      && Keeps(f[..|f| - 1], log[..|log| - 1], window, now)
  }

  lemma {:induction false} KeepsTail(f: seq<Time>, log: seq<Rec>, window: nat, now: Time, i: nat)
    requires Keeps(f, log, window, now) && i < |f|
    ensures |f| <= |log| && f[i] == log[|log| - |f| + i].at
  {
    if i < |f| - 1 {
      KeepsTail(f[..|f| - 1], log[..|log| - 1], window, now, i);
    } else if i > 0 {
      KeepsTail(f[..|f| - 1], log[..|log| - 1], window, now, i - 1);
    }
  }

  /** What is not kept has left the window. */
  lemma {:induction false} KeepsRecent(f: seq<Time>, log: seq<Rec>, window: nat, now: Time, last: Time, i: nat)
    requires Keeps(f, log, window, now) && InOrder(log, last) && i < |log| - |f|
    ensures log[i].at + window <= now
  {
    if f == [] {
      Ordered(log, last, i, |log| - 1);
    } else {
      KeepsRecent(f[..|f| - 1], log[..|log| - 1], window, now, log[|log| - 1].at, i);
    }
  }

  /** How many attempts were admitted from one time to another. */
  ghost function Admitted(log: seq<Rec>, from: Time, to: Time): nat {
    if log == [] then 0
    else
      var r := log[|log| - 1];
      Admitted(log[..|log| - 1], from, to) + if r.attempt && from <= r.at <= to then 1 else 0
  }

  lemma {:induction false} AdmittedAmongLast(log: seq<Rec>, from: Time, to: Time, n: nat)
    requires forall i :: 0 <= i < |log| - n ==> log[i].at < from
    ensures Admitted(log, from, to) <= n
  {
    if log != [] {
      AdmittedAmongLast(log[..|log| - 1], from, to, if n == 0 then 0 else n - 1);
    }
  }

  /** Any interval shorter than the window holds at most max admitted attempts. */
  lemma {:induction false} RateBound(log: seq<Rec>, max: nat, window: nat, now: Time, from: Time, to: Time)
    requires InOrder(log, now) && Spaced(log, max, window) && max > 0 && to - from < window
    ensures Admitted(log, from, to) <= max
  {
    if log != [] {
      var n := |log| - 1;
      if log[n].attempt && from <= log[n].at <= to {
        forall i | 0 <= i < |log| - max ensures log[i].at < from {
          Ordered(log, now, i, n - max);
        }
        AdmittedAmongLast(log, from, to, max);
      } else {
        RateBound(log[..n], max, window, log[n].at, from, to);
      }
    }
  }

  // ---- The limiter ----

  function Later(f: seq<Time>, cutoff: Time): seq<Time> {
    if f == [] then []
    else (if f[0] > cutoff then [f[0]] else []) + Later(f[1..], cutoff)
  }

  ghost predicate Rising(f: seq<Time>) {
    forall i, j :: 0 <= i < j < |f| ==> f[i] <= f[j]
  }

  function Last(f: seq<Time>): Time
    requires f != []
  {
    f[|f| - 1]
  }

  lemma {:induction false} LaterLast(f: seq<Time>, cutoff: Time)
    ensures Later(f, cutoff) != [] && f != [] && Rising(f) ==> Last(Later(f, cutoff)) == Last(f)
  {
    if f != [] {
      LaterLast(f[1..], cutoff);
    }
  }

  lemma {:induction false} LaterIsTail(f: seq<Time>, cutoff: Time, i: nat)
    requires Rising(f) && i <= |f| && (forall j :: 0 <= j < i ==> f[j] <= cutoff) && (i < |f| ==> f[i] > cutoff)
    ensures Later(f, cutoff) == f[i..]
  {
    if f != [] {
      if i > 0 {
        LaterIsTail(f[1..], cutoff, i - 1);
      } else {
        LaterIsTail(f[1..], cutoff, 0);
      }
    }
  }

  /** How many records are later than from. */
  ghost function Within(log: seq<Rec>, from: Time): nat {
    if log == [] then 0
    else
      var n := |log| - 1;
      Within(log[..n], from) + if log[n].at > from then 1 else 0
  }

  lemma {:induction false} LaterOfMore(f: seq<Time>, x: Time, cutoff: Time)
    ensures Later(f + [x], cutoff) == Later(f, cutoff) + if x > cutoff then [x] else []
  {
    if f == [] {
      assert [x][1..] == [];
    } else {
      assert (f + [x])[1..] == f[1..] + [x];
      LaterOfMore(f[1..], x, cutoff);
    }
  }

  lemma {:induction false} NoneWithin(log: seq<Rec>, now: Time, from: Time)
    requires InOrder(log, now) && (log != [] ==> log[|log| - 1].at <= from)
    ensures Within(log, from) == 0
  {
    if log != [] {
      var n := |log| - 1;
      NoneWithin(log[..n], log[n].at, from);
    }
  }

  /** The kept failures after from are the records after from, when from is in the window. */
  lemma {:induction false} LaterCounts(f: seq<Time>, log: seq<Rec>, window: nat, now: Time, last: Time, from: Time)
    requires Keeps(f, log, window, now) && InOrder(log, last) && from >= now - window
    ensures |Later(f, from)| == Within(log, from)
  {
    if f == [] {
      NoneWithin(log, last, from);
    } else {
      var m, n := |f| - 1, |log| - 1;
      LaterCounts(f[..m], log[..n], window, now, log[n].at, from);
      assert f == f[..m] + [f[m]];
      LaterOfMore(f[..m], f[m], from);
    }
  }

  /** What Attempt hands out: undo, once. */
  class Undo {
    const key: Key
    const at: Time
    var done: bool

    constructor (key: Key, at: Time)
      ensures this.key == key && this.at == at && !done
    {
      this.key, this.at, done := key, at, false;
    }
  }

  /** The entry of a map whose missing entries are empty. */
  function At<T>(m: map<Key, seq<T>>, key: Key): seq<T> {
    if key in m then m[key] else []
  }

  /** What holds between the kept failures f of a key and its history. */
  ghost predicate Okay(f: seq<Time>, log: seq<Rec>, max: nat, window: nat, now: Time) {
    InOrder(log, now) && Spaced(log, max, window) && Keeps(f, log, window, now)
  }

  lemma KeptInOrder(f: seq<Time>, log: seq<Rec>, window: nat, now: Time)
    requires InOrder(log, now) && Keeps(f, log, window, now)
    ensures Rising(f)
  {
    forall i, j | 0 <= i < j < |f| ensures f[i] <= f[j] {
      KeepsTail(f, log, window, now, i);
      KeepsTail(f, log, window, now, j);
      Ordered(log, now, |log| - |f| + i, |log| - |f| + j);
    }
  }

  lemma {:induction false} KeepsLater(f: seq<Time>, log: seq<Rec>, window: nat, now: Time, i: nat, later: Time)
    requires Keeps(f, log, window, now) && now <= later && i <= |f|
    requires i > 0 ==> f[i - 1] + window <= later
    ensures Keeps(f[i..], log, window, later)
  {
    if i < |f| {
      KeepsLater(f[..|f| - 1], log[..|log| - 1], window, now, i, later);
      assert f[i..][..|f[i..]| - 1] == f[..|f| - 1][i..];
    }
  }

  lemma OkayLater(f: seq<Time>, log: seq<Rec>, max: nat, window: nat, now: Time, i: nat, later: Time)
    requires Okay(f, log, max, window, now) && now <= later && i <= |f|
    requires i > 0 ==> f[i - 1] + window <= later
    ensures Okay(f[i..], log, max, window, later)
  {
    KeepsLater(f, log, window, now, i, later);
  }

  /** The last record of log and the last kept failure are one made at at. */
  lemma OkayRecorded(f: seq<Time>, log: seq<Rec>, max: nat, window: nat, now: Time, at: Time, attempt: bool)
    requires f != [] && log != [] && f[|f| - 1] == at && log[|log| - 1] == Rec(at, attempt)
    requires Okay(f[..|f| - 1], log[..|log| - 1], max, window, now)
    requires InOrder(log[..|log| - 1], at) && max > 0 && at <= now
    requires attempt && |log| > max ==> log[|log| - 1 - max].at + window <= at
    ensures Okay(f, log, max, window, now)
  {
  }

  /** The first kept failure equal to at, or the length of f. */
  function IndexOf(f: seq<Time>, at: Time): (i: nat)
    ensures i <= |f| && (i < |f| ==> f[i] == at) && forall j :: 0 <= j < i ==> f[j] != at
  {
    if f == [] || f[0] == at then 0 else 1 + IndexOf(f[1..], at)
  }

  function Without<T>(s: seq<T>, i: nat): seq<T>
    requires i < |s|
  {
    s[..i] + s[i + 1..]
  }

  lemma KeepsNoMore(f: seq<Time>, log: seq<Rec>, window: nat, now: Time)
    requires Keeps(f, log, window, now)
    ensures |f| <= |log|
  {
    if f != [] {
      KeepsTail(f, log, window, now, 0);
    }
  }

  lemma WithoutButLast<T>(s: seq<T>, k: nat)
    requires k < |s| - 1
    ensures Without(s, k) == Without(s[..|s| - 1], k) + [s[|s| - 1]]
  {
  }

  /** Taking a record back keeps the others in order... */
  lemma {:induction false} InOrderWithout(log: seq<Rec>, now: Time, k: nat)
    requires InOrder(log, now) && k < |log|
    ensures InOrder(Without(log, k), now)
  {
    var n := |log| - 1;
    if k == n {
      assert Without(log, k) == log[..n];
      if n > 0 {
        Ordered(log, now, n - 1, n);
      }
    } else {
      InOrderWithout(log[..n], log[n].at, k);
      WithoutButLast(log, k);
      assert Without(log, k)[..n - 1] == Without(log[..n], k);
    }
  }

  /** ...and spaced. */
  lemma {:induction false} SpacedWithout(log: seq<Rec>, max: nat, window: nat, now: Time, k: nat)
    requires InOrder(log, now) && Spaced(log, max, window) && k < |log| && max > 0
    ensures Spaced(Without(log, k), max, window)
  {
    var n := |log| - 1;
    if k == n {
      assert Without(log, k) == log[..n];
    } else {
      SpacedWithout(log[..n], max, window, log[n].at, k);
      WithoutButLast(log, k);
      var r := Without(log, k);
      assert r[..n - 1] == Without(log[..n], k);
      if log[n].attempt && max <= n - 1 {
        Ordered(log, now, n - 1 - max, n - max);
        assert r[n - 1 - max] == log[n - 1 - max] || r[n - 1 - max] == log[n - max];
      }
    }
  }

  lemma {:induction false} KeepsWithout(f: seq<Time>, log: seq<Rec>, window: nat, now: Time, last: Time, i: nat)
    requires Keeps(f, log, window, now) && InOrder(log, last) && i < |f| <= |log|
    ensures Keeps(Without(f, i), Without(log, |log| - |f| + i), window, now)
  {
    var n, m, k := |log| - 1, |f| - 1, |log| - |f| + i;
    if i == m {
      assert Without(f, i) == f[..m] && Without(log, k) == log[..n];
    } else {
      KeepsWithout(f[..m], log[..n], window, now, log[n].at, i);
      WithoutButLast(f, i);
      WithoutButLast(log, k);
      assert Without(f, i)[..m - 1] == Without(f[..m], i);
      assert Without(log, k)[..n - 1] == Without(log[..n], k);
    }
  }

  ghost predicate KeyOkay(fails: map<Key, seq<Time>>, logs: map<Key, seq<Rec>>, max: nat, window: nat, now: Time,
      key: Key)
  {
    Okay(At(fails, key), At(logs, key), max, window, now)
  }

  function Del(fails: map<Key, seq<Time>>, key: Key): map<Key, seq<Time>> {
    map k | k in fails && k != key :: fails[k]
  }

  /** A map whose empty entries are missing, with f as its entry for key. */
  function Put(fails: map<Key, seq<Time>>, key: Key, f: seq<Time>): map<Key, seq<Time>> {
    if f == [] then Del(fails, key) else fails[key := f]
  }

  ghost predicate AllOkay(fails: map<Key, seq<Time>>, logs: map<Key, seq<Rec>>, max: nat, window: nat, now: Time) {
    && max > 0
    && |fails| <= MAX_TRACKED
    && (forall key :: key in fails ==> fails[key] != [])
    && (forall key :: KeyOkay(fails, logs, max, window, now, key))
  }

  /** Only one key changed. */
  lemma AllOkayWith(fails: map<Key, seq<Time>>, logs: map<Key, seq<Rec>>, max: nat, window: nat, now: Time,
      key: Key, f: seq<Time>, log: seq<Rec>)
    requires AllOkay(fails, logs, max, window, now) && Okay(f, log, max, window, now)
    requires |fails| < MAX_TRACKED || f == [] || key in fails
    ensures AllOkay(Put(fails, key, f), logs[key := log], max, window, now)
    ensures f == [] || key in fails ==> |Put(fails, key, f)| <= |fails|
  {
    var fails', logs' := Put(fails, key, f), logs[key := log];
    forall k ensures KeyOkay(fails', logs', max, window, now, k) {
      assert KeyOkay(fails, logs, max, window, now, k);
    }
    SmallerOrSame(fails'.Keys, fails.Keys + if f == [] then {} else {key});
  }

  lemma AllOkayLater(fails: map<Key, seq<Time>>, logs: map<Key, seq<Rec>>, max: nat, window: nat, now: Time,
      later: Time)
    requires AllOkay(fails, logs, max, window, now) && now <= later
    ensures AllOkay(fails, logs, max, window, later)
  {
    forall k ensures KeyOkay(fails, logs, max, window, later, k) {
      assert KeyOkay(fails, logs, max, window, now, k);
      OkayLater(At(fails, k), At(logs, k), max, window, now, 0, later);
    }
  }

  lemma SameLogs(fails: map<Key, seq<Time>>, fails': map<Key, seq<Time>>, logs: map<Key, seq<Rec>>,
      max: nat, window: nat, now: Time, key: Key)
    requires AllOkay(fails', logs[key := At(logs, key)], max, window, now)
    ensures AllOkay(fails', logs, max, window, now)
  {
    forall k ensures KeyOkay(fails', logs, max, window, now, k) {
      assert KeyOkay(fails', logs[key := At(logs, key)], max, window, now, k);
    }
  }

  method Trim(f: seq<Time>, cutoff: Time) returns (r: seq<Time>, ghost i: nat)
    requires Rising(f)
    ensures i <= |f| && r == f[i..] == Later(f, cutoff)
    ensures forall j :: 0 <= j < i ==> f[j] <= cutoff
  {
    var k := 0;
    while k < |f| && !(f[k] > cutoff)
      invariant 0 <= k <= |f| && forall j :: 0 <= j < k ==> f[j] <= cutoff
    {
      k := k + 1;
    }
    LaterIsTail(f, cutoff, k);
    r, i := f[k..], k;
  }

  /** All of f is later than cutoff. */
  lemma {:induction false} LaterIsAll(f: seq<Time>, cutoff: Time)
    requires forall i :: 0 <= i < |f| ==> f[i] > cutoff
    ensures Later(f, cutoff) == f
  {
    if f != [] {
      LaterIsAll(f[1..], cutoff);
    }
  }

  lemma LaterOfFront(x: Time, f: seq<Time>, cutoff: Time)
    ensures Later([x] + f, cutoff) == (if x > cutoff then [x] else []) + Later(f, cutoff)
  {
    assert ([x] + f)[1..] == f;
  }

  lemma {:induction false} LaterTwice(f: seq<Time>, a: Time, b: Time)
    requires a <= b
    ensures Later(Later(f, a), b) == Later(f, b)
  {
    if f != [] {
      LaterTwice(f[1..], a, b);
      var rest := Later(f[1..], a);
      if f[0] > a {
        assert Later(f, a) == [f[0]] + rest;
        LaterOfFront(f[0], rest, b);
      } else {
        assert Later(f, a) == rest && Later(f, b) == Later(f[1..], b);
      }
    }
  }

  lemma {:induction false} LaterIsFewer(f: seq<Time>, cutoff: Time)
    ensures |Later(f, cutoff)| <= |f| && (f != [] && f[0] <= cutoff ==> |Later(f, cutoff)| < |f|)
    ensures forall x :: x in Later(f, cutoff) ==> x in f && x > cutoff
  {
    if f != [] {
      LaterIsFewer(f[1..], cutoff);
    }
  }

  lemma {:induction false} LaterRises(f: seq<Time>, cutoff: Time)
    requires Rising(f)
    ensures Rising(Later(f, cutoff))
  {
    if f != [] {
      LaterRises(f[1..], cutoff);
      LaterIsFewer(f[1..], cutoff);
      var rest := Later(f[1..], cutoff);
      forall i | 0 <= i < |rest| ensures f[0] <= rest[i] {
        assert rest[i] in rest && rest[i] in f[1..];
      }
    }
  }

  /** Until until, key must wait: as many records as allowed are still in the window; then one has left it. */
  ghost predicate WaitsUntil(log: seq<Rec>, max: nat, window: nat, read: Time, until: Time) {
    && (forall from :: read <= from + window < until ==> Within(log, from) >= max)
    && Within(log, until - window) < Within(log, read - window)
  }

  /** At the time from + window, in terms of the failures recent that are in the window now. */
  lemma StillWithin(f: seq<Time>, recent: seq<Time>, log: seq<Rec>, window: nat, now: Time, read: Time, from: Time)
    requires InOrder(log, now) && Keeps(f, log, window, now) && now <= read && read - window <= from
    requires recent == Later(f, read - window)
    ensures Within(log, from) == |Later(recent, from)|
  {
    LaterCounts(f, log, window, now, now, from);
    LaterTwice(f, read - window, from);
  }

  /** Whether key must wait, and how long, told from its history. */
  lemma BlockedIff(f: seq<Time>, recent: seq<Time>, log: seq<Rec>, max: nat, window: nat, now: Time, read: Time)
    requires InOrder(log, now) && Keeps(f, log, window, now) && now <= read && max > 0
    requires recent == Later(f, read - window)
    ensures |recent| == Within(log, read - window)
    ensures |recent| >= max ==> WaitsUntil(log, max, window, read, recent[0] + window)
  {
    LaterCounts(f, log, window, now, now, read - window);
    KeptInOrder(f, log, window, now);
    LaterRises(f, read - window);
    LaterIsFewer(f, read - window);
    if |recent| >= max {
      assert recent[0] in recent;
      forall from | read <= from + window < recent[0] + window ensures Within(log, from) >= max {
        StillWithin(f, recent, log, window, now, read, from);
        LaterIsAll(recent, from);
      }
      StillWithin(f, recent, log, window, now, read, recent[0]);
      LaterIsFewer(recent, recent[0]);
    }
  }

  /** Dropping what left the window. */
  lemma RecentKeeps(fails: map<Key, seq<Time>>, logs: map<Key, seq<Rec>>, max: nat, window: nat, now: Time, key: Key,
      i: nat)
    requires AllOkay(fails, logs, max, window, now) && i <= |At(fails, key)|
    requires forall j :: 0 <= j < i ==> At(fails, key)[j] <= now - window
    ensures AllOkay(Put(fails, key, At(fails, key)[i..]), logs, max, window, now)
    ensures Okay(At(fails, key)[i..], At(logs, key), max, window, now)
    ensures |Put(fails, key, At(fails, key)[i..])| <= |fails|
  {
    assert KeyOkay(fails, logs, max, window, now, key);
    var all, log := At(fails, key), At(logs, key);
    OkayLater(all, log, max, window, now, i, now);
    AllOkayWith(fails, logs, max, window, now, key, all[i..], log);
    SameLogs(fails, Put(fails, key, all[i..]), logs, max, window, now, key);
  }

  /** recent, on the entries fails: key's failures inside the window; the others are dropped. */
  method RecentOf(fails: map<Key, seq<Time>>, ghost logs: map<Key, seq<Rec>>, ghost max: nat, window: nat,
                  now: Time, key: Key)
    returns (f: seq<Time>, kept: map<Key, seq<Time>>)
    requires AllOkay(fails, logs, max, window, now)
    ensures f == Later(At(fails, key), now - window)
    ensures kept == Put(fails, key, f) && |kept| <= |fails|
    ensures AllOkay(kept, logs, max, window, now) && Okay(f, At(logs, key), max, window, now)
    ensures f != [] ==> At(fails, key) != [] && Last(f) == Last(At(fails, key))
  {
    assert Rising(At(fails, key)) by {
      assert KeyOkay(fails, logs, max, window, now, key);
      KeptInOrder(At(fails, key), At(logs, key), window, now);
    }
    var all := if key in fails then fails[key] else [];
    ghost var i;
    f, i := Trim(all, now - window);
    RecentKeeps(fails, logs, max, window, now, key, i);
    if f == [] {
      kept := Del(fails, key);
    } else {
      kept := fails[key := f];
    }
  }

  lemma Fewer(fails: map<Key, seq<Time>>, key: Key)
    requires key in fails
    ensures |Del(fails, key)| == |fails| - 1
  {
    assert Del(fails, key).Keys == fails.Keys - {key};
  }

  // ---- Which key prune evicts ----

  function LastOf(fails: map<Key, seq<Time>>, key: Key): Time {
    if key in fails && fails[key] != [] then Last(fails[key]) else 0
  }

  /** The key prune holds for the oldest after looking at the keys of order; "" stands for none yet. */
  function Pick(fails: map<Key, seq<Time>>, order: seq<Key>): Key {
    if order == [] then ""
    else
      var o, k := Pick(fails, order[..|order| - 1]), order[|order| - 1];
      if o == "" || LastOf(fails, k) < LastOf(fails, o) then k else o
  }

  ghost predicate IsOrder(order: seq<Key>, keys: set<Key>) {
    && (forall k :: k in order <==> k in keys)
    && (forall i, j :: 0 <= i < j < |order| ==> order[i] != order[j])
  }

  ghost predicate OldestIn(fails: map<Key, seq<Time>>, key: Key, keys: set<Key>) {
    key in keys && forall k :: k in keys ==> LastOf(fails, key) <= LastOf(fails, k)
  }

  /** The empty key failed last before every other of the keys did, and there is another. */
  ghost predicate EmptyOldest(fails: map<Key, seq<Time>>, keys: set<Key>) {
    "" in keys && keys != {""} && EmptyBefore(fails, keys)
  }

  ghost predicate EmptyBefore(fails: map<Key, seq<Time>>, keys: set<Key>) {
    forall k :: k in keys && k != "" ==> LastOf(fails, "") < LastOf(fails, k)
  }

  lemma OrderOfPrefix(order: seq<Key>, keys: set<Key>)
    requires IsOrder(order, keys) && order != []
    ensures IsOrder(order[..|order| - 1], keys - {order[|order| - 1]}) && order[|order| - 1] in keys
  {
    var n := |order| - 1;
    assert order == order[..n] + [order[n]];
  }

  lemma OrderGrows(order: seq<Key>, keys: set<Key>, k: Key)
    requires IsOrder(order, keys) && k !in keys
    ensures IsOrder(order + [k], keys + {k})
  {
  }

  /** In every order: the pick is an oldest key, or the empty key is older than all others. */
  lemma {:induction false} PickIsOldest(fails: map<Key, seq<Time>>, order: seq<Key>, keys: set<Key>)
    requires IsOrder(order, keys) && order != []
    ensures Pick(fails, order) in keys
    ensures Pick(fails, order) == "" ==> EmptyBefore(fails, keys)
    ensures OldestIn(fails, Pick(fails, order), keys) || ("" in keys && EmptyBefore(fails, keys))
  {
    var n := |order| - 1;
    OrderOfPrefix(order, keys);
    if n > 0 {
      PickIsOldest(fails, order[..n], keys - {order[n]});
    } else {
      assert order[..n] == [] && keys == {order[n]};
    }
  }

  /** When the empty key comes first, it is not picked unless it is alone. */
  lemma {:induction false} EmptyFirst(fails: map<Key, seq<Time>>, order: seq<Key>)
    requires |order| > 1 && order[0] == "" && "" !in order[1..]
    ensures Pick(fails, order) != ""
  {
    var n := |order| - 1;
    assert order[n] in order[1..];
    if n == 1 {
      assert order[..1] == [""];
      assert Pick(fails, [""]) == "";
    } else {
      assert order[..n][1..] == order[1..n];
      EmptyFirst(fails, order[..n]);
    }
  }

  lemma {:induction false} SomeOrder(keys: set<Key>) returns (order: seq<Key>)
    ensures IsOrder(order, keys)
  {
    order := [];
    if keys != {} {
      var k :| k in keys;
      order := SomeOrder(keys - {k});
      OrderGrows(order, keys - {k}, k);
      order := order + [k];
    }
  }

  /** prune picks an oldest key whatever the order in which it looks at the keys, if and only if the empty key is
      not older than all others. */
  lemma PicksOldestIff(fails: map<Key, seq<Time>>, keys: set<Key>)
    requires keys != {}
    ensures (forall order :: IsOrder(order, keys) ==> OldestIn(fails, Pick(fails, order), keys)) <==>
      !EmptyOldest(fails, keys)
  {
    if EmptyOldest(fails, keys) {
      var others := SomeOrder(keys - {""});
      var order := [""] + others;
      assert order[1..] == others;
      assert IsOrder(order, keys);
      var k :| k in keys && k != "";
      assert others != [] by { assert k in others; }
      EmptyFirst(fails, order);
      PickIsOldest(fails, order, keys);
      assert !OldestIn(fails, Pick(fails, order), keys);
    } else {
      forall order | IsOrder(order, keys) ensures OldestIn(fails, Pick(fails, order), keys) {
        var k :| k in keys;
        assert order != [] by { assert k in order; }
        PickIsOldest(fails, order, keys);
      }
    }
  }

  /** With the empty key older than "a" and looked at first, prune picks "a". */
  lemma WrongPick()
    ensures
      var fails := map["" := [1], "a" := [2]];
      Pick(fails, ["", "a"]) == "a" && IsOrder(["", "a"], fails.Keys) && !OldestIn(fails, "a", fails.Keys)
  {
    var fails: map<Key, seq<Time>> := map["" := [1], "a" := [2]];
    assert ["", "a"][..1] == [""] && [""][..0] == [];
    assert Pick(fails, [""]) == "";
    assert LastOf(fails, "") < LastOf(fails, "a");
  }

  ghost predicate Picked(fails: map<Key, seq<Time>>, key: Key, keys: set<Key>) {
    exists order :: IsOrder(order, keys) && Pick(fails, order) == key
  }

  /** key was evicted and left keys: prune picked it, and so it is an oldest one unless the empty key is. */
  ghost predicate Evicts(fails: map<Key, seq<Time>>, key: Key, left: set<Key>) {
    && left + {key} <= fails.Keys && key !in left && Picked(fails, key, left + {key})
    && (!EmptyOldest(fails, left + {key}) ==> OldestIn(fails, key, left + {key}))
  }

  lemma PickedIsEvicted(fails: map<Key, seq<Time>>, order: seq<Key>, left: set<Key>, key: Key)
    requires left + {key} <= fails.Keys && key !in left && IsOrder(order, left + {key}) && Pick(fails, order) == key
    ensures Evicts(fails, key, left)
  {
    PicksOldestIff(fails, left + {key});
  }

  lemma {:induction false} PickSame(f: map<Key, seq<Time>>, g: map<Key, seq<Time>>, order: seq<Key>)
    requires forall k :: k in order ==> LastOf(f, k) == LastOf(g, k)
    ensures Pick(f, order) == Pick(g, order) && (order != [] ==> Pick(f, order) == "" || Pick(f, order) in order)
  {
    if order != [] {
      var n := |order| - 1;
      PickSame(f, g, order[..n]);
      assert order[n] in order;
    }
  }

  /** Entries that differ elsewhere do not matter. */
  lemma EvictsSame(f: map<Key, seq<Time>>, g: map<Key, seq<Time>>, key: Key, left: set<Key>)
    requires Evicts(f, key, left) && left + {key} <= g.Keys
    requires forall k :: k in left || k == key ==> LastOf(f, k) == LastOf(g, k)
    ensures Evicts(g, key, left)
  {
    var order :| IsOrder(order, left + {key}) && Pick(f, order) == key;
    PickSame(f, g, order);
    PickedIsEvicted(g, order, left, key);
  }

  /** Once key's entry was trimmed to f. */
  lemma EvictsTrimmed(fails: map<Key, seq<Time>>, key: Key, f: seq<Time>, evicted: Key, left: set<Key>)
    requires Evicts(Put(fails, key, f), evicted, left) && key !in left && (key in Put(fails, key, f) ==> evicted != key)
    ensures Evicts(fails, evicted, left)
  {
    EvictsSame(Put(fails, key, f), fails, evicted, left);
  }

  /** What prune knows of the entries it has looked at, all but rest, in the order of those it kept. */
  ghost predicate Pruning(before: map<Key, seq<Time>>, fails: map<Key, seq<Time>>, rest: set<Key>, order: seq<Key>,
      oldest: Key, at: Time)
  {
    && rest <= fails.Keys <= before.Keys
    && (forall k :: k in before ==> before[k] != [])
    && (forall k :: k in rest ==> fails[k] == before[k])
    && IsOrder(order, fails.Keys - rest)
    && oldest == Pick(before, order) && (oldest != "" ==> at == LastOf(before, oldest))
  }

  lemma PruningStep(before: map<Key, seq<Time>>, fails: map<Key, seq<Time>>, rest: set<Key>, order: seq<Key>,
      oldest: Key, at: Time, k: Key, f: seq<Time>)
    requires Pruning(before, fails, rest, order, oldest, at) && k in rest
    requires f != [] ==> Last(f) == Last(fails[k])
    ensures f == [] ==> Pruning(before, Put(fails, k, f), rest - {k}, order, oldest, at)
    ensures f != [] ==>
      var first := oldest == "" || Last(f) < at;
      Pruning(before, Put(fails, k, f), rest - {k}, order + [k], if first then k else oldest,
        if first then Last(f) else at)
  {
    assert Put(fails, k, f).Keys - (rest - {k}) == (fails.Keys - rest) + if f == [] then {} else {k};
    if f != [] {
      OrderGrows(order, fails.Keys - rest, k);
      assert (order + [k])[..|order|] == order;
      if oldest != "" {
        assert order != [];
        PickIsOldest(before, order, fails.Keys - rest);
      }
    }
  }

  lemma FullIsPicked(before: map<Key, seq<Time>>, fails: map<Key, seq<Time>>, order: seq<Key>, oldest: Key, at: Time)
    requires Pruning(before, fails, {}, order, oldest, at) && |fails| > 0
    ensures oldest in fails && Evicts(before, oldest, Del(fails, oldest).Keys)
  {
    assert fails.Keys != {};
    var k :| k in fails.Keys;
    assert k in fails.Keys - {} && k in order;
    PickIsOldest(before, order, fails.Keys);
    assert Del(fails, oldest).Keys + {oldest} == fails.Keys;
    PickedIsEvicted(before, order, Del(fails, oldest).Keys, oldest);
  }

  ghost function Evicted(logs: map<Key, seq<Rec>>, evicted: Option<Key>): map<Key, seq<Rec>> {
    if evicted.Some? then logs[evicted.value := []] else logs
  }

  lemma StillRoom(fails: map<Key, seq<Time>>, key: Key, f: seq<Time>)
    requires |fails| < MAX_TRACKED || (key in fails && |fails| <= MAX_TRACKED)
    ensures |Put(fails, key, f)| < MAX_TRACKED || key in Put(fails, key, f)
  {
    if key in fails && f == [] {
      Fewer(fails, key);
    } else if f == [] {
      assert Del(fails, key) == fails;
    }
  }

  /** Appending a failure at a time since which the entries were trimmed to f. */
  lemma RecordKeeps(fails: map<Key, seq<Time>>, logs: map<Key, seq<Rec>>, max: nat, window: nat, now: Time, key: Key,
      tracked: map<Key, seq<Time>>, f: seq<Time>, at: Time, attempt: bool, start: Time)
    requires AllOkay(fails, logs, max, window, now) && fails == Put(tracked, key, f)
    requires |tracked| < MAX_TRACKED || (key in tracked && |tracked| <= MAX_TRACKED)
    requires Okay(f, At(logs, key), max, window, now) && start <= at <= now && InOrder(At(logs, key), at)
    requires attempt && |At(logs, key)| >= max ==> At(logs, key)[|At(logs, key)| - max].at + window <= start
    ensures AllOkay(fails[key := f + [at]], logs[key := At(logs, key) + [Rec(at, attempt)]], max, window, now)
  {
    var log := At(logs, key);
    var f', log' := f + [at], log + [Rec(at, attempt)];
    assert f'[..|f|] == f && log'[..|log|] == log;
    OkayRecorded(f', log', max, window, now, at, attempt);
    StillRoom(tracked, key, f);
    AllOkayWith(fails, logs, max, window, now, key, f', log');
  }

  lemma PutTwice(fails: map<Key, seq<Time>>, key: Key, f: seq<Time>, g: seq<Time>)
    ensures Put(fails, key, f)[key := g] == fails[key := g]
  {
  }

  /** An attempt is admitted only when its max-th predecessor has left the window. */
  lemma RoomForAttempt(fails: map<Key, seq<Time>>, logs: map<Key, seq<Rec>>, max: nat, window: nat, now: Time, key: Key)
    requires AllOkay(fails, logs, max, window, now) && |At(fails, key)| < max
    ensures |At(logs, key)| >= max ==> At(logs, key)[|At(logs, key)| - max].at + window <= now
  {
    assert KeyOkay(fails, logs, max, window, now, key);
    var f, log := At(fails, key), At(logs, key);
    if |log| >= max {
      KeepsRecent(f, log, window, now, now, |log| - max);
    }
  }

  lemma LogInOrder(fails: map<Key, seq<Time>>, logs: map<Key, seq<Rec>>, max: nat, window: nat, now: Time, key: Key)
    requires AllOkay(fails, logs, max, window, now)
    ensures InOrder(At(logs, key), now)
  {
    assert KeyOkay(fails, logs, max, window, now, key);
  }

  /** A reading of the clock, which never goes back; strict when no two readings are alike. */
  method Tick(now: Time, strict: bool) returns (t: Time)
    ensures t >= now && (strict ==> t > now)
  {
    if strict {
      t :| t > now;
    } else {
      t :| t >= now;
    }
  }

  /** record, once there is room: now and recent both read the clock. */
  method Append(fails: map<Key, seq<Time>>, ghost logs: map<Key, seq<Rec>>, ghost max: nat, window: nat,
                ghost start: Time, now: Time, strict: bool, key: Key, ghost attempt: bool)
    returns (at: Time, later: Time, fails': map<Key, seq<Time>>, ghost logs': map<Key, seq<Rec>>)
    requires AllOkay(fails, logs, max, window, now) && start <= now && (|fails| < MAX_TRACKED || key in fails)
    requires attempt && |At(logs, key)| >= max ==> At(logs, key)[|At(logs, key)| - max].at + window <= start
    ensures now <= at <= later && (strict ==> now < at) && AllOkay(fails', logs', max, window, later)
    ensures logs' == logs[key := At(logs, key) + [Rec(at, attempt)]]
    ensures fails' == fails[key := Later(At(fails, key), later - window) + [at]]
  {
    at := Tick(now, strict);
    AllOkayLater(fails, logs, max, window, now, at);
    LogInOrder(fails, logs, max, window, at, key);
    later := Tick(at, strict);
    AllOkayLater(fails, logs, max, window, at, later);
    var f, kept := RecentOf(fails, logs, max, window, later, key);
    RecordKeeps(kept, logs, max, window, later, key, fails, f, at, attempt, start);
    PutTwice(fails, key, f, f + [at]);
    fails', logs' := kept[key := f + [at]], logs[key := At(logs, key) + [Rec(at, attempt)]];
  }

  /** forget: one kept failure of key recorded at at goes, if there is one. */
  ghost function Forgotten(fails: map<Key, seq<Time>>, logs: map<Key, seq<Rec>>, key: Key, at: Time)
    : (map<Key, seq<Time>>, map<Key, seq<Rec>>)
  {
    var f, log := At(fails, key), At(logs, key);
    var i := IndexOf(f, at);
    if i < |f| <= |log| then (Put(fails, key, Without(f, i)), logs[key := Without(log, |log| - |f| + i)])
    else (fails, logs)
  }

  lemma ForgottenOkay(fails: map<Key, seq<Time>>, logs: map<Key, seq<Rec>>, max: nat, window: nat, now: Time,
      key: Key, at: Time)
    requires AllOkay(fails, logs, max, window, now)
    ensures |At(fails, key)| <= |At(logs, key)|
    ensures AllOkay(Forgotten(fails, logs, key, at).0, Forgotten(fails, logs, key, at).1, max, window, now)
  {
    var f, log := At(fails, key), At(logs, key);
    assert KeyOkay(fails, logs, max, window, now, key);
    KeepsNoMore(f, log, window, now);
    var i := IndexOf(f, at);
    if i < |f| {
      InOrderWithout(log, now, |log| - |f| + i);
      SpacedWithout(log, max, window, now, |log| - |f| + i);
      KeepsWithout(f, log, window, now, now, i);
      AllOkayWith(fails, logs, max, window, now, key, Without(f, i), Without(log, |log| - |f| + i));
    }
  }

  class Limiter {
    const max: nat
    const window: nat
    const strict: bool
    var clock: Time
    var fails: map<Key, seq<Time>>
    /** The records of each key since its last Success or eviction, without those undone. */
    ghost var logs: map<Key, seq<Rec>>

    ghost predicate Valid()
      reads this
    {
      AllOkay(fails, logs, max, window, clock)
    }

    constructor (max: nat, window: nat, strict: bool, start: Time)
      requires max > 0
      ensures Valid() && this.max == max && this.window == window && this.strict == strict
      ensures fails == map[] && logs == map[]
    {
      this.max, this.window, this.strict, clock, fails, logs := max, window, strict, start, map[], map[];
    }

    /** recent: the key's failures inside the window; the others are dropped. */
    method Recent(key: Key) returns (f: seq<Time>)
      requires Valid()
      modifies this
      ensures Valid() && logs == old(logs) && clock >= old(clock)
      ensures f == Later(At(old(fails), key), clock - window)
      ensures fails == Put(old(fails), key, f) && |fails| <= |old(fails)|
      ensures Okay(f, At(logs, key), max, window, clock)
      ensures f != [] ==> At(old(fails), key) != [] && Last(f) == Last(At(old(fails), key))
    {
      var now := Tick(clock, strict);
      AllOkayLater(fails, logs, max, window, clock, now);
      clock := now;
      f, fails := RecentOf(fails, logs, max, window, now, key);
    }

    method Delete(key: Key)
      requires Valid()
      modifies this
      ensures Valid() && clock == old(clock)
      ensures fails == Del(old(fails), key) && logs == old(logs)[key := []]
    {
      AllOkayWith(fails, logs, max, window, clock, key, [], []);
      fails, logs := Del(fails, key), logs[key := []];
    }

    /** prune: drops expired keys and, when the map is still full, the key it picks for the one whose last
        failure is the oldest. */
    method Prune() returns (ghost evicted: Option<Key>)
      requires Valid()
      modifies this
      ensures Valid() && clock >= old(clock)
      ensures |fails| < MAX_TRACKED && fails.Keys <= old(fails).Keys
      ensures logs == Evicted(old(logs), evicted)
      ensures evicted.Some? ==> |old(fails)| >= MAX_TRACKED && Evicts(old(fails), evicted.value, fails.Keys)
      ensures evicted.Some? ==> |fails| == MAX_TRACKED - 1
    {
      ghost var before, order := fails, [];
      var oldest: Key, at: Time := "", 0;
      var rest := fails.Keys;
      while rest != {}
        invariant Valid() && clock >= old(clock) && logs == old(logs) && |fails| <= |before|
        invariant Pruning(before, fails, rest, order, oldest, at)
        decreases rest
      {
        var k :| k in rest;
        ghost var was := fails;
        var f := Recent(k);
        PruningStep(before, was, rest, order, oldest, at, k, f);
        if f != [] {
          order := order + [k];
          if oldest == "" || Last(f) < at {
            oldest, at := k, Last(f);
          }
        }
        rest := rest - {k};
      }
      evicted := None;
      if |fails| >= MAX_TRACKED {
        FullIsPicked(before, fails, order, oldest, at);
        evicted := Some(oldest);
        ghost var full := fails;
        Delete(oldest);
        Fewer(full, oldest);
      }
    }

    /** Prunes when key would be one entry too many. */
    method MakeRoom(key: Key) returns (ghost evicted: Option<Key>)
      requires Valid()
      modifies this
      ensures Valid() && clock >= old(clock) && logs == Evicted(old(logs), evicted) &&
        At(logs, key) == At(old(logs), key)
      ensures |fails| < MAX_TRACKED || key in fails
      ensures key in old(fails) || |old(fails)| < MAX_TRACKED ==> fails == old(fails) && evicted == None
      ensures evicted.Some? ==> key !in old(fails) && Evicts(old(fails), evicted.value, fails.Keys)
    {
      evicted := None;
      if key !in fails && |fails| >= MAX_TRACKED {
        evicted := Prune();
      }
    }

    /** record: appends a failure of key at the time it returns. */
    method Record(key: Key, ghost attempt: bool) returns (at: Time, ghost evicted: Option<Key>)
      requires Valid() && (attempt ==> |At(fails, key)| < max)
      modifies this
      ensures Valid() && clock >= at >= old(clock) && (strict ==> at > old(clock))
      ensures logs == Evicted(old(logs), evicted)[key := At(old(logs), key) + [Rec(at, attempt)]]
      ensures key in old(fails) || |old(fails)| < MAX_TRACKED ==>
        evicted == None && fails == old(fails)[key := Later(At(old(fails), key), clock - window) + [at]]
      ensures evicted.Some? ==> key !in old(fails) && Evicts(old(fails), evicted.value, fails.Keys - {key})
    {
      ghost var start := clock;
      if attempt {
        RoomForAttempt(fails, logs, max, window, start, key);
      }
      evicted := MakeRoom(key);
      ghost var room := fails;
      at, clock, fails, logs := Append(fails, logs, max, window, start, clock, strict, key, attempt);
      assert key !in room ==> fails.Keys - {key} == room.Keys;
    }

    /** recent, and what it says about the key's history. */
    method Test(key: Key) returns (f: seq<Time>)
      requires Valid()
      modifies this
      ensures Valid() && logs == old(logs) && clock >= old(clock)
      ensures f == Later(At(old(fails), key), clock - window)
      ensures fails == Put(old(fails), key, f) && |fails| <= |old(fails)|
      ensures f != [] ==> At(old(fails), key) != [] && Last(f) == Last(At(old(fails), key))
      ensures |f| == Within(At(logs, key), clock - window)
      ensures |f| >= max ==> WaitsUntil(At(logs, key), max, window, clock, f[0] + window)
    {
      ghost var all, start := At(fails, key), clock;
      assert KeyOkay(fails, logs, max, window, clock, key);
      f := Recent(key);
      BlockedIff(all, f, At(logs, key), max, window, start, clock);
    }

    /** Whether key must wait, f being its failures inside the window when the clock read read. */
    method Blocked(key: Key) returns (blocked: bool, wait: int, ghost f: seq<Time>, ghost read: Time)
      requires Valid()
      modifies this
      ensures Valid() && logs == old(logs) && old(clock) <= read <= clock
      ensures f == Later(At(old(fails), key), read - window)
      ensures blocked <==> |f| >= max
      ensures blocked <==> Within(At(logs, key), read - window) >= max
      ensures blocked ==> WaitsUntil(At(logs, key), max, window, read, clock + wait)
      ensures wait == if blocked then f[0] + window - clock else 0
    {
      var recent := Test(key);
      f, read := recent, clock;
      blocked, wait := false, 0;
      if |recent| >= max {
        blocked := true;
        wait := Wait(recent);
      }
    }

    method Wait(f: seq<Time>) returns (wait: int)
      requires Valid() && f != []
      modifies this
      ensures Valid() && logs == old(logs) && fails == old(fails) && clock >= old(clock)
      ensures wait == f[0] + window - clock
    {
      var now := Tick(clock, strict);
      AllOkayLater(fails, logs, max, window, clock, now);
      clock := now;
      wait := f[0] + window - now;
    }

    /** One password check: it counts as a failure at once, under the lock that tested the count. */
    method Attempt(key: Key)
      returns (undo: Option<Undo>, wait: int, ghost f: seq<Time>, ghost read: Time, ghost evicted: Option<Key>)
      requires Valid()
      modifies this
      ensures Valid() && old(clock) <= read <= clock
      ensures f == Later(At(old(fails), key), read - window)
      ensures undo.Some? <==> |f| < max
      ensures undo.Some? <==> Within(At(old(logs), key), read - window) < max
      ensures undo.None? ==> WaitsUntil(At(logs, key), max, window, read, clock + wait)
      ensures undo.None? ==> logs == old(logs) && wait == f[0] + window - clock
      ensures undo.Some? ==> fresh(undo.value) && undo.value.key == key && !undo.value.done
      ensures undo.Some? ==> read <= undo.value.at <= clock && (strict ==> undo.value.at > old(clock))
      ensures undo.Some? ==>
        logs == Evicted(old(logs), evicted)[key := At(old(logs), key) + [Rec(undo.value.at, true)]]
      ensures undo.None? || key in old(fails) || |old(fails)| < MAX_TRACKED ==> evicted == None
      ensures evicted.Some? ==> Evicts(old(fails), evicted.value, fails.Keys - {key})
    {
      undo, wait, evicted := None, 0, None;
      var recent := Test(key);
      f, read := recent, clock;
      if |recent| >= max {
        wait := Wait(recent);
      } else {
        var at;
        if key in old(fails) && recent == [] {
          Fewer(old(fails), key);
        }
        at, evicted := Record(key, true);
        if evicted.Some? {
          EvictsTrimmed(old(fails), key, recent, evicted.value, fails.Keys - {key});
        }
        var u := new Undo(key, at);
        undo := Some(u);
      }
    }

    /** A failure without the test. */
    method Fail(key: Key) returns (ghost at: Time, ghost evicted: Option<Key>)
      requires Valid()
      modifies this
      ensures Valid() && old(clock) <= at <= clock && (strict ==> at > old(clock))
      ensures logs == Evicted(old(logs), evicted)[key := At(old(logs), key) + [Rec(at, false)]]
      ensures key in old(fails) || |old(fails)| < MAX_TRACKED ==> evicted == None
      ensures evicted.Some? ==> Evicts(old(fails), evicted.value, fails.Keys - {key})
    {
      at, evicted := Record(key, false);
    }

    /** forget, through the undo that Attempt returned: the first failure at its time, once. */
    method TakeBack(undo: Undo)
      requires Valid()
      modifies this, undo
      ensures Valid() && undo.done && clock == old(clock)
      ensures old(undo.done) ==> fails == old(fails) && logs == old(logs)
      ensures !old(undo.done) ==>
        (fails, logs) == Forgotten(old(fails), old(logs), undo.key, undo.at)
    {
      if !undo.done {
        undo.done := true;
        var f := At(fails, undo.key);
        var i := IndexOf(f, undo.at);
        ForgottenOkay(fails, logs, max, window, clock, undo.key, undo.at);
        if i < |f| {
          ghost var log := At(logs, undo.key);
          logs := logs[undo.key := Without(log, |log| - |f| + i)];
          f := Without(f, i);
          if f == [] {
            fails := Del(fails, undo.key);
          } else {
            fails := fails[undo.key := f];
          }
        }
      }
    }

    /** A right password: the key starts over. */
    method Success(key: Key)
      requires Valid()
      modifies this
      ensures Valid() && clock == old(clock)
      ensures fails == Del(old(fails), key) && logs == old(logs)[key := []]
    {
      Delete(key);
    }
  }

  /** In every state the limiter reaches: no interval shorter than the window holds more than max
      attempts of a key, counted since its last Success or eviction. */
  lemma AttemptsBounded(limiter: Limiter, key: Key, from: Time, to: Time)
    requires limiter.Valid() && to - from < limiter.window
    ensures Admitted(At(limiter.logs, key), from, to) <= limiter.max
  {
    assert KeyOkay(limiter.fails, limiter.logs, limiter.max, limiter.window, limiter.clock, key);
    RateBound(At(limiter.logs, key), limiter.max, limiter.window, limiter.clock, from, to);
  }
}
