/** The in-process lock of each source (internal/catalog/lock.go): a map of counted entries, each with
    a channel of one token. The critical sections under the map's mutex and the channel operations are
    the steps; everything about them is proved for every interleaving. */
module SourceLock {
  type SourceId = int

  /** Entries are numbered in the order they are made; a dropped one is never found again. */
  type LockRef = nat

  type CallId = nat

  /** token: the channel holds one; refs: holders plus waiters. */
  datatype Lock = Lock(token: bool, refs: int)

  /** Where a call of lock or tryLock stands; Leaving is about to drop its reference. */
  datatype Phase = Waiting | Trying | Holding | Leaving | Done

  datatype Call = Call(id: SourceId, lock: LockRef, phase: Phase)

  datatype State = State(m: map<SourceId, LockRef>, locks: seq<Lock>, calls: map<CallId, Call>)

  datatype Step =
    | Ref(call: CallId, id: SourceId, once: bool)
    | Send(call: CallId)
    | GiveUp(call: CallId)
    | Receive(call: CallId)
    | Unref(call: CallId)

  predicate InPhase(s: State, c: CallId, p: Phase) {
    c in s.calls && s.calls[c].phase == p
  }

  predicate Token(s: State, c: CallId) {
    c in s.calls && s.calls[c].lock < |s.locks| && s.locks[s.calls[c].lock].token
  }

  /** A send waits for the channel to be empty, a receive for a token; tryLock gives up only when it
      cannot send, lock whenever its context has ended. */
  predicate Enabled(s: State, step: Step) {
    match step
    case Ref(c, _, _) => c !in s.calls
    case Send(c) => (InPhase(s, c, Waiting) || InPhase(s, c, Trying)) && !Token(s, c)
    case GiveUp(c) => InPhase(s, c, Waiting) || (InPhase(s, c, Trying) && Token(s, c))
    case Receive(c) => InPhase(s, c, Holding) && Token(s, c)
    case Unref(c) => InPhase(s, c, Leaving)
  }

  function To(s: State, c: CallId, p: Phase): State
    requires c in s.calls
  {
    s.(calls := s.calls[c := s.calls[c].(phase := p)])
  }

  function WithToken(s: State, l: LockRef, token: bool): State {
    if l < |s.locks| then s.(locks := s.locks[l := s.locks[l].(token := token)]) else s
  }

  function AddRef(s: State, l: LockRef, d: int): State {
    if l < |s.locks| then s.(locks := s.locks[l := s.locks[l].(refs := s.locks[l].refs + d)]) else s
  }

  function Forget(m: map<SourceId, LockRef>, id: SourceId): map<SourceId, LockRef> {
    map i | i in m && i != id :: m[i]
  }

  function Do(s: State, step: Step): State
    requires Enabled(s, step)
  {
    match step
    case Ref(c, id, once) =>
      var found := if id in s.m then s else s.(m := s.m[id := |s.locks|], locks := s.locks + [Lock(false, 0)]);
      var counted := AddRef(found, found.m[id], 1);
      counted.(calls := s.calls[c := Call(id, found.m[id], if once then Trying else Waiting)])
    case Send(c) => WithToken(To(s, c, Holding), s.calls[c].lock, true)
    case GiveUp(c) => To(s, c, Leaving)
    case Receive(c) => WithToken(To(s, c, Leaving), s.calls[c].lock, false)
    case Unref(c) =>
      var l := s.calls[c].lock;
      var t := AddRef(To(s, c, Done), l, -1);
      if l < |t.locks| && t.locks[l].refs == 0 then t.(m := Forget(t.m, s.calls[c].id)) else t
  }

  // ---- What every interleaving keeps ----

  function Users(s: State, l: LockRef): set<CallId> {
    set c | c in s.calls && s.calls[c].phase != Done && s.calls[c].lock == l
  }

  ghost predicate Mapped(s: State) {
    && (forall id :: id in s.m ==> s.m[id] < |s.locks|)
    && (forall id, other :: id in s.m && other in s.m && s.m[id] == s.m[other] ==> id == other)
    && (forall c :: c in s.calls && s.calls[c].phase != Done ==>
      s.calls[c].id in s.m && s.m[s.calls[c].id] == s.calls[c].lock)
  }

  /** refs counts the calls that refer to the entry, of which there is at least one. */
  ghost predicate Counted(s: State) {
    forall id :: id in s.m ==> CountedAt(s, s.m[id])
  }

  ghost predicate CountedAt(s: State, l: LockRef) {
    l < |s.locks| && s.locks[l].refs == |Users(s, l)| > 0
  }

  ghost predicate HasHolder(s: State, l: LockRef) {
    exists c :: InPhase(s, c, Holding) && s.calls[c].lock == l
  }

  ghost predicate TokenIsHeld(s: State) {
    && (forall c :: InPhase(s, c, Holding) ==> Token(s, c))
    && (forall id :: id in s.m && s.m[id] < |s.locks| && s.locks[s.m[id]].token ==> HasHolder(s, s.m[id]))
    && (forall c, d :: InPhase(s, c, Holding) && InPhase(s, d, Holding) && s.calls[c].lock == s.calls[d].lock ==>
      c == d)
  }

  ghost predicate Inv(s: State) {
    Mapped(s) && Counted(s) && TokenIsHeld(s)
  }

  /** Only call c moved. */
  ghost predicate Moved(s: State, t: State, c: CallId) {
    && (forall d :: d in t.calls <==> d in s.calls || d == c)
    && (forall d :: d in s.calls && d != c ==> t.calls[d] == s.calls[d])
  }

  lemma UsersStay(s: State, t: State, c: CallId, l: LockRef)
    requires Moved(s, t, c) && (c in Users(s, l) <==> c in Users(t, l))
    ensures Users(t, l) == Users(s, l)
  {
  }

  lemma UsersJoin(s: State, t: State, c: CallId, l: LockRef)
    requires Moved(s, t, c) && c !in Users(s, l) && c in Users(t, l)
    ensures |Users(t, l)| == |Users(s, l)| + 1
  {
    assert Users(t, l) == Users(s, l) + {c};
  }

  lemma UsersLeave(s: State, t: State, c: CallId, l: LockRef)
    requires Moved(s, t, c) && c in Users(s, l) && c !in Users(t, l)
    ensures |Users(t, l)| == |Users(s, l)| - 1
  {
    assert Users(s, l) == Users(t, l) + {c};
  }

  lemma CountedAtAfter(s: State, step: Step, l: LockRef)
    requires Enabled(s, step) && CountedAt(s, l)
    requires !step.Ref? ==> step.call in Users(s, s.calls[step.call].lock)
    ensures l < |Do(s, step).locks| && Do(s, step).locks[l].refs == |Users(Do(s, step), l)|
  {
    var t, c := Do(s, step), step.call;
    assert Moved(s, t, c);
    if step.Ref? && t.calls[c].lock == l {
      UsersJoin(s, t, c, l);
    } else if step.Unref? && s.calls[c].lock == l {
      UsersLeave(s, t, c, l);
    } else {
      UsersStay(s, t, c, l);
    }
  }

  lemma CountedAtNew(s: State, step: Step)
    requires Mapped(s) && Enabled(s, step) && step.Ref? && step.id !in s.m
    ensures CountedAt(Do(s, step), |s.locks|)
  {
    var t, c, l := Do(s, step), step.call, |s.locks|;
    assert Users(s, l) == {};
    assert Moved(s, t, c);
    UsersJoin(s, t, c, l);
  }

  lemma InUse(s: State, c: CallId)
    requires Mapped(s) && Counted(s) && c in s.calls && s.calls[c].phase != Done
    ensures c in Users(s, s.calls[c].lock) && CountedAt(s, s.calls[c].lock)
    ensures s.locks[s.calls[c].lock].refs == 1 ==> Users(s, s.calls[c].lock) == {c}
  {
    var u := Users(s, s.calls[c].lock);
    assert CountedAt(s, s.m[s.calls[c].id]);
    if |u| == 1 {
      OnlyOne(u, c);
    }
  }

  lemma OnlyOne<T>(s: set<T>, x: T)
    requires x in s && |s| == 1
    ensures s == {x}
  {
    assert |s - {x}| == 0;
  }

  lemma CountedKept(s: State, step: Step)
    requires Mapped(s) && Counted(s) && Enabled(s, step)
    ensures Counted(Do(s, step))
  {
    var t, c := Do(s, step), step.call;
    if !step.Ref? {
      InUse(s, c);
    }
    forall id | id in t.m ensures CountedAt(t, t.m[id]) {
      if id !in s.m {
        CountedAtNew(s, step);
      } else {
        CountedAtAfter(s, step, s.m[id]);
      }
    }
  }

  lemma MappedKeptByUnref(s: State, step: Step)
    requires Mapped(s) && Counted(s) && Enabled(s, step) && step.Unref?
    ensures Mapped(Do(s, step))
  {
    var l := s.calls[step.call].lock;
    InUse(s, step.call);
    forall c | s.locks[l].refs == 1 && c in s.calls && s.calls[c].phase != Done && c != step.call
      ensures s.calls[c].lock != l
    {
      assert c !in Users(s, l);
    }
  }

  lemma MappedKeptByRef(s: State, step: Step)
    requires Mapped(s) && Enabled(s, step) && step.Ref?
    ensures Mapped(Do(s, step))
  {
  }

  lemma MappedKept(s: State, step: Step)
    requires Mapped(s) && Counted(s) && Enabled(s, step)
    ensures Mapped(Do(s, step))
  {
    if step.Unref? {
      MappedKeptByUnref(s, step);
    } else if step.Ref? {
      MappedKeptByRef(s, step);
    }
  }

  /** A token that this step did not send was there before. */
  lemma TokenWasThere(s: State, step: Step, id: SourceId)
    requires Mapped(s) && Enabled(s, step)
    requires id in Do(s, step).m && Do(s, step).m[id] < |Do(s, step).locks|
    requires Do(s, step).locks[Do(s, step).m[id]].token
    requires step.Send? ==> Do(s, step).m[id] != s.calls[step.call].lock
    ensures id in s.m && s.m[id] == Do(s, step).m[id] && s.m[id] < |s.locks| && s.locks[s.m[id]].token
    ensures step.Receive? ==> s.m[id] != s.calls[step.call].lock
  {
  }

  /** A holder of a token that this step did not receive holds it still. */
  lemma HolderStays(s: State, step: Step, d: CallId)
    requires Enabled(s, step) && InPhase(s, d, Holding)
    requires step.Receive? ==> s.calls[d].lock != s.calls[step.call].lock
    ensures InPhase(Do(s, step), d, Holding) && Do(s, step).calls[d].lock == s.calls[d].lock
  {
  }

  lemma TokenHasHolder(s: State, step: Step, id: SourceId)
    requires Mapped(s) && TokenIsHeld(s) && Enabled(s, step)
    requires id in Do(s, step).m && Do(s, step).m[id] < |Do(s, step).locks|
    requires Do(s, step).locks[Do(s, step).m[id]].token
    ensures HasHolder(Do(s, step), Do(s, step).m[id])
  {
    var t, c := Do(s, step), step.call;
    if step.Send? && t.m[id] == s.calls[c].lock {
      assert InPhase(t, c, Holding);
    } else {
      TokenWasThere(s, step, id);
      assert HasHolder(s, s.m[id]);
      var d :| InPhase(s, d, Holding) && s.calls[d].lock == s.m[id];
      HolderStays(s, step, d);
    }
  }

  lemma HolderHasToken(s: State, step: Step, d: CallId)
    requires Mapped(s) && TokenIsHeld(s) && Enabled(s, step) && InPhase(Do(s, step), d, Holding)
    ensures Token(Do(s, step), d)
    ensures d != step.call || !step.Send? ==> InPhase(s, d, Holding) && s.calls[d] == Do(s, step).calls[d]
    ensures d != step.call && step.Send? ==> Do(s, step).calls[d].lock != Do(s, step).calls[step.call].lock
  {
    if step.Receive? {
      assert InPhase(s, step.call, Holding);
    }
    if d != step.call || !step.Send? {
      assert InPhase(s, d, Holding) && Token(s, d);
    }
  }

  lemma TokenKept(s: State, step: Step)
    requires Mapped(s) && TokenIsHeld(s) && Enabled(s, step)
    ensures TokenIsHeld(Do(s, step))
  {
    var t := Do(s, step);
    forall id | id in t.m && t.m[id] < |t.locks| && t.locks[t.m[id]].token ensures HasHolder(t, t.m[id]) {
      TokenHasHolder(s, step, id);
    }
    forall d | InPhase(t, d, Holding)
      ensures Token(t, d) && (d != step.call || !step.Send? ==> InPhase(s, d, Holding) && s.calls[d] == t.calls[d])
      ensures d != step.call && step.Send? ==> t.calls[d].lock != t.calls[step.call].lock
    {
      HolderHasToken(s, step, d);
    }
  }

  lemma InvKept(s: State, step: Step)
    requires Inv(s) && Enabled(s, step)
    ensures Inv(Do(s, step))
  {
    MappedKept(s, step);
    CountedKept(s, step);
    TokenKept(s, step);
  }

  /** steps lead from s to t. */
  ghost predicate Run(s: State, steps: seq<Step>, t: State)
    decreases |steps|
  {
    if steps == [] then s == t else Enabled(s, steps[0]) && Run(Do(s, steps[0]), steps[1..], t)
  }

  lemma {:induction false} RunKeepsInv(s: State, steps: seq<Step>, t: State)
    requires Inv(s) && Run(s, steps, t)
    ensures Inv(t)
    decreases |steps|
  {
    if steps != [] {
      InvKept(s, steps[0]);
      RunKeepsInv(Do(s, steps[0]), steps[1..], t);
    }
  }

  // ---- What callers get ----

  predicate Holds(s: State, c: CallId, id: SourceId) {
    InPhase(s, c, Holding) && s.calls[c].id == id
  }

  predicate Refers(s: State, c: CallId, id: SourceId) {
    c in s.calls && s.calls[c].phase != Done && s.calls[c].id == id
  }

  function Referring(s: State, id: SourceId): set<CallId> {
    set c | c in s.calls && Refers(s, c, id)
  }

  /** held. */
  predicate Held(s: State, id: SourceId) {
    id in s.m && s.m[id] < |s.locks| && s.locks[s.m[id]].token
  }

  /** In every reachable state and for every source: one holder at most, even when its entry was dropped
      and made anew; an entry exactly while a call refers to it, counting those calls; held answers
      whether somebody holds it; and an unlock never waits. */
  lemma OneHolder(steps: seq<Step>, s: State, id: SourceId)
    requires Run(State(map[], [], map[]), steps, s)
    ensures forall c, d :: Holds(s, c, id) && Holds(s, d, id) ==> c == d
    ensures id in s.m <==> Referring(s, id) != {}
    ensures id in s.m ==> s.m[id] < |s.locks| && s.locks[s.m[id]].refs == |Referring(s, id)|
    ensures Held(s, id) <==> exists c :: Holds(s, c, id)
    ensures forall c :: Holds(s, c, id) ==> Enabled(s, Receive(c))
  {
    RunKeepsInv(State(map[], [], map[]), steps, s);
    HolderFacts(s, id);
  }

  lemma HolderFacts(s: State, id: SourceId)
    requires Inv(s)
    ensures forall c, d :: Holds(s, c, id) && Holds(s, d, id) ==> c == d
    ensures id in s.m <==> Referring(s, id) != {}
    ensures id in s.m ==> s.m[id] < |s.locks| && s.locks[s.m[id]].refs == |Referring(s, id)|
    ensures Held(s, id) <==> exists c :: Holds(s, c, id)
    ensures forall c :: Holds(s, c, id) ==> Enabled(s, Receive(c))
  {
    assert forall c :: Refers(s, c, id) ==> c in Referring(s, id) && id in s.m;
    if id in s.m {
      assert Referring(s, id) == Users(s, s.m[id]);
      assert |Users(s, s.m[id])| > 0;
    }
    forall c | Holds(s, c, id) ensures Held(s, id) {
      assert InPhase(s, c, Holding) && Token(s, c) && Refers(s, c, id);
    }
    if Held(s, id) {
      assert HasHolder(s, s.m[id]);
      var c :| InPhase(s, c, Holding) && s.calls[c].lock == s.m[id];
      assert Holds(s, c, id);
    }
  }

  // ---- The code, each method with other calls running between its steps ----

  method OthersFrom(s: State, c: CallId) returns (t: State)
    requires Inv(s)
    ensures Inv(t) && SameCall(s.calls, t.calls, c) && |t.locks| >= |s.locks|
  {
    t := s;
    var n: nat := *;
    while n > 0
      invariant Inv(t) && SameCall(s.calls, t.calls, c) && |t.locks| >= |s.locks|
    {
      n := n - 1;
      var step: Step := *;
      if step.call != c && Enabled(t, step) {
        InvKept(t, step);
        t := Do(t, step);
      }
    }
  }

  /** ref, field by field: the entry found or made, its count, and the new call. */
  lemma RefByField(s: State, c: CallId, id: SourceId, once: bool, m: map<SourceId, LockRef>, locks: seq<Lock>)
    requires Mapped(s) && c !in s.calls
    requires m == if id in s.m then s.m else s.m[id := |s.locks|]
    requires locks == if id in s.m then s.locks else s.locks + [Lock(false, 0)]
    ensures m[id] < |locks|
    ensures Do(s, Ref(c, id, once)) ==
      State(m, locks[m[id] := locks[m[id]].(refs := locks[m[id]].refs + 1)],
        s.calls[c := Call(id, m[id], if once then Trying else Waiting)])
  {
  }

  /** The entry a call takes its reference on has a token exactly if a call holds the lock. */
  lemma FreeWhenUnheld(s: State, c: CallId, id: SourceId, once: bool)
    requires Inv(s) && c !in s.calls
    ensures var t := Do(s, Ref(c, id, once));
      && c in t.calls && t.calls[c].lock < |t.locks|
      && (t.locks[t.calls[c].lock].token <==> exists d :: Holds(s, d, id))
  {
    HolderFacts(s, id);
  }

  /** Without other calls, nobody holds the lock after its holder gave it back. */
  lemma FreedByUnlock(s: State, c: CallId, id: SourceId)
    requires Inv(s) && Holds(s, c, id) && Enabled(s, Receive(c)) && Enabled(Do(s, Receive(c)), Unref(c))
    ensures forall d :: !Holds(Do(Do(s, Receive(c)), Unref(c)), d, id)
  {
    HolderFacts(s, id);
  }

  class SourceLocks {
    var m: map<SourceId, LockRef>
    var locks: seq<Lock>
    var calls: map<CallId, Call>

    function Now(): State
      reads this
    {
      State(m, locks, calls)
    }

    constructor ()
      ensures Now() == State(map[], [], map[]) && Inv(Now())
    {
      m, locks, calls := map[], [], map[];
    }

    /** ref, by call c. */
    method TakeRef(c: CallId, id: SourceId, once: bool) returns (sl: LockRef)
      requires Inv(Now()) && c !in calls
      modifies this
      ensures Now() == Do(old(Now()), Ref(c, id, once)) && Inv(Now())
      ensures sl == calls[c].lock < |locks|
    {
      ghost var before := Now();
      InvKept(before, Ref(c, id, once));
      if id !in m {
        m, locks := m[id := |locks|], locks + [Lock(false, 0)];
      }
      RefByField(before, c, id, once, m, locks);
      sl := m[id];
      locks := locks[sl := locks[sl].(refs := locks[sl].refs + 1)];
      calls := calls[c := Call(id, sl, if once then Trying else Waiting)];
    }

    /** unref, by call c. */
    method DropRef(c: CallId, id: SourceId, sl: LockRef)
      requires Inv(Now()) && InPhase(Now(), c, Leaving) && calls[c].id == id && calls[c].lock == sl
      modifies this
      ensures Now() == Do(old(Now()), Unref(c)) && Inv(Now())
    {
      InvKept(Now(), Unref(c));
      calls := calls[c := calls[c].(phase := Done)];
      locks := locks[sl := locks[sl].(refs := locks[sl].refs - 1)];
      if locks[sl].refs == 0 {
        m := Forget(m, id);
      }
    }

    /** Any number of steps of calls other than c; alone: none. */
    method Others(c: CallId, alone: bool)
      requires Inv(Now())
      modifies this
      ensures Inv(Now()) && SameCall(old(calls), calls, c) && |locks| >= |old(locks)|
      ensures alone ==> Now() == old(Now())
    {
      if !alone {
        var next := OthersFrom(Now(), c);
        m, locks, calls := next.m, next.locks, next.calls;
      }
    }

    /** The send case of lock and tryLock. */
    method TrySend(c: CallId, sl: LockRef) returns (sent: bool)
      requires Inv(Now()) && (InPhase(Now(), c, Waiting) || InPhase(Now(), c, Trying)) && calls[c].lock == sl < |locks|
      modifies this
      ensures Inv(Now()) && sent == !old(locks)[sl].token
      ensures Now() == if sent then Do(old(Now()), Send(c)) else old(Now())
    {
      sent := !locks[sl].token;
      if sent {
        InvKept(Now(), Send(c));
        locks := locks[sl := locks[sl].(token := true)];
        calls := calls[c := calls[c].(phase := Holding)];
      }
    }

    /** unref by call c, after other calls. */
    method Leave(c: CallId, id: SourceId, sl: LockRef, alone: bool)
      requires Inv(Now()) && InPhase(Now(), c, Leaving) && calls[c].id == id && calls[c].lock == sl
      modifies this
      ensures Inv(Now()) && InPhase(Now(), c, Done)
      ensures alone ==> Now() == Do(old(Now()), Unref(c))
    {
      Others(c, alone);
      DropRef(c, id, sl);
    }

    /** The other case, by call c: unref. */
    method Abandon(c: CallId, id: SourceId, sl: LockRef, alone: bool)
      requires Inv(Now()) && Enabled(Now(), GiveUp(c)) && calls[c].id == id && calls[c].lock == sl
      modifies this
      ensures Inv(Now()) && InPhase(Now(), c, Done)
    {
      InvKept(Now(), GiveUp(c));
      calls := calls[c := calls[c].(phase := Leaving)];
      Leave(c, id, sl, alone);
    }

    /** lock: waits for the lock of source id, or for its context to end, which can only happen when ends. */
    method AcquireLock(c: CallId, id: SourceId, alone: bool, ends: bool) returns (ok: bool)
      requires Inv(Now()) && c !in calls
      modifies this
      ensures Inv(Now())
      ensures if ok then Holds(Now(), c, id) else c !in calls || InPhase(Now(), c, Done)
      ensures alone && !ends ==> (ok <==> forall d :: !Holds(old(Now()), d, id))
    {
      var ended: bool := *;
      if ends && ended {
        return false;
      }
      ghost var before := Now();
      var sl := TakeRef(c, id, false);
      Others(c, alone);
      ended := *;
      if !(ends && ended) {
        FreeWhenUnheld(before, c, id, false);
        ok := TrySend(c, sl);
        if ok {
          return;
        }
      }
      Abandon(c, id, sl, alone);
      return false;
    }

    /** tryLock: takes the lock of source id if it is free. */
    method TryLock(c: CallId, id: SourceId, alone: bool) returns (ok: bool)
      requires Inv(Now()) && c !in calls
      modifies this
      ensures Inv(Now())
      ensures if ok then Holds(Now(), c, id) else InPhase(Now(), c, Done)
      ensures alone ==> (ok <==> forall d :: !Holds(old(Now()), d, id))
    {
      ghost var before := Now();
      var sl := TakeRef(c, id, true);
      Others(c, alone);
      FreeWhenUnheld(before, c, id, true);
      ok := TrySend(c, sl);
      if !ok {
        Abandon(c, id, sl, alone);
      }
    }

    method ReceiveToken(c: CallId, sl: LockRef)
      requires Inv(Now()) && InPhase(Now(), c, Holding) && calls[c].lock == sl
      modifies this
      ensures Inv(Now()) && Enabled(old(Now()), Receive(c)) && Now() == Do(old(Now()), Receive(c))
    {
      InvKept(Now(), Receive(c));
      locks := locks[sl := locks[sl].(token := false)];
      calls := calls[c := calls[c].(phase := Leaving)];
    }

    /** The unlock that lock and tryLock return, safe to call again. */
    method Unlock(c: CallId, alone: bool)
      requires Inv(Now()) && (InPhase(Now(), c, Holding) || InPhase(Now(), c, Done))
      modifies this
      ensures Inv(Now()) && InPhase(Now(), c, Done)
      ensures old(calls[c].phase) == Done ==> Now() == old(Now())
      ensures alone && old(calls[c].phase) == Holding ==> forall d :: !Holds(Now(), d, old(calls[c].id))
    {
      if calls[c].phase == Holding {
        var id, sl := calls[c].id, calls[c].lock;
        ghost var before := Now();
        HolderFacts(before, id);
        ReceiveToken(c, sl);
        Leave(c, id, sl, alone);
        if alone {
          FreedByUnlock(before, c, id);
        }
      }
    }

    /** held. */
    method IsHeld(id: SourceId) returns (held: bool)
      requires Inv(Now())
      ensures held <==> exists c :: Holds(Now(), c, id)
    {
      HolderFacts(Now(), id);
      held := id in m && locks[m[id]].token;
    }
  }

  predicate SameCall(before: map<CallId, Call>, after: map<CallId, Call>, c: CallId) {
    (c in before <==> c in after) && (c in before ==> after[c] == before[c])
  }
}
