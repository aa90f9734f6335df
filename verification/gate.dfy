/** versionGates (internal/api/engines.go): keeps the unlock of a destination's repository and the open
    version stores of that destination apart. The sections under the mutex, the wait on a done channel and
    its closing are the steps; everything about them is proved for every interleaving. */
module VersionGate {
  type DestId = int

  type ChanRef = nat

  type CallId = nat

  /** Where a call stands: enter is Entering, may wait on a channel, is Open when it returned and Left
      after leave; lockOut is Unlocking when it returned, Closing between the two parts of release, and
      Released after it. Refused ends a call that got nothing. */
  datatype Phase =
    | Entering
    | Waiting(done: ChanRef)
    | Open
    | Left
    | Unlocking(done: ChanRef)
    | Closing(done: ChanRef)
    | Released(done: ChanRef)
    | Refused

  datatype Call = Call(id: DestId, phase: Phase)

  /** closed counts how often each channel was closed; closing one twice panics. */
  datatype State =
    State(open: map<DestId, int>, unlocking: map<DestId, ChanRef>, closed: seq<nat>, calls: map<CallId, Call>)

  datatype Step =
    | Start(call: CallId, id: DestId)
    | Check(call: CallId)
    | Wake(call: CallId)
    | Cancel(call: CallId)
    | Leave(call: CallId)
    | LockOut(call: CallId, id: DestId)
    | Delete(call: CallId)
    | Close(call: CallId)

  predicate Is(s: State, c: CallId, p: Phase) {
    c in s.calls && s.calls[c].phase == p
  }

  predicate WaitsOn(s: State, c: CallId) {
    c in s.calls && s.calls[c].phase.Waiting?
  }

  predicate Unlocks(s: State, c: CallId) {
    c in s.calls && s.calls[c].phase.Unlocking?
  }

  predicate Closes(s: State, c: CallId) {
    c in s.calls && s.calls[c].phase.Closing?
  }

  predicate Enabled(s: State, step: Step) {
    match step
    case Start(c, _) => c !in s.calls
    case Check(c) => Is(s, c, Entering)
    case Wake(c) => WaitsOn(s, c) && s.calls[c].phase.done < |s.closed| && s.closed[s.calls[c].phase.done] > 0
    case Cancel(c) => WaitsOn(s, c)
    case Leave(c) => Is(s, c, Open)
    case LockOut(c, _) => c !in s.calls
    case Delete(c) => Unlocks(s, c)
    case Close(c) => Closes(s, c) && s.calls[c].phase.done < |s.closed|
  }

  function Count(open: map<DestId, int>, id: DestId): int {
    if id in open then open[id] else 0
  }

  function Forget<T>(m: map<DestId, T>, id: DestId): map<DestId, T> {
    map i | i in m && i != id :: m[i]
  }

  function To(s: State, c: CallId, id: DestId, p: Phase): State {
    s.(calls := s.calls[c := Call(id, p)])
  }

  function Do(s: State, step: Step): State
    requires Enabled(s, step)
  {
    match step
    case Start(c, id) => To(s, c, id, Entering)
    case Check(c) =>
      var id := s.calls[c].id;
      if id in s.unlocking then To(s, c, id, Waiting(s.unlocking[id]))
      else To(s.(open := s.open[id := Count(s.open, id) + 1]), c, id, Open)
    case Wake(c) => To(s, c, s.calls[c].id, Entering)
    case Cancel(c) => To(s, c, s.calls[c].id, Refused)
    case Leave(c) =>
      var id := s.calls[c].id;
      var n := Count(s.open, id) - 1;
      To(s.(open := if n <= 0 then Forget(s.open, id) else s.open[id := n]), c, id, Left)
    case LockOut(c, id) =>
      if Count(s.open, id) > 0 || id in s.unlocking then To(s, c, id, Refused)
      else To(s.(unlocking := s.unlocking[id := |s.closed|], closed := s.closed + [0]), c, id, Unlocking(|s.closed|))
    case Delete(c) => To(s.(unlocking := Forget(s.unlocking, s.calls[c].id)), c, s.calls[c].id,
      Closing(s.calls[c].phase.done))
    case Close(c) =>
      var ch := s.calls[c].phase.done;
      To(s.(closed := s.closed[ch := s.closed[ch] + 1]), c, s.calls[c].id, Released(ch))
  }

  // ---- What every interleaving keeps ----

  function OpenStores(s: State, id: DestId): set<CallId> {
    set c | c in s.calls && s.calls[c] == Call(id, Open)
  }

  /** open counts the entered stores that have not left. */
  ghost predicate CountedAt(s: State, id: DestId) {
    && Count(s.open, id) == |OpenStores(s, id)|
    && (id in s.open ==> s.open[id] > 0)
  }

  ghost predicate Counted(s: State) {
    forall id :: CountedAt(s, id)
  }

  ghost predicate Runs(s: State, id: DestId, ch: ChanRef) {
    exists c :: c in s.calls && s.calls[c] == Call(id, Unlocking(ch))
  }

  /** The unlocking map and the unlocks that run name each other, and no store of that destination is open. */
  ghost predicate Apart(s: State) {
    && (forall c :: Unlocks(s, c) ==>
      s.calls[c].id in s.unlocking && s.unlocking[s.calls[c].id] == s.calls[c].phase.done)
    && (forall id :: id in s.unlocking ==> ApartAt(s, id))
  }

  ghost predicate ApartAt(s: State, id: DestId) {
    id in s.unlocking && id !in s.open && Runs(s, id, s.unlocking[id])
  }

  /** The call closes the channel some day. */
  predicate Owns(s: State, c: CallId) {
    Unlocks(s, c) || Closes(s, c)
  }

  ghost predicate WillClose(s: State, ch: ChanRef) {
    exists c :: Owns(s, c) && s.calls[c].phase.done == ch
  }

  ghost predicate OwnedOnce(s: State) {
    forall c, d :: Owns(s, c) && Owns(s, d) && s.calls[c].phase.done == s.calls[d].phase.done ==> c == d
  }

  /** An owned channel is open, a released one was closed once, and nobody waits on a channel that is
      neither closed nor owned. */
  ghost predicate ChanOk(s: State, c: CallId)
    requires c in s.calls
  {
    match s.calls[c].phase
    case Waiting(ch) => ch < |s.closed| && (s.closed[ch] > 0 || WillClose(s, ch))
    case Unlocking(ch) => ch < |s.closed| && s.closed[ch] == 0
    case Closing(ch) => ch < |s.closed| && s.closed[ch] == 0
    case Released(ch) => ch < |s.closed| && s.closed[ch] == 1
    case _ => true
  }

  ghost predicate ChansOk(s: State) {
    forall c :: c in s.calls ==> ChanOk(s, c)
  }

  ghost predicate Inv(s: State) {
    Counted(s) && Apart(s) && OwnedOnce(s) && ChansOk(s)
  }

  // ---- Each step keeps it ----

  /** Only call c moved. */
  ghost predicate Moved(s: State, t: State, c: CallId) {
    && (forall d :: d in t.calls <==> d in s.calls || d == c)
    && (forall d :: d in s.calls && d != c ==> t.calls[d] == s.calls[d])
  }

  lemma OpenStoresStay(s: State, t: State, c: CallId, id: DestId)
    requires Moved(s, t, c) && (c in OpenStores(s, id) <==> c in OpenStores(t, id))
    ensures OpenStores(t, id) == OpenStores(s, id)
  {
  }

  lemma OpenStoresGrow(s: State, t: State, c: CallId, id: DestId)
    requires Moved(s, t, c) && c !in OpenStores(s, id) && c in OpenStores(t, id)
    ensures |OpenStores(t, id)| == |OpenStores(s, id)| + 1
  {
    assert OpenStores(t, id) == OpenStores(s, id) + {c};
  }

  lemma CountedAtKept(s: State, step: Step, id: DestId)
    requires CountedAt(s, id) && Enabled(s, step)
    ensures CountedAt(Do(s, step), id)
  {
    var t, c := Do(s, step), step.call;
    assert Moved(s, t, c);
    if t.calls[c] == Call(id, Open) {
      OpenStoresGrow(s, t, c, id);
    } else if c in s.calls && s.calls[c] == Call(id, Open) {
      OpenStoresGrow(t, s, c, id);
    } else {
      OpenStoresStay(s, t, c, id);
    }
  }

  lemma CountedKept(s: State, step: Step)
    requires Counted(s) && Enabled(s, step)
    ensures Counted(Do(s, step))
  {
    forall id ensures CountedAt(Do(s, step), id) {
      assert CountedAt(s, id);
      CountedAtKept(s, step, id);
    }
  }

  lemma ApartAtKept(s: State, step: Step, id: DestId)
    requires Enabled(s, step) && CountedAt(s, id) && id in Do(s, step).unlocking
    requires id in s.unlocking ==> ApartAt(s, id)
    ensures ApartAt(Do(s, step), id)
  {
    var t, c := Do(s, step), step.call;
    if id !in s.unlocking {
      assert t.calls[c] == Call(id, Unlocking(|s.closed|));
    } else {
      var d :| d in s.calls && s.calls[d] == Call(id, Unlocking(s.unlocking[id]));
      assert d in t.calls && t.calls[d] == s.calls[d];
    }
  }

  lemma ApartKept(s: State, step: Step)
    requires Counted(s) && Apart(s) && OwnedOnce(s) && Enabled(s, step)
    ensures Apart(Do(s, step))
  {
    var t := Do(s, step);
    forall id | id in t.unlocking ensures ApartAt(t, id) {
      assert CountedAt(s, id);
      ApartAtKept(s, step, id);
    }
    forall c | Unlocks(t, c)
      ensures t.calls[c].id in t.unlocking && t.unlocking[t.calls[c].id] == t.calls[c].phase.done
    {
      if c != step.call {
        assert Unlocks(s, c) && t.calls[c] == s.calls[c];
        if step.Delete? {
          assert Unlocks(s, step.call);
          assert Owns(s, c) && Owns(s, step.call);
        }
      }
    }
  }

  /** Only lockOut makes an owner, of a channel nobody had. */
  lemma OwnerWas(s: State, step: Step, d: CallId)
    requires ChansOk(s) && Enabled(s, step) && Owns(Do(s, step), d)
    ensures if step.LockOut? && d == step.call then Do(s, step).calls[d].phase.done == |s.closed|
            else Owns(s, d) && s.calls[d].phase.done == Do(s, step).calls[d].phase.done < |s.closed|
  {
    if d in s.calls {
      assert ChanOk(s, d);
    }
  }

  lemma OwnedOnceKept(s: State, step: Step)
    requires OwnedOnce(s) && ChansOk(s) && Enabled(s, step)
    ensures OwnedOnce(Do(s, step))
  {
    var t := Do(s, step);
    forall c, d | Owns(t, c) && Owns(t, d) && t.calls[c].phase.done == t.calls[d].phase.done ensures c == d {
      OwnerWas(s, step, c);
      OwnerWas(s, step, d);
    }
  }

  lemma OwnerStays(s: State, step: Step, ch: ChanRef)
    requires Enabled(s, step) && WillClose(s, ch)
    ensures WillClose(Do(s, step), ch) || (step.Close? && s.calls[step.call].phase.done == ch)
  {
    var c :| Owns(s, c) && s.calls[c].phase.done == ch;
    if c != step.call || step.Delete? {
      assert Owns(Do(s, step), c);
    }
  }

  /** ...of a call that did not move... */
  lemma OtherChanOk(s: State, step: Step, d: CallId)
    requires OwnedOnce(s) && ChansOk(s) && Enabled(s, step) && d in Do(s, step).calls && d != step.call
    ensures ChanOk(Do(s, step), d)
  {
    var c := step.call;
    assert ChanOk(s, d);
    if step.Close? {
      assert Owns(s, c);
      assert Owns(s, d) ==> s.calls[d].phase.done != s.calls[c].phase.done;
    }
    if s.calls[d].phase.Waiting? && s.closed[s.calls[d].phase.done] == 0 {
      OwnerStays(s, step, s.calls[d].phase.done);
    }
  }

  /** ...and of the one that did. */
  lemma ChanOkKept(s: State, step: Step, d: CallId)
    requires Apart(s) && OwnedOnce(s) && ChansOk(s) && Enabled(s, step) && d in Do(s, step).calls
    ensures ChanOk(Do(s, step), d)
  {
    var t, c := Do(s, step), step.call;
    if c in s.calls {
      assert ChanOk(s, c);
    }
    if d != c {
      OtherChanOk(s, step, d);
    } else if step.Check? && t.calls[c].phase.Waiting? {
      var id := s.calls[c].id;
      assert ApartAt(s, id);
      var u :| u in s.calls && s.calls[u] == Call(id, Unlocking(s.unlocking[id]));
      assert ChanOk(s, u);
      assert Owns(t, u) && t.calls[u].phase.done == s.unlocking[id];
    }
  }

  lemma InvKept(s: State, step: Step)
    requires Inv(s) && Enabled(s, step)
    ensures Inv(Do(s, step))
  {
    CountedKept(s, step);
    ApartKept(s, step);
    OwnedOnceKept(s, step);
    forall d | d in Do(s, step).calls ensures ChanOk(Do(s, step), d) {
      ChanOkKept(s, step, d);
    }
  }
  // ---- What callers get ----

  /** steps lead from s to t. */
  ghost predicate Run(s: State, steps: seq<Step>, t: State)
    decreases |steps|
  {
    if steps == [] then s == t else Enabled(s, steps[0]) && Run(Do(s, steps[0]), steps[1..], t)
  }

  lemma {:induction false} RunKeepsInv(s: State, steps: seq<Step>, t: State)
    requires Inv(s) && Run(s, steps, t)
    ensures Inv(t)
    decreases |steps|
  {
    if steps != [] {
      InvKept(s, steps[0]);
      RunKeepsInv(Do(s, steps[0]), steps[1..], t);
    }
  }

  const START := State(map[], map[], [], map[])

  /** In every reachable state and for every destination: no unlock runs while a version store is open,
      two unlocks never run together, and open counts the stores that entered and have not left. */
  lemma NeverTogether(steps: seq<Step>, s: State, id: DestId)
    requires Run(START, steps, s)
    ensures forall c, d :: Unlocks(s, c) && s.calls[c].id == id && d in s.calls && s.calls[d].id == id ==>
      s.calls[d].phase != Open && (Unlocks(s, d) ==> c == d)
    ensures Count(s.open, id) == |OpenStores(s, id)|
    ensures id in s.open <==> OpenStores(s, id) != {}
  {
    RunKeepsInv(START, steps, s);
    assert CountedAt(s, id);
    forall c, d | Unlocks(s, c) && s.calls[c].id == id && d in s.calls && s.calls[d].id == id
      ensures s.calls[d].phase != Open && (Unlocks(s, d) ==> c == d)
    {
      assert ApartAt(s, id) && Owns(s, c);
      assert s.calls[d].phase == Open ==> d in OpenStores(s, id);
      assert Unlocks(s, d) ==> Owns(s, d);
    }
  }

  /** In every reachable state: a channel about to be closed was never closed before, a released one
      was closed once, and a waiter's channel is closed or its unlock is still there to close it. */
  lemma ClosedOnce(steps: seq<Step>, s: State, c: CallId)
    requires Run(START, steps, s) && c in s.calls
    ensures Closes(s, c) ==> Enabled(s, Close(c)) && s.closed[s.calls[c].phase.done] == 0
    ensures s.calls[c].phase.Released? ==>
      s.calls[c].phase.done < |s.closed| && s.closed[s.calls[c].phase.done] == 1
    ensures WaitsOn(s, c) ==> Enabled(s, Wake(c)) || WillClose(s, s.calls[c].phase.done)
  {
    RunKeepsInv(START, steps, s);
    assert ChanOk(s, c);
  }

  // ---- The code, each method with other calls running between its steps ----

  predicate SameCall(before: map<CallId, Call>, after: map<CallId, Call>, c: CallId) {
    (c in before <==> c in after) && (c in before ==> after[c] == before[c])
  }

  method OthersFrom(s: State, c: CallId) returns (t: State)
    requires Inv(s)
    ensures Inv(t) && SameCall(s.calls, t.calls, c)
  {
    t := s;
    var n: nat := *;
    while n > 0
      invariant Inv(t) && SameCall(s.calls, t.calls, c)
    {
      n := n - 1;
      var step: Step := *;
      if step.call != c && Enabled(t, step) {
        InvKept(t, step);
        t := Do(t, step);
      }
    }
  }

  class VersionGates {
    var open: map<DestId, int>
    var unlocking: map<DestId, ChanRef>
    var closed: seq<nat>
    var calls: map<CallId, Call>

    function Now(): State
      reads this
    {
      State(open, unlocking, closed, calls)
    }

    constructor ()
      ensures Now() == START && Inv(Now())
    {
      open, unlocking, closed, calls := map[], map[], [], map[];
    }

    /** Any number of steps of calls other than c; alone: none. */
    method Others(c: CallId, alone: bool)
      requires Inv(Now())
      modifies this
      ensures Inv(Now()) && SameCall(old(calls), calls, c)
      ensures alone ==> Now() == old(Now())
    {
      if !alone {
        var next := OthersFrom(Now(), c);
        open, unlocking, closed, calls := next.open, next.unlocking, next.closed, next.calls;
      }
    }

    /** The section of enter under the mutex. */
    method TryEnter(c: CallId, id: DestId) returns (entered: bool)
      requires Inv(Now()) && Is(Now(), c, Entering) && calls[c].id == id
      modifies this
      ensures Inv(Now()) && Now() == Do(old(Now()), Check(c))
      ensures if entered then Is(Now(), c, Open) else WaitsOn(Now(), c)
    {
      InvKept(Now(), Check(c));
      if id !in unlocking {
        open := open[id := Count(open, id) + 1];
        calls := calls[c := Call(id, Open)];
        return true;
      }
      calls := calls[c := Call(id, Waiting(unlocking[id]))];
      return false;
    }

    /** enter: waits until no unlock of id runs, at most rounds times, then counts a store open. */
    method Enter(c: CallId, id: DestId, rounds: nat, alone: bool) returns (ok: bool)
      requires Inv(Now()) && c !in calls
      modifies this
      ensures Inv(Now()) && c in calls && calls[c].id == id
      ensures Is(Now(), c, if ok then Open else Refused)
      ensures alone ==> (ok <==> forall d :: Unlocks(old(Now()), d) ==> old(calls[d].id) != id)
    {
      FreeToUnlock(Now(), id);
      InvKept(Now(), Start(c, id));
      calls := calls[c := Call(id, Entering)];
      var left := rounds;
      while true
        invariant Inv(Now()) && Is(Now(), c, Entering) && calls[c].id == id
        invariant alone ==> unlocking == old(unlocking)
        invariant alone && old(id !in unlocking) ==> left == rounds
        decreases left
      {
        Others(c, alone);
        ok := TryEnter(c, id);
        if ok {
          return;
        }
        Others(c, alone);
        if left == 0 || closed[calls[c].phase.done] == 0 {
          InvKept(Now(), Cancel(c));
          calls := calls[c := Call(id, Refused)];
          return false;
        }
        left := left - 1;
        InvKept(Now(), Wake(c));
        calls := calls[c := Call(id, Entering)];
      }
    }

    /** leave, safe to call again. */
    method LeaveStore(c: CallId)
      requires Inv(Now()) && (Is(Now(), c, Open) || Is(Now(), c, Left))
      modifies this
      ensures Inv(Now()) && Is(Now(), c, Left)
      ensures Now() == if old(calls[c].phase) == Open then Do(old(Now()), Leave(c)) else old(Now())
    {
      if calls[c].phase == Open {
        InvKept(Now(), Leave(c));
        var id := calls[c].id;
        var n := Count(open, id) - 1;
        open := if n <= 0 then Forget(open, id) else open[id := n];
        calls := calls[c := Call(id, Left)];
      }
    }

    /** lockOut: starts an unlock of id, unless a store of it is open or another unlock runs. */
    method StartUnlock(c: CallId, id: DestId) returns (ok: bool)
      requires Inv(Now()) && c !in calls
      modifies this
      ensures Inv(Now()) && Now() == Do(old(Now()), LockOut(c, id))
      ensures ok <==> OpenStores(old(Now()), id) == {} && !exists d :: Unlocks(old(Now()), d) && old(calls[d].id) == id
      ensures ok <==> Unlocks(Now(), c)
    {
      InvKept(Now(), LockOut(c, id));
      FreeToUnlock(Now(), id);
      if Count(open, id) > 0 || id in unlocking {
        calls := calls[c := Call(id, Refused)];
        return false;
      }
      unlocking := unlocking[id := |closed|];
      calls := calls[c := Call(id, Unlocking(|closed|))];
      closed := closed + [0];
      return true;
    }

    /** release, safe to call again. */
    method Release(c: CallId, alone: bool)
      requires Inv(Now()) && c in calls && (calls[c].phase.Unlocking? || calls[c].phase.Released?)
      modifies this
      ensures Inv(Now()) && c in calls && calls[c].phase.Released?
      ensures old(calls[c].phase.Released?) ==> Now() == old(Now())
      ensures alone && old(calls[c].phase.Unlocking?) ==> old(calls[c].id) !in unlocking && open == old(open)
    {
      if calls[c].phase.Unlocking? {
        var id, done := calls[c].id, calls[c].phase.done;
        InvKept(Now(), Delete(c));
        unlocking := Forget(unlocking, id);
        calls := calls[c := Call(id, Closing(done))];
        Others(c, alone);
        assert ChanOk(Now(), c);
        InvKept(Now(), Close(c));
        closed := closed[done := closed[done] + 1];
        calls := calls[c := Call(id, Released(done))];
      }
    }
  }

  lemma FreeToUnlock(s: State, id: DestId)
    requires Inv(s)
    ensures Count(s.open, id) > 0 || id in s.unlocking <==>
      OpenStores(s, id) != {} || exists d :: Unlocks(s, d) && s.calls[d].id == id
    ensures id in s.unlocking <==> exists d :: Unlocks(s, d) && s.calls[d].id == id
  {
    assert CountedAt(s, id);
    if id in s.unlocking {
      assert ApartAt(s, id);
      var d :| d in s.calls && s.calls[d] == Call(id, Unlocking(s.unlocking[id]));
      assert Unlocks(s, d);
    }
  }
}
