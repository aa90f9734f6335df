/** The registry of Plex sign-ins (internal/api/plexsignin.go): what requests do to it under its mutex,
    between calls to plex.tv whose answers may come late. Everything is proved for every interleaving. */
module SignIns {
  import opened Sets
  import opened Wrappers

  type Time = int

  type SignInId = nat

  type CallId = nat

  type Principal = string

  type Token = string

  const MINUTE: int := 60 * 1_000_000_000

  const SECOND: int := 1_000_000_000

  const MAX_LIVE: nat := 8

  const PENDING_TTL: int := 10 * MINUTE

  const CLAIMED_TTL: int := 20 * MINUTE

  const FORGET_AFTER: int := 10 * MINUTE

  const RESOURCES_EVERY: int := 10 * SECOND

  /** A server plex.tv lists: its id, whether the account owns it, its own token. */
  datatype Resource = Resource(server: string, owned: bool, token: Option<Token>)

  /** A sign-in. code and token are None and resources empty once they are dropped. */
  datatype SignIn = SignIn(
    principal: Principal, code: Option<Token>, expires: Time, claimed: bool, token: Option<Token>,
    resources: seq<Resource>, resourcesAt: Option<Time>, expired: bool, forgetAt: Time, gone: bool, inUse: bool)

  /** Where a request stands: it holds a reservation, or saves with a sign-in, or is done with either. */
  datatype Phase = Creating | Saving(id: SignInId) | Saved(id: SignInId) | Ended

  /** m: the ids in the registry; all: every sign-in made, since requests keep pointers to removed ones. */
  datatype State =
    State(m: set<SignInId>, all: map<SignInId, SignIn>, reserved: int, now: Time, calls: map<CallId, Phase>)

  /** What plex.tv says about a PIN. */
  datatype Answer = Unknown | NoAnswer | Waiting | Approved(token: Token, resources: Option<seq<Resource>>)

  /** The sections under the mutex, and the clock. */
  datatype Step =
    | Pass(d: nat)
    | Look
    | Reserve(call: CallId)
    | Unreserve(call: CallId)
    | Add(call: CallId, id: SignInId, principal: Principal, code: Token, pinExpires: Option<Time>)
    | Check(id: SignInId, answer: Answer)
    | Refetch(id: SignInId, res: seq<Resource>)
    | Remove(id: SignInId)
    | Clear
    | Take(call: CallId, id: SignInId)
    | Consume(call: CallId)
    | Release(call: CallId)

  function Expired(si: SignIn, now: Time): SignIn {
    if si.expired then si
    else Dropped(si).(expired := true, forgetAt := now + FORGET_AFTER)
  }

  function Dropped(si: SignIn): SignIn {
    si.(token := None, code := None, resources := [])
  }

  function Removed(si: SignIn): SignIn {
    Dropped(si).(gone := true)
  }

  /** sweepLocked, for one sign-in of the registry. */
  function SweptOne(si: SignIn, now: Time): SignIn {
    if !si.expired && now >= si.expires then Expired(si, now)
    else if si.expired && now >= si.forgetAt then si.(gone := true)
    else si
  }

  function Sweep(s: State): State {
    var all := map i | i in s.all :: if i in s.m then SweptOne(s.all[i], s.now) else s.all[i];
    s.(all := all, m := set i | i in s.m && (i in all ==> !all[i].gone))
  }

  function Live(s: State): set<SignInId> {
    set i | i in s.m && i in s.all && !s.all[i].expired
  }

  predicate Is(s: State, c: CallId, p: Phase) {
    c in s.calls && s.calls[c] == p
  }

  predicate Saves(s: State, c: CallId) {
    c in s.calls && s.calls[c].Saving?
  }

  /** There is nothing to ask plex.tv about it. */
  predicate Settled(si: SignIn) {
    si.gone || si.expired || si.claimed
  }

  predicate CanTake(si: SignIn) {
    si.claimed && !si.expired && !si.gone && !si.inUse
  }

  function With(s: State, id: SignInId, si: SignIn): State {
    s.(all := s.all[id := si])
  }

  function To(s: State, c: CallId, p: Phase): State {
    s.(calls := s.calls[c := p])
  }

  predicate Enabled(s: State, step: Step) {
    match step
    case Pass(_) => true
    case Look => true
    case Reserve(c) => c !in s.calls
    case Unreserve(c) => Is(s, c, Creating)
    case Add(c, id, _, _, _) => Is(s, c, Creating) && id !in s.all
    case Check(id, _) => id in s.all
    case Refetch(id, _) => id in s.all
    case Remove(id) => id in s.all
    case Clear => true
    case Take(c, id) => c !in s.calls && id in s.all
    case Consume(c) => Saves(s, c) && s.calls[c].id in s.all
    case Release(c) => Saves(s, c) && s.calls[c].id in s.all
  }

  function RemoveFrom(s: State, id: SignInId): State
    requires id in s.all
  {
    With(s, id, Removed(s.all[id])).(m := s.m - {id})
  }

  function Answered(si: SignIn, answer: Answer, now: Time): SignIn {
    if si.gone || si.expired then si
    else
      match answer
      case Unknown => Expired(si, now)
      case NoAnswer => si
      case Waiting => si
      case Approved(token, res) =>
        var claimed := si.(claimed := true, token := Some(token), expires := now + CLAIMED_TTL);
        if res.Some? then claimed.(resources := res.value, resourcesAt := Some(now)) else claimed
  }

  function Do(s: State, step: Step): State
    requires Enabled(s, step)
  {
    match step
    case Pass(d) => s.(now := s.now + d)
    case Look => Sweep(s)
    case Reserve(c) =>
      var t := Sweep(s);
      if |Live(t)| + t.reserved >= MAX_LIVE then To(t, c, Ended) else To(t.(reserved := t.reserved + 1), c, Creating)
    case Unreserve(c) => To(s.(reserved := s.reserved - 1), c, Ended)
    case Add(c, id, principal, code, pinExpires) =>
      var most := s.now + PENDING_TTL;
      var expires := if pinExpires.Some? && pinExpires.value < most then pinExpires.value else most;
      var si := SignIn(principal, Some(code), expires, false, None, [], None, false, 0, false, false);
      To(With(s, id, si).(m := s.m + {id}, reserved := s.reserved - 1), c, Ended)
    case Check(id, answer) => With(s, id, Answered(s.all[id], answer, s.now))
    case Refetch(id, res) =>
      if s.all[id].gone || s.all[id].expired then s
      else With(s, id, s.all[id].(resources := res, resourcesAt := Some(s.now)))
    case Remove(id) => RemoveFrom(s, id)
    case Clear => s.(all := map i | i in s.all :: if i in s.m then Removed(s.all[i]) else s.all[i], m := {})
    case Take(c, id) =>
      if CanTake(s.all[id]) then To(With(s, id, s.all[id].(inUse := true)), c, Saving(id)) else To(s, c, Ended)
    case Consume(c) => To(RemoveFrom(s, s.calls[c].id), c, Saved(s.calls[c].id))
    case Release(c) => To(With(s, s.calls[c].id, s.all[s.calls[c].id].(inUse := false)), c, Ended)
  }

  // ---- What every interleaving keeps ----

  function Creators(s: State): set<CallId> {
    set c | c in s.calls && s.calls[c] == Creating
  }

  ghost predicate Bounded(s: State) {
    s.reserved == |Creators(s)| && |Live(s)| + s.reserved <= MAX_LIVE
  }

  predicate NoSecrets(si: SignIn) {
    si.token.None? && si.code.None? && si.resources == []
  }

  /** m holds the sign-ins that are not gone; an expired or gone one holds no secret. */
  ghost predicate Kept(s: State) {
    && s.m <= s.all.Keys
    && forall id :: id in s.all ==> KeptAt(s, id)
  }

  predicate KeptAt(s: State, id: SignInId)
    requires id in s.all
  {
    && (id in s.m <==> !s.all[id].gone)
    && (s.all[id].expired || s.all[id].gone ==> NoSecrets(s.all[id]))
  }

  ghost predicate HasSave(s: State, id: SignInId) {
    exists c :: Is(s, c, Saving(id))
  }

  /** A sign-in is in use by one save at most, and while it is there exactly when a save has it. */
  ghost predicate UsedOnce(s: State) {
    && (forall c :: Saves(s, c) ==> s.calls[c].id in s.all && s.all[s.calls[c].id].inUse)
    && (forall c, d :: Saves(s, c) && Saves(s, d) && s.calls[c].id == s.calls[d].id ==> c == d)
    && (forall id :: id in s.all && s.all[id].inUse && !s.all[id].gone ==> HasSave(s, id))
    && (forall c :: c in s.calls && s.calls[c].Saved? ==> s.calls[c].id in s.all && s.all[s.calls[c].id].gone)
  }

  ghost predicate Inv(s: State) {
    Bounded(s) && Kept(s) && UsedOnce(s)
  }

  lemma SweepKeeps(s: State)
    requires Inv(s)
    ensures Inv(Sweep(s)) && Live(Sweep(s)) <= Live(s)
  {
    var t := Sweep(s);
    SmallerOrSame(Live(t), Live(s));
    assert Creators(t) == Creators(s);
    forall id | id in t.all && t.all[id].inUse && !t.all[id].gone ensures HasSave(t, id) {
      assert HasSave(s, id);
      var c :| Is(s, c, Saving(id));
      assert Is(t, c, Saving(id));
    }
  }

  /** One sign-in changed, without getting secrets it may not have or becoming live again. */
  lemma WithKeeps(s: State, id: SignInId, si: SignIn)
    requires Inv(s) && id in s.all && si.gone == s.all[id].gone && si.inUse == s.all[id].inUse
    requires s.all[id].expired ==> si.expired
    requires si.expired || si.gone ==> NoSecrets(si)
    ensures Inv(With(s, id, si))
  {
    var t := With(s, id, si);
    SmallerOrSame(Live(t), Live(s));
    assert Creators(t) == Creators(s);
    forall i | i in t.all ensures KeptAt(t, i) {
      assert KeptAt(s, i);
    }
    forall i | i in t.all && t.all[i].inUse && !t.all[i].gone ensures HasSave(t, i) {
      assert HasSave(s, i);
      var c :| Is(s, c, Saving(i));
      assert Is(t, c, Saving(i));
    }
  }

  lemma RemoveKeeps(s: State, id: SignInId)
    requires Inv(s) && id in s.all
    ensures Inv(RemoveFrom(s, id))
  {
    var t := RemoveFrom(s, id);
    SmallerOrSame(Live(t), Live(s));
    assert Creators(t) == Creators(s);
    forall i | i in t.all ensures KeptAt(t, i) {
      assert KeptAt(s, i);
    }
    forall i | i in t.all && t.all[i].inUse && !t.all[i].gone ensures HasSave(t, i) {
      assert HasSave(s, i);
      var c :| Is(s, c, Saving(i));
      assert Is(t, c, Saving(i));
    }
  }

  lemma ClearKeeps(s: State)
    requires Inv(s)
    ensures Inv(Do(s, Clear))
  {
    var t := Do(s, Clear);
    assert Live(t) == {};
    assert Creators(t) == Creators(s);
    forall i | i in t.all ensures KeptAt(t, i) && t.all[i].gone {
      assert KeptAt(s, i);
    }
  }

  lemma CreatorsGrow(s: State, t: State, c: CallId)
    requires t.calls == s.calls[c := Creating] && c !in s.calls
    ensures |Creators(t)| == |Creators(s)| + 1
  {
    assert Creators(t) == Creators(s) + {c};
  }

  lemma CreatorsShrink(s: State, t: State, c: CallId)
    requires t.calls == s.calls[c := Ended] && Is(s, c, Creating)
    ensures |Creators(t)| == |Creators(s)| - 1
  {
    assert Creators(s) == Creators(t) + {c};
  }

  lemma CreatorsStay(s: State, t: State, c: CallId, p: Phase)
    requires t.calls == s.calls[c := p] && p != Creating && !Is(s, c, Creating)
    ensures Creators(t) == Creators(s)
  {
  }

  /** A call moved, not into or out of a save, and nothing else changed. */
  lemma MoveKeepsUse(s: State, t: State, c: CallId, p: Phase)
    requires UsedOnce(s) && t.all == s.all && t.calls == s.calls[c := p] && (p == Creating || p == Ended)
    requires c !in s.calls || s.calls[c] == Creating
    ensures UsedOnce(t)
  {
    forall i | i in t.all && t.all[i].inUse && !t.all[i].gone ensures HasSave(t, i) {
      assert HasSave(s, i);
      var d :| Is(s, d, Saving(i));
      assert Is(t, d, Saving(i));
    }
  }

  lemma ReserveKeeps(s: State, c: CallId)
    requires Inv(s) && c !in s.calls
    ensures Inv(Do(s, Reserve(c)))
  {
    SweepKeeps(s);
    var t := Sweep(s);
    var u := Do(s, Reserve(c));
    if u.calls[c] == Creating {
      CreatorsGrow(t, u, c);
    } else {
      CreatorsStay(t, u, c, Ended);
    }
    MoveKeepsUse(t, u, c, u.calls[c]);
    assert Live(u) == Live(t);
    forall i | i in u.all ensures KeptAt(u, i) {
      assert KeptAt(t, i);
    }
  }

  lemma UnreserveKeeps(s: State, c: CallId)
    requires Inv(s) && Is(s, c, Creating)
    ensures Inv(Do(s, Unreserve(c)))
  {
    var t := Do(s, Unreserve(c));
    CreatorsShrink(s, t, c);
    MoveKeepsUse(s, t, c, Ended);
    assert Live(t) == Live(s);
    forall i | i in t.all ensures KeptAt(t, i) {
      assert KeptAt(s, i);
    }
  }

  lemma AddKeepsUse(s: State, t: State, id: SignInId)
    requires UsedOnce(s) && id !in s.all && id in t.all && t.all == s.all[id := t.all[id]] && t.calls == s.calls
    requires !t.all[id].inUse
    ensures UsedOnce(t)
  {
    forall i | i in t.all && t.all[i].inUse && !t.all[i].gone ensures HasSave(t, i) {
      assert HasSave(s, i);
      var d :| Is(s, d, Saving(i));
      assert Is(t, d, Saving(i));
    }
  }

  lemma AddKeepsBound(s: State, t: State, id: SignInId)
    requires id !in s.all && id in t.all && t.all == s.all[id := t.all[id]] && t.m == s.m + {id}
    ensures |Live(t)| <= |Live(s)| + 1
  {
    SmallerOrSame(Live(t), Live(s) + {id});
  }

  lemma AddKeeps(s: State, step: Step)
    requires Inv(s) && step.Add? && Enabled(s, step)
    ensures Inv(Do(s, step))
  {
    var t, id := Do(s, step), step.id;
    var mid := To(s, step.call, Ended);
    CreatorsShrink(s, t, step.call);
    MoveKeepsUse(s, mid, step.call, Ended);
    AddKeepsUse(mid, t, id);
    AddKeepsBound(s, t, id);
    forall i | i in t.all ensures KeptAt(t, i) {
      assert i != id ==> KeptAt(s, i);
    }
  }

  lemma TakeKeeps(s: State, c: CallId, id: SignInId)
    requires Inv(s) && c !in s.calls && id in s.all
    ensures Inv(Do(s, Take(c, id)))
  {
    var t := Do(s, Take(c, id));
    CreatorsStay(s, t, c, t.calls[c]);
    assert Live(t) == Live(s);
    forall i | i in t.all ensures KeptAt(t, i) {
      assert KeptAt(s, i);
    }
    forall i | i in t.all && t.all[i].inUse && !t.all[i].gone ensures HasSave(t, i) {
      if i == id && CanTake(s.all[id]) {
        assert Is(t, c, Saving(id));
      } else {
        assert HasSave(s, i);
        var d :| Is(s, d, Saving(i));
        assert Is(t, d, Saving(i));
      }
    }
  }

  lemma ConsumeKeeps(s: State, c: CallId)
    requires Inv(s) && Saves(s, c) && s.calls[c].id in s.all
    ensures Inv(Do(s, Consume(c)))
  {
    var id := s.calls[c].id;
    RemoveKeeps(s, id);
    var u, t := RemoveFrom(s, id), Do(s, Consume(c));
    CreatorsStay(u, t, c, Saved(id));
    assert Live(t) == Live(u);
    forall i | i in t.all ensures KeptAt(t, i) {
      assert KeptAt(u, i);
    }
    forall i | i in t.all && t.all[i].inUse && !t.all[i].gone ensures HasSave(t, i) {
      assert HasSave(u, i);
      var d :| Is(u, d, Saving(i));
      assert Is(t, d, Saving(i));
    }
  }

  lemma ReleaseKeeps(s: State, c: CallId)
    requires Inv(s) && Saves(s, c) && s.calls[c].id in s.all
    ensures Inv(Do(s, Release(c)))
  {
    var id, t := s.calls[c].id, Do(s, Release(c));
    CreatorsStay(s, t, c, Ended);
    assert Live(t) == Live(s);
    forall i | i in t.all ensures KeptAt(t, i) {
      assert KeptAt(s, i);
    }
    forall i | i in t.all && t.all[i].inUse && !t.all[i].gone ensures HasSave(t, i) {
      assert HasSave(s, i);
      var d :| Is(s, d, Saving(i));
      assert Is(t, d, Saving(i));
    }
  }

  lemma InvKept(s: State, step: Step)
    requires Inv(s) && Enabled(s, step)
    ensures Inv(Do(s, step))
  {
    match step
    case Pass(_) => PassKeeps(s, Do(s, step));
    case Look => SweepKeeps(s);
    case Reserve(c) => ReserveKeeps(s, c);
    case Unreserve(c) => UnreserveKeeps(s, c);
    case Add(_, _, _, _, _) => AddKeeps(s, step);
    case Check(id, answer) =>
      assert KeptAt(s, id);
      WithKeeps(s, id, Answered(s.all[id], answer, s.now));
    case Refetch(id, res) =>
      assert KeptAt(s, id);
      if !s.all[id].gone && !s.all[id].expired {
        WithKeeps(s, id, s.all[id].(resources := res, resourcesAt := Some(s.now)));
      }
    case Remove(id) => RemoveKeeps(s, id);
    case Clear => ClearKeeps(s);
    case Take(c, id) => TakeKeeps(s, c, id);
    case Consume(c) => ConsumeKeeps(s, c);
    case Release(c) => ReleaseKeeps(s, c);
  }

  lemma PassKeeps(s: State, t: State)
    requires Inv(s) && t == s.(now := t.now)
    ensures Inv(t)
  {
    assert Live(t) == Live(s) && Creators(t) == Creators(s);
    forall i | i in t.all ensures KeptAt(t, i) {
      assert KeptAt(s, i);
    }
    forall i | i in t.all && t.all[i].inUse && !t.all[i].gone ensures HasSave(t, i) {
      assert HasSave(s, i);
      var d :| Is(s, d, Saving(i));
      assert Is(t, d, Saving(i));
    }
  }

  // ---- Runs ----

  /** steps lead from s to t. */
  ghost predicate Run(s: State, steps: seq<Step>, t: State)
    decreases |steps|
  {
    if steps == [] then s == t else Enabled(s, steps[0]) && Run(Do(s, steps[0]), steps[1..], t)
  }

  ghost predicate Fresh(s: State) {
    s.m == {} && s.all == map[] && s.reserved == 0 && s.calls == map[]
  }

  lemma FreshInv(s: State)
    requires Fresh(s)
    ensures Inv(s)
  {
    assert Creators(s) == {} && Live(s) == {};
  }

  lemma {:induction false} RunKeepsInv(s: State, steps: seq<Step>, t: State)
    requires Inv(s) && Run(s, steps, t)
    ensures Inv(t)
    decreases |steps|
  {
    if steps != [] {
      InvKept(s, steps[0]);
      RunKeepsInv(Do(s, steps[0]), steps[1..], t);
    }
  }

  lemma {:induction false} GoneStaysGone(s: State, steps: seq<Step>, t: State, id: SignInId)
    requires Run(s, steps, t) && id in s.all && s.all[id].gone
    ensures id in t.all && t.all[id].gone
    decreases |steps|
  {
    if steps != [] {
      GoneStaysGone(Do(s, steps[0]), steps[1..], t, id);
    }
  }

  /** In every reachable state: live and reserved sign-ins together never exceed the limit, an expired or
      removed one holds no secret, whatever plex.tv answered and when, and no two saves hold one sign-in. */
  lemma SignInsSafe(s: State, steps: seq<Step>, t: State)
    requires Fresh(s) && Run(s, steps, t)
    ensures t.reserved >= 0 && |Live(t)| + t.reserved <= MAX_LIVE
    ensures forall id :: id in t.all && (t.all[id].expired || t.all[id].gone) ==> NoSecrets(t.all[id])
    ensures forall c, d, id :: Is(t, c, Saving(id)) && Is(t, d, Saving(id)) ==> c == d
    ensures forall id :: id in t.m ==> id in t.all && (t.all[id].inUse <==> HasSave(t, id))
  {
    FreshInv(s);
    RunKeepsInv(s, steps, t);
    forall id | id in t.all ensures KeptAt(t, id) {
    }
    forall c, d, id | Is(t, c, Saving(id)) && Is(t, d, Saving(id)) ensures c == d {
      assert Saves(t, c) && Saves(t, d);
    }
    forall id | id in t.m ensures t.all[id].inUse <==> HasSave(t, id) {
      assert KeptAt(t, id);
      if HasSave(t, id) {
        var c :| Is(t, c, Saving(id));
        assert Saves(t, c);
      }
    }
  }

  /** Once a save consumed a sign-in, no later request can reserve it. */
  lemma ConsumedOnce(s: State, first: seq<Step>, mid: State, c: CallId, later: seq<Step>, t: State, d: CallId,
      id: SignInId)
    requires Fresh(s) && Run(s, first, mid) && Is(mid, c, Saved(id))
    requires Run(mid, later, t) && Enabled(t, Take(d, id))
    ensures !CanTake(t.all[id]) && Is(Do(t, Take(d, id)), d, Ended) && NoSecrets(t.all[id])
  {
    FreshInv(s);
    RunKeepsInv(s, first, mid);
    assert id in mid.all && mid.all[id].gone;
    GoneStaysGone(mid, later, t, id);
    RunKeepsInv(mid, later, t);
    assert KeptAt(t, id);
  }

  // ---- When a sign-in ends, and where its token comes from ----

  /** What a sweep does: a sign-in past its time expires and keeps no secret, an expired one past its own is
      forgotten, and every other one stays as it is. */
  lemma SweepExact(s: State, id: SignInId)
    requires Inv(s) && id in s.m
    ensures var si, t := s.all[id], Sweep(s);
      && id in t.all
      && (id !in t.m <==> si.expired && s.now >= si.forgetAt)
      && (t.all[id].expired <==> si.expired || s.now >= si.expires)
      && (t.all[id].expired ==> NoSecrets(t.all[id]))
      && (t.all[id].expired && !si.expired ==> t.all[id].forgetAt == s.now + FORGET_AFTER)
      && (id in t.m && (t.all[id].expired <==> si.expired) ==> t.all[id] == si)
  {
    assert KeptAt(s, id);
  }

  /** How a step can end sign-in id: it is removed or consumed, the registry is cleared, plex.tv does not know its
      PIN, or a sweep finds it past its time. */
  predicate Ends(s: State, step: Step, id: SignInId)
    requires id in s.all && Enabled(s, step)
  {
    match step
    case Look => s.now >= s.all[id].expires
    case Reserve(_) => s.now >= s.all[id].expires
    case Check(i, answer) => i == id && answer.Unknown?
    case Remove(i) => i == id
    case Clear => true
    case Consume(c) => s.calls[c].id == id
    case _ => false
  }

  /** A live sign-in ends in exactly these ways. */
  lemma EndsIff(s: State, step: Step, id: SignInId)
    requires Inv(s) && Enabled(s, step) && id in Live(s)
    ensures id in Live(Do(s, step)) <==> !Ends(s, step, id)
  {
    assert KeptAt(s, id);
  }

  /** plex.tv's answer that the PIN of id was approved, with this token. */
  predicate Approves(step: Step, id: SignInId, token: Token) {
    step.Check? && step.id == id && step.answer.Approved? && step.answer.token == token
  }

  /** A step gives a live sign-in a token exactly by plex.tv's approval, for CLAIMED_TTL from then on; otherwise it
      keeps the one it has. */
  lemma TokenAfterStep(s: State, step: Step, id: SignInId, token: Token)
    requires Inv(s) && Enabled(s, step) && id in Live(s) && id in Live(Do(s, step))
    ensures var si, after := s.all[id], Do(s, step).all[id];
      && (Approves(step, id, token) ==>
          && after.claimed && after.token == Some(token) && after.expires == s.now + CLAIMED_TTL
          && (match step.answer.resources
              case Some(res) => after.resources == res && after.resourcesAt == Some(s.now)
              case None => after.resources == si.resources && after.resourcesAt == si.resourcesAt))
      && (!(step.Check? && step.id == id && step.answer.Approved?) ==>
          after.claimed == si.claimed && after.token == si.token && after.expires == si.expires)
  {
  }

  /** In every run a token that a sign-in holds is one that plex.tv gave when it approved its PIN. */
  lemma {:induction false} TokensAreApproved(s: State, steps: seq<Step>, t: State, id: SignInId, token: Token)
    requires Run(s, steps, t) && id in t.all && t.all[id].token == Some(token)
    requires id in s.all ==> s.all[id].token != Some(token)
    ensures exists step :: step in steps && Approves(step, id, token)
    decreases |steps|
  {
    var next := Do(s, steps[0]);
    assert steps == [steps[0]] + steps[1..];
    if id in next.all && next.all[id].token == Some(token) {
      assert Approves(steps[0], id, token);
    } else {
      TokensAreApproved(next, steps[1..], t, id, token);
    }
  }

  /** No sign-in has more time left than its kind gets. */
  ghost predicate InTime(s: State) {
    forall id :: id in s.all && !s.all[id].expired ==>
      s.all[id].expires <= s.now + if s.all[id].claimed then CLAIMED_TTL else PENDING_TTL
  }

  lemma InTimeKept(s: State, step: Step)
    requires InTime(s) && Enabled(s, step)
    ensures InTime(Do(s, step))
  {
    var t := Do(s, step);
    forall id | id in t.all && !t.all[id].expired
      ensures t.all[id].expires <= t.now + if t.all[id].claimed then CLAIMED_TTL else PENDING_TTL
    {
      if id in s.all {
        assert !s.all[id].expired;
      }
    }
  }

  lemma {:induction false} RunInTime(s: State, steps: seq<Step>, t: State)
    requires InTime(s) && Run(s, steps, t)
    ensures InTime(t)
    decreases |steps|
  {
    if steps != [] {
      InTimeKept(s, steps[0]);
      RunInTime(Do(s, steps[0]), steps[1..], t);
    }
  }

  // ---- The code, with other requests running between its sections ----

  /** Something other than the sections of call c. */
  method OthersFrom(s: State, c: CallId) returns (t: State)
    requires Inv(s)
    ensures Inv(t) && SameCall(s, t, c) && SameOwners(s, t)
  {
    t := s;
    var n: nat := *;
    while n > 0
      invariant Inv(t) && SameCall(s, t, c) && SameOwners(s, t)
    {
      n := n - 1;
      var step: Step := *;
      if Enabled(t, step) && !OfCall(step, c) {
        InvKept(t, step);
        OwnersStay(t, step);
        t := Do(t, step);
      }
    }
  }

  predicate SameCall(s: State, t: State, c: CallId) {
    (c in s.calls <==> c in t.calls) && (c in s.calls ==> t.calls[c] == s.calls[c])
  }

  /** No sign-in goes, and each stays its creator's. */
  predicate SameOwners(s: State, t: State) {
    forall id :: id in s.all ==> id in t.all && t.all[id].principal == s.all[id].principal
  }

  lemma OwnersStay(s: State, step: Step)
    requires Enabled(s, step)
    ensures SameOwners(s, Do(s, step))
  {
  }

  predicate OfCall(step: Step, c: CallId) {
    match step
    case Reserve(d) => c == d
    case Unreserve(d) => c == d
    case Add(d, _, _, _, _) => c == d
    case Take(d, _) => c == d
    case Consume(d) => c == d
    case Release(d) => c == d
    case _ => false
  }

  /** sweepLocked over the registry's map. */
  method SweepAll(s: State) returns (t: State)
    requires Inv(s)
    ensures t == Sweep(s)
  {
    forall i | i in s.m ensures i in s.all && !s.all[i].gone {
      assert KeptAt(s, i);
    }
    var all, m := SweepEach(s.m, s.all, s.now);
    t := s.(all := all, m := m);
    assert t.all == Sweep(s).all;
    assert t.m == Sweep(s).m;
  }

  method SweepEach(ids: set<SignInId>, before: map<SignInId, SignIn>, now: Time)
    returns (all: map<SignInId, SignIn>, m: set<SignInId>)
    requires ids <= before.Keys
    ensures all.Keys == before.Keys
    ensures forall i :: i in before ==> all[i] == if i in ids then SweptOne(before[i], now) else before[i]
    ensures forall i :: i in m <==> i in ids && !SweptOne(before[i], now).gone
  {
    var rest := ids;
    all, m := before, ids;
    while rest != {}
      invariant rest <= ids && all.Keys == before.Keys
      invariant forall i :: i in before ==>
        all[i] == if i in ids && i !in rest then SweptOne(before[i], now) else before[i]
      invariant forall i :: i in m <==> i in ids && (i in rest || !SweptOne(before[i], now).gone)
      decreases rest
    {
      var i :| i in rest;
      rest := rest - {i};
      var si := SweepOne(all[i], now);
      all := all[i := si];
      if si.gone {
        m := m - {i};
      }
    }
  }

  method Apply(si: SignIn, answer: Answer, now: Time) returns (r: SignIn)
    requires !si.gone && !si.expired
    ensures r == Answered(si, answer, now)
  {
    r := si;
    match answer
    case Unknown =>
      r := Expired(si, now);
    case NoAnswer =>
    case Waiting =>
    case Approved(token, res) =>
      r := si.(claimed := true, token := Some(token), expires := now + CLAIMED_TTL);
      if res.Some? {
        r := r.(resources := res.value, resourcesAt := Some(now));
      }
  }

  method SweepOne(si: SignIn, now: Time) returns (r: SignIn)
    ensures r == SweptOne(si, now)
  {
    r := si;
    if !si.expired && now >= si.expires {
      r := Expired(si, now);
    } else if si.expired && now >= si.forgetAt {
      r := si.(gone := true);
    }
  }

  /** The server of a list with this id. */
  function FindServer(res: seq<Resource>, server: string): Option<Resource> {
    if res == [] then None else if res[0].server == server then Some(res[0]) else FindServer(res[1..], server)
  }

  /** The token a sign-in gives for a server: the server's own, or the account's for an owned server when
      the request asks for it. */
  function TokenFor(si: SignIn, server: string, useAccount: bool): Option<Token> {
    match FindServer(si.resources, server)
    case None => None
    case Some(r) =>
      if r.token.Some? then r.token
      else if r.owned && useAccount then si.token
      else None
  }

  /** The k-th server is the first of the list with this id. */
  predicate FirstListed(res: seq<Resource>, server: string, k: nat) {
    k < |res| && res[k].server == server && forall j :: 0 <= j < k ==> res[j].server != server
  }

  /** The token is that of the first server listed with this id; or, when it has none and the account owns it and
      the request allows it, the account's. */
  ghost predicate Gives(si: SignIn, server: string, useAccount: bool, token: Token) {
    exists k: nat :: FirstListed(si.resources, server, k) &&
      (si.resources[k].token == Some(token) ||
       (si.resources[k].token.None? && si.resources[k].owned && useAccount && si.token == Some(token)))
  }

  lemma {:induction false} FoundIsFirst(res: seq<Resource>, server: string, k: nat)
    requires FirstListed(res, server, k)
    ensures FindServer(res, server) == Some(res[k])
  {
    if k > 0 {
      assert res[0].server != server;
      FoundIsFirst(res[1..], server, k - 1);
    }
  }

  lemma {:induction false} FirstIsThere(res: seq<Resource>, server: string) returns (k: nat)
    requires FindServer(res, server).Some?
    ensures FirstListed(res, server, k)
  {
    k := 0;
    if res[0].server != server {
      k := FirstIsThere(res[1..], server);
      k := k + 1;
    }
  }

  lemma TokenForIff(si: SignIn, server: string, useAccount: bool, token: Token)
    ensures TokenFor(si, server, useAccount) == Some(token) <==> Gives(si, server, useAccount, token)
  {
    if FindServer(si.resources, server).Some? {
      var k := FirstIsThere(si.resources, server);
      FoundIsFirst(si.resources, server, k);
    }
    if Gives(si, server, useAccount, token) {
      var k: nat :| FirstListed(si.resources, server, k) &&
        (si.resources[k].token == Some(token) ||
         (si.resources[k].token.None? && si.resources[k].owned && useAccount && si.token == Some(token)));
      FoundIsFirst(si.resources, server, k);
    }
  }

  /** A save with sign-in id is refused in s: it is not the principal's, not approved, over, in use, or gives no
      token for the server. */
  ghost predicate Unusable(s: State, id: SignInId, server: string, useAccount: bool, principal: Principal) {
    || id !in s.all || s.all[id].principal != principal || !CanTake(s.all[id])
    || forall token :: !Gives(s.all[id], server, useAccount, token)
  }

  predicate HasResources(si: SignIn) {
    si.claimed && !si.gone && !si.expired
  }

  /** The list of sign-in id was read within the last RESOURCES_EVERY. */
  predicate IsRecent(s: State, id: SignInId)
    requires id in s.all
  {
    s.all[id].resourcesAt.Some? && s.now < s.all[id].resourcesAt.value + RESOURCES_EVERY
  }

  class Registry {
    var s: State

    ghost predicate Valid()
      reads this
    {
      Inv(s)
    }

    constructor (now: Time)
      ensures Valid() && Fresh(s)
    {
      s := State({}, map[], 0, now, map[]);
      new;
      FreshInv(s);
    }

    method Others(c: CallId)
      requires Valid()
      modifies this
      ensures Valid() && SameCall(old(s), s, c) && SameOwners(old(s), s)
    {
      s := OthersFrom(s, c);
    }

    method SweepLocked()
      requires Valid()
      modifies this
      ensures Valid() && s == Sweep(old(s))
    {
      SweepKeeps(s);
      s := SweepAll(s);
    }

    /** reserve. */
    method ReserveSlot(c: CallId) returns (ok: bool)
      requires Valid() && c !in s.calls
      modifies this
      ensures Valid() && s == Do(old(s), Reserve(c)) && (ok <==> Is(s, c, Creating))
    {
      InvKept(s, Reserve(c));
      SweepLocked();
      ok := |Live(s)| + s.reserved < MAX_LIVE;
      s := if ok then To(s.(reserved := s.reserved + 1), c, Creating) else To(s, c, Ended);
    }

    /** add. */
    method AddSignIn(c: CallId, id: SignInId, principal: Principal, code: Token, pinExpires: Option<Time>)
      requires Valid() && Is(s, c, Creating) && id !in s.all
      modifies this
      ensures Valid() && s == Do(old(s), Add(c, id, principal, code, pinExpires))
    {
      InvKept(s, Add(c, id, principal, code, pinExpires));
      var expires := s.now + PENDING_TTL;
      if pinExpires.Some? && pinExpires.value < expires {
        expires := pinExpires.value;
      }
      var si := SignIn(principal, Some(code), expires, false, None, [], None, false, 0, false, false);
      s := s.(all := s.all[id := si], m := s.m + {id}, reserved := s.reserved - 1, calls := s.calls[c := Ended]);
    }

    /** createPlexSignIn, when plex.tv gives a PIN or (None) does not: a reservation becomes a sign-in of its
        creator, not yet approved, or is given back.
        Refused at once when the limit is reached. */
    method CreateSignIn(c: CallId, id: SignInId, principal: Principal, answer: Option<(Token, Option<Time>)>)
      returns (ok: bool)
      requires Valid() && c !in s.calls && id !in s.all
      modifies this
      ensures Valid() && Is(s, c, Ended)
      ensures ok ==> id in Live(s) && s.all[id].principal == principal && !s.all[id].claimed && !s.all[id].inUse
      ensures ok ==> answer.Some? && s.all[id].code == Some(answer.value.0) && s.all[id].token.None?
      ensures ok ==> s.all[id].expires <= s.now + PENDING_TTL
      ensures ok && answer.value.1.Some? ==> s.all[id].expires <= answer.value.1.value
      ensures ok && s.all[id].expires != s.now + PENDING_TTL ==> answer.value.1 == Some(s.all[id].expires)
      ensures |Live(Sweep(old(s)))| + old(s).reserved >= MAX_LIVE ==> !ok && s == To(Sweep(old(s)), c, Ended)
      ensures |Live(Sweep(old(s)))| + old(s).reserved < MAX_LIVE && answer.Some? ==> ok || id in s.all
    {
      ok := ReserveSlot(c);
      if !ok {
        return;
      }
      Others(c);
      if answer.None? || id in s.all {
        InvKept(s, Unreserve(c));
        s := To(s.(reserved := s.reserved - 1), c, Ended);
        return false;
      }
      AddSignIn(c, id, principal, answer.value.0, answer.value.1);
    }

    /** checkPlexSignIn: plex.tv answers while other requests run. Nobody is asked about a sign-in that is gone,
        expired or claimed, or was asked about just before (recent); otherwise asked is the state when the answer
        came. */
    method CheckSignIn(c: CallId, id: SignInId, recent: bool, answer: Answer) returns (ghost asked: Option<State>)
      requires Valid() && id in s.all && c !in s.calls
      modifies this
      ensures Valid() && id in s.all && c !in s.calls
      ensures asked.None? ==> s == Sweep(old(s))
      ensures asked.None? <==> Settled(Sweep(old(s)).all[id]) || recent
      ensures asked.Some? ==> id in asked.value.all && old(s).all.Keys <= asked.value.all.Keys
      ensures asked.Some? ==> s == Do(asked.value, Check(id, answer))
    {
      asked := None;
      SweepLocked();
      if s.all[id].gone || s.all[id].expired || s.all[id].claimed || recent {
        return;
      }
      Others(c);
      asked := Some(s);
      TakeAnswer(id, answer);
    }

    /** Its second section: the answer of plex.tv. */
    method TakeAnswer(id: SignInId, answer: Answer)
      requires Valid() && id in s.all
      modifies this
      ensures Valid() && s == Do(old(s), Check(id, answer))
    {
      InvKept(s, Check(id, answer));
      var si := s.all[id];
      if !si.gone && !si.expired {
        si := Apply(si, answer, s.now);
        s := With(s, id, si);
      }
    }

    /** claimedResources: the servers of a claimed sign-in, read again when the list is old; answer is what plex.tv
        then says. */
    method ClaimedResources(c: CallId, id: SignInId, answer: Option<seq<Resource>>)
      returns (res: Option<seq<Resource>>)
      requires Valid() && id in s.all && c !in s.calls
      modifies this
      ensures Valid() && id in s.all && c !in s.calls
      ensures res.Some? ==> !s.all[id].gone && !s.all[id].expired && s.all[id].resources == res.value
      ensures !HasResources(Sweep(old(s)).all[id]) ==> res.None? && s == Sweep(old(s))
      ensures HasResources(Sweep(old(s)).all[id]) && IsRecent(Sweep(old(s)), id) ==>
        s == Sweep(old(s)) && res == Some(s.all[id].resources)
      ensures HasResources(Sweep(old(s)).all[id]) && !IsRecent(Sweep(old(s)), id) && res.Some? && answer.Some? ==>
        res == answer && s.all[id].resourcesAt == Some(s.now)
      ensures HasResources(Sweep(old(s)).all[id]) && res.None? ==>
        s.all[id].gone || s.all[id].expired || (answer.None? && s.all[id].resourcesAt.None?)
    {
      SweepLocked();
      var si := s.all[id];
      if si.gone || si.expired || !si.claimed {
        return None;
      }
      if si.resourcesAt.Some? && s.now - si.resourcesAt.value < RESOURCES_EVERY {
        return Some(si.resources);
      }
      Others(c);
      si := s.all[id];
      if si.gone || si.expired {
        return None;
      }
      if !answer.Some? {
        return if si.resourcesAt.None? then None else Some(si.resources);
      }
      InvKept(s, Refetch(id, answer.value));
      s := With(s, id, si.(resources := answer.value, resourcesAt := Some(s.now)));
      return Some(answer.value);
    }

    /** resolveSignInToken, for a save: the token, with the sign-in now in use by call c alone. from is the
        sign-in as it was when the token was read; matches says whether the URL answers as the server. */
    method ResolveToken(c: CallId, id: SignInId, server: string, useAccount: bool, principal: Principal, matches: bool)
      returns (token: Option<Token>, ghost from: Option<SignIn>)
      requires Valid() && c !in s.calls
      modifies this
      ensures Valid()
      ensures token.Some? ==> Is(s, c, Saving(id)) && id in s.all
      ensures token.None? ==> c !in s.calls || Is(s, c, Ended)
      ensures token.Some? ==> matches && from.Some? && Gives(from.value, server, useAccount, token.value)
      ensures token.Some? ==> from.value.claimed && !from.value.expired && !from.value.gone
      ensures token.Some? ==> from.value.principal == principal
      ensures token.None? ==> !matches || Unusable(s, id, server, useAccount, principal)
    {
      token, from := None, None;
      SweepLocked();
      if id !in s.m || s.all[id].principal != principal {
        assert id in s.all ==> KeptAt(s, id);
        return;
      }
      Others(c);
      var si := s.all[id];
      if !si.claimed || si.expired || si.gone || si.inUse {
        return;
      }
      var found := TokenFor(si, server, useAccount);
      forall t ensures found == Some(t) <==> Gives(si, server, useAccount, t) {
        TokenForIff(si, server, useAccount, t);
      }
      if found.None? {
        return;
      }
      Others(c);
      if !matches {
        return;
      }
      InvKept(s, Take(c, id));
      if !CanTake(s.all[id]) {
        s := To(s, c, Ended);
        return;
      }
      s := To(With(s, id, s.all[id].(inUse := true)), c, Saving(id));
      return found, Some(si);
    }

    /** A create or update with a sign-in: consumed when it saved (works), released otherwise. */
    method SaveWith(c: CallId, id: SignInId, server: string, useAccount: bool, principal: Principal, matches: bool,
        works: bool)
      returns (saved: bool)
      requires Valid() && c !in s.calls
      modifies this
      ensures Valid()
      ensures if saved then Is(s, c, Saved(id)) && id in s.all && s.all[id].gone else c !in s.calls || Is(s, c, Ended)
      ensures saved ==> matches && works
      ensures !saved ==> !matches || !works || Unusable(s, id, server, useAccount, principal)
    {
      var token;
      ghost var from;
      token, from := ResolveToken(c, id, server, useAccount, principal, matches);
      if token.None? {
        return false;
      }
      Others(c);
      saved := works;
      if saved {
        InvKept(s, Consume(c));
        s := To(RemoveFrom(s, id), c, Saved(id));
      } else {
        InvKept(s, Release(c));
        s := To(With(s, id, s.all[id].(inUse := false)), c, Ended);
      }
    }

    /** deletePlexSignIn. */
    method Cancel(id: SignInId, principal: Principal)
      requires Valid()
      modifies this
      ensures Valid() && s.all.Keys == old(s).all.Keys
      ensures id in old(s).all && old(s).all[id].principal == principal ==> s.all[id].gone && NoSecrets(s.all[id])
      ensures var swept := Sweep(old(s));
        s == if id in swept.m && swept.all[id].principal == principal then Do(swept, Remove(id)) else swept
    {
      SweepLocked();
      if id in s.m && s.all[id].principal == principal {
        InvKept(s, Remove(id));
        s := RemoveFrom(s, id);
      }
      assert id in s.all ==> KeptAt(s, id);
    }
  }
}
