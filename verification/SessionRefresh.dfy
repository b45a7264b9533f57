/**
  The single-flight token refresh. Any number of callers run `refresh_if_needed` step by step over one
  session store; a caller that finds a refresh in flight waits for that refresh's outcome, holding the slot
  lock while it waits. Setting and clearing the session happen under the mutation lock, and a clear that
  holds it waits for the slot lock as well. Clocks and the network appear as choices of the environment.
 */
module SessionRefresh {
  import opened Wrappers

  datatype Payload = Payload(userId: string, accessToken: string, refreshToken: string, expiresAt: int)

  datatype Session = Session(payload: Payload, updatedAt: nat)

  datatype Outcome =
    | NoSession
    | SessionGone
    | Fresh(session: Session, refreshed: bool)
    | CoolingDown
    | RefreshFailed

  // ---------------------------------------------------------------- the store

  datatype MutationKind = Noop | CredentialsRefreshed | UserChanged | Cleared

  datatype Store = Store(session: Option<Session>, lastFailed: bool, slot: Option<nat>, counter: nat)

  /** `set_session`: equal credentials change nothing, anything else gets the next watermark. */
  function SetTo(st: Store, p: Payload): (Store, MutationKind) {
    if st.session.Some? && st.session.value.payload == p then (st, Noop)
    else
      (st.(session := Some(Session(p, st.counter)), counter := st.counter + 1),
       if st.session.Some? && st.session.value.payload.userId == p.userId then CredentialsRefreshed else UserChanged)
  }

  /** What `clear_session` does before it needs the slot lock. */
  function Dropped(st: Store): Store { st.(session := None, lastFailed := false) }

  /** `clear_session`, nobody coming in between: it also empties the in-flight slot. */
  function ClearedTo(st: Store): (Store, MutationKind) {
    (Dropped(st).(slot := None), if st.session.Some? then Cleared else Noop)
  }

  class SessionStore {
    var session: Option<Session>
    var lastFailed: bool
    var slot: Option<nat>
    var counter: nat

    constructor ()
      ensures View() == Store(None, false, None, 1)
    {
      session, lastFailed, slot, counter := None, false, None, 1;
    }

    function View(): Store
      reads this
    {
      Store(session, lastFailed, slot, counter)
    }

    method SetSession(p: Payload) returns (kind: MutationKind, updatedAt: nat)
      modifies this
      ensures (View(), kind) == SetTo(old(View()), p)
      ensures session.Some? && session.value.payload == p && updatedAt == session.value.updatedAt
    {
      if session.Some? && session.value.payload == p {
        return Noop, session.value.updatedAt;
      }
      kind := if session.Some? && session.value.payload.userId == p.userId then CredentialsRefreshed else UserChanged;
      updatedAt := counter;
      counter := counter + 1;
      session := Some(Session(p, updatedAt));
    }

    method ClearSession() returns (kind: MutationKind)
      modifies this
      ensures (View(), kind) == ClearedTo(old(View()))
    {
      var hadSession := session.Some?;
      session := None;
      lastFailed := false;
      slot := None;
      kind := if hadSession then Cleared else Noop;
    }
  }

  // ---------------------------------------------------------------- callers

  /** Where a caller stands; `channel` and `refresh` name the refresh it leads, waits for or came back from. */
  datatype Caller =
    | CheckingSlot(force: bool)
    | Waiting(channel: nat)
    | ReadingSession(force: bool)
    | CheckingCooldown(force: bool)
    | ReadingAgain(force: bool)
    | Claiming(force: bool, current: Session)
    | Refreshing(channel: nat, current: Session)
    | Setting(channel: nat, payload: Payload)
    | ResettingCooldown(channel: nat, payload: Payload, refreshed: bool)
    | ReadingBack(channel: nat, payload: Payload, refreshed: bool)
    | Dropping(channel: nat)
    | ClearingSlot(channel: nat)
    | Sending(channel: nat, result: Outcome)
    | Releasing(channel: nat, result: Outcome)
    | Returned(result: Outcome, refresh: Option<nat>)

  predicate Leads(c: Caller) {
    || c.Refreshing? || c.Setting? || c.ResettingCooldown? || c.ReadingBack? || c.Dropping? || c.ClearingSlot?
    || c.Sending? || c.Releasing?
  }

  /** Who holds the mutation lock across an await: a leader, or a sign-out, on its way to empty the slot. */
  datatype Mutator = Leader(caller: nat) | SigningOut

  /**
    `lock` is the caller holding the slot lock across an await, and `mutation` who holds the mutation lock
    across one; `posted` is what a channel holds for its receivers; `results` records, per channel, the
    outcome its leader returns.
   */
  datatype World = World(
    store: Store, lock: Option<nat>, mutation: Option<Mutator>, callers: map<nat, Caller>, nextChannel: nat,
    posted: map<nat, Outcome>, results: map<nat, Outcome>)

  const START := World(Store(None, false, None, 1), None, None, map[], 0, map[], map[])

  datatype Event =
    | Enter(caller: nat, force: bool)
    | CheckSlot(caller: nat)
    | Wake(caller: nat)
    | ReadSession(caller: nat, stillValid: bool)
    | CheckCooldown(caller: nat, cooling: bool)
    | ReadAgain(caller: nat, stillValid: bool)
    | Claim(caller: nat)
    | RefreshArrives(caller: nat, payload: Payload)
    | SetFresh(caller: nat)
    | RefreshFails(caller: nat)
    | FailsPermanently(caller: nat)
    | DropSession(caller: nat)
    | ClearSlot(caller: nat)
    | ResetCooldown(caller: nat)
    | ReadBack(caller: nat)
    | Send(caller: nat)
    | Release(caller: nat)
    | ExternalSet(payload: Payload)
    | SignOutBegins
    | SignOutEnds

  function At(w: World, c: nat): Option<Caller> { if c in w.callers then Some(w.callers[c]) else None }

  predicate Can(w: World, e: Event) {
    match e
    case Enter(c, _) => c !in w.callers
    case CheckSlot(c) => At(w, c).Some? && w.callers[c].CheckingSlot? && w.lock.None?
    case Wake(c) => At(w, c).Some? && w.callers[c].Waiting? && w.callers[c].channel in w.posted
    case ReadSession(c, _) => At(w, c).Some? && w.callers[c].ReadingSession?
    case CheckCooldown(c, cooling) =>
      At(w, c).Some? && w.callers[c].CheckingCooldown? && (cooling ==> w.store.lastFailed)
    case ReadAgain(c, _) => At(w, c).Some? && w.callers[c].ReadingAgain?
    case Claim(c) => At(w, c).Some? && w.callers[c].Claiming? && w.lock.None?
    case RefreshArrives(c, _) => At(w, c).Some? && w.callers[c].Refreshing?
    case SetFresh(c) => At(w, c).Some? && w.callers[c].Setting? && w.mutation.None?
    case RefreshFails(c) => At(w, c).Some? && w.callers[c].Refreshing?
    case FailsPermanently(c) => At(w, c).Some? && w.callers[c].Refreshing?
    case DropSession(c) => At(w, c).Some? && w.callers[c].Dropping? && w.mutation.None?
    case ClearSlot(c) => At(w, c).Some? && w.callers[c].ClearingSlot? && w.lock.None?
    case ResetCooldown(c) => At(w, c).Some? && w.callers[c].ResettingCooldown?
    case ReadBack(c) => At(w, c).Some? && w.callers[c].ReadingBack?
    case Send(c) => At(w, c).Some? && w.callers[c].Sending?
    case Release(c) => At(w, c).Some? && w.callers[c].Releasing? && w.lock.None?
    case ExternalSet(_) => w.mutation.None?
    case SignOutBegins => w.mutation.None?
    case SignOutEnds => w.mutation == Some(SigningOut) && w.lock.None?
  }

  predicate HasReceiver(w: World, channel: nat) {
    exists c :: c in w.callers && w.callers[c] == Waiting(channel)
  }

  function Move(w: World, c: nat, to: Caller): World { w.(callers := w.callers[c := to]) }

  function Step(w: World, e: Event): World
    requires Can(w, e)
  {
    match e
    case Enter(c, force) => Move(w, c, CheckingSlot(force))
    case CheckSlot(c) =>
      if w.store.slot.Some? then Move(w, c, Waiting(w.store.slot.value)).(lock := Some(c))
      else Move(w, c, ReadingSession(w.callers[c].force))
    case Wake(c) =>
      var channel := w.callers[c].channel;
      Move(w, c, Returned(w.posted[channel], Some(channel))).(lock := None)
    case ReadSession(c, stillValid) =>
      if w.store.session.None? then Move(w, c, Returned(NoSession, None))
      else if !w.callers[c].force && stillValid then Move(w, c, Returned(Fresh(w.store.session.value, false), None))
      else Move(w, c, CheckingCooldown(w.callers[c].force))
    case CheckCooldown(c, cooling) =>
      if cooling then Move(w, c, Returned(CoolingDown, None)) else Move(w, c, ReadingAgain(w.callers[c].force))
    case ReadAgain(c, stillValid) =>
      if w.store.session.None? then Move(w, c, Returned(SessionGone, None))
      else if !w.callers[c].force && stillValid then Move(w, c, Returned(Fresh(w.store.session.value, false), None))
      else Move(w, c, Claiming(w.callers[c].force, w.store.session.value))
    case Claim(c) =>
      if w.store.slot.Some? then Move(w, c, CheckingSlot(w.callers[c].force))
      else
        Move(w, c, Refreshing(w.nextChannel, w.callers[c].current)).(
          store := w.store.(slot := Some(w.nextChannel)), nextChannel := w.nextChannel + 1)
    case RefreshArrives(c, payload) => Move(w, c, Setting(w.callers[c].channel, payload))
    case SetFresh(c) =>
      var payload := w.callers[c].payload;
      var (store, kind) := SetTo(w.store, payload);
      Move(w, c, ResettingCooldown(w.callers[c].channel, payload, kind == CredentialsRefreshed)).(store := store)
    case RefreshFails(c) =>
      Move(w, c, Sending(w.callers[c].channel, RefreshFailed)).(store := w.store.(lastFailed := true))
    case FailsPermanently(c) => Move(w, c, Dropping(w.callers[c].channel))
    case DropSession(c) =>
      // `clear_session` has dropped the session and the cooldown; next it waits for the slot lock.
      Move(w, c, ClearingSlot(w.callers[c].channel)).(store := Dropped(w.store), mutation := Some(Leader(c)))
    case ClearSlot(c) =>
      Move(w, c, Sending(w.callers[c].channel, RefreshFailed)).(
        store := w.store.(slot := None), mutation := None)
    case ResetCooldown(c) =>
      var l := w.callers[c];
      Move(w, c, ReadingBack(l.channel, l.payload, l.refreshed)).(store := w.store.(lastFailed := false))
    case ReadBack(c) =>
      var l := w.callers[c];
      var session := if w.store.session.Some? then w.store.session.value else Session(l.payload, 0);
      Move(w, c, Sending(l.channel, Fresh(session, l.refreshed)))
    case Send(c) =>
      // A watch channel keeps a sent value only if somebody is subscribed at that moment.
      var l := w.callers[c];
      Move(w, c, Releasing(l.channel, l.result)).(
        results := w.results[l.channel := l.result],
        posted := if HasReceiver(w, l.channel) then w.posted[l.channel := l.result] else w.posted)
    case Release(c) =>
      Move(w, c, Returned(w.callers[c].result, Some(w.callers[c].channel))).(store := w.store.(slot := None))
    case ExternalSet(payload) => w.(store := SetTo(w.store, payload).0)
    case SignOutBegins => w.(store := Dropped(w.store), mutation := Some(SigningOut))
    case SignOutEnds => w.(store := w.store.(slot := None), mutation := None)
  }

  function TryRun(w: World, events: seq<Event>): Option<World>
    decreases |events|
  {
    if events == [] then Some(w)
    else if Can(w, events[0]) then TryRun(Step(w, events[0]), events[1..])
    else None
  }

  /** The end of a sign-out, or of a permanent failure, empties the slot. */
  predicate EmptiesSlot(e: Event) { e.SignOutEnds? || e.ClearSlot? }

  predicate LeavesSlotAlone(events: seq<Event>) { forall i :: 0 <= i < |events| ==> !EmptiesSlot(events[i]) }

  // ---------------------------------------------------------------- safety

  /** The slot names a channel exactly while one caller leads it, and no two callers lead. */
  ghost predicate SlotMatchesLeader(w: World) {
    && (forall c :: c in w.callers && Leads(w.callers[c]) ==>
          w.store.slot == Some(w.callers[c].channel) && w.callers[c].channel < w.nextChannel)
    && (forall c, d :: c in w.callers && d in w.callers && Leads(w.callers[c]) && Leads(w.callers[d]) ==> c == d)
  }

  /** Channels carry their leader's result and nothing else. */
  ghost predicate ChannelsMatchResults(w: World) {
    && (forall ch :: ch in w.posted ==> ch in w.results && w.posted[ch] == w.results[ch])
    && (forall ch :: ch in w.results ==> ch < w.nextChannel)
    && (forall c :: c in w.callers ==> CarriesItsResult(w.results, w.callers[c]))
  }

  /** A leader has a result once it has sent, and who came back from a refresh carries its result. */
  predicate CarriesItsResult(results: map<nat, Outcome>, c: Caller) {
    && (Leads(c) ==> (c.channel in results <==> c.Releasing?) && (c.Releasing? ==> results[c.channel] == c.result))
    && (c.Returned? && c.refresh.Some? ==> c.refresh.value in results && results[c.refresh.value] == c.result)
  }

  /** A waiter holds the slot lock, so there is at most one. */
  ghost predicate WaiterHoldsLock(w: World) {
    forall c :: c in w.callers && w.callers[c].Waiting? ==> w.lock == Some(c)
  }

  predicate WatermarkBelowCounter(w: World) {
    w.store.counter > 0 && (w.store.session.Some? ==> w.store.session.value.updatedAt < w.store.counter)
  }

  /** The mutation lock is held by a sign-out, or by the leader that has dropped the session. */
  ghost predicate ClearingHoldsMutation(w: World) {
    && (forall c :: c in w.callers && w.callers[c].ClearingSlot? ==> w.mutation == Some(Leader(c)))
    && (w.mutation.Some? && w.mutation.value.Leader? ==>
          w.mutation.value.caller in w.callers && w.callers[w.mutation.value.caller].ClearingSlot?)
  }

  ghost predicate Inv(w: World) {
    && SlotMatchesLeader(w) && ChannelsMatchResults(w) && WaiterHoldsLock(w) && ClearingHoldsMutation(w)
    && WatermarkBelowCounter(w)
  }

  /** A step of one of the callers, not one that comes from outside. */
  predicate IsCallerStep(e: Event) { !e.ExternalSet? && !e.SignOutBegins? && !e.SignOutEnds? }

  lemma StepKeepsSlot(w: World, e: Event)
    requires SlotMatchesLeader(w) && Can(w, e) && !EmptiesSlot(e)
    ensures SlotMatchesLeader(Step(w, e))
  {
    if e.Claim? {
      ClaimKeepsSlot(w, e.caller);
    } else if e.Release? {
      ReleaseKeepsSlot(w, e.caller);
    } else if IsCallerStep(e) {
      OthersStay(w, e);
      MoveKeepsSlot(w, e.caller, Step(w, e));
    }
  }

  lemma ClaimKeepsSlot(w: World, c: nat)
    requires SlotMatchesLeader(w) && Can(w, Claim(c))
    ensures SlotMatchesLeader(Step(w, Claim(c)))
  {
  }

  lemma ReleaseKeepsSlot(w: World, c: nat)
    requires SlotMatchesLeader(w) && Can(w, Release(c))
    ensures SlotMatchesLeader(Step(w, Release(c)))
  {
  }

  /** A caller's step moves nobody else, and goes on with the refresh it leads, if any. */
  lemma OthersStay(w: World, e: Event)
    requires Can(w, e) && IsCallerStep(e)
    ensures var after := Step(w, e);
            && e.caller in after.callers && after.callers == w.callers[e.caller := after.callers[e.caller]]
            && after.nextChannel >= w.nextChannel
            && (!e.Claim? && !e.Release? && !e.ClearSlot? ==>
                  && after.store.slot == w.store.slot && after.nextChannel == w.nextChannel
                  && (Leads(after.callers[e.caller]) ==>
                        && e.caller in w.callers && Leads(w.callers[e.caller])
                        && w.callers[e.caller].channel == after.callers[e.caller].channel))
  {
  }

  /** A caller that goes on leading the same refresh, or goes on not leading, leaves the slot truthful. */
  lemma MoveKeepsSlot(w: World, c: nat, after: World)
    requires SlotMatchesLeader(w)
    requires after.store.slot == w.store.slot && after.nextChannel == w.nextChannel
    requires c in after.callers && after.callers == w.callers[c := after.callers[c]]
    requires Leads(after.callers[c]) ==>
               c in w.callers && Leads(w.callers[c]) && w.callers[c].channel == after.callers[c].channel
    ensures SlotMatchesLeader(after)
  {
    assert forall d :: d in after.callers && d != c ==> d in w.callers && after.callers[d] == w.callers[d];
  }

  lemma StepKeepsChannels(w: World, e: Event)
    requires Inv(w) && Can(w, e)
    ensures ChannelsMatchResults(Step(w, e))
  {
    if e.Send? {
      SendKeepsChannels(w, e.caller);
    } else if IsCallerStep(e) {
      OthersStay(w, e);
      SameResults(w, e);
      MoverCarriesItsResult(w, e);
    }
  }

  lemma SameResults(w: World, e: Event)
    requires Can(w, e) && !e.Send?
    ensures Step(w, e).results == w.results && Step(w, e).posted == w.posted
  {
  }

  lemma SendKeepsChannels(w: World, c: nat)
    requires Inv(w) && Can(w, Send(c))
    ensures ChannelsMatchResults(Step(w, Send(c)))
  {
    var after := Step(w, Send(c));
    forall d | d in after.callers ensures CarriesItsResult(after.results, after.callers[d]) {
      assert CarriesItsResult(w.results, w.callers[d]);
    }
  }

  lemma MoverCarriesItsResult(w: World, e: Event)
    requires ChannelsMatchResults(w) && Can(w, e) && IsCallerStep(e) && !e.Send?
    ensures e.caller in Step(w, e).callers && CarriesItsResult(w.results, Step(w, e).callers[e.caller])
  {
    if e.caller in w.callers {
      assert CarriesItsResult(w.results, w.callers[e.caller]);
    }
  }

  lemma StepKeepsWaiter(w: World, e: Event)
    requires WaiterHoldsLock(w) && Can(w, e)
    ensures WaiterHoldsLock(Step(w, e))
  {
    if IsCallerStep(e) {
      OthersStay(w, e);
    }
  }

  lemma MutationStep(w: World, e: Event)
    requires Can(w, e) && IsCallerStep(e)
    ensures e.caller in Step(w, e).callers && (Step(w, e).callers[e.caller].ClearingSlot? <==> e.DropSession?)
    ensures (e.caller in w.callers && w.callers[e.caller].ClearingSlot?) <==> e.ClearSlot?
    ensures e.DropSession? ==> w.mutation.None? && Step(w, e).mutation == Some(Leader(e.caller))
    ensures e.ClearSlot? ==> Step(w, e).mutation.None?
    ensures !e.DropSession? && !e.ClearSlot? ==> Step(w, e).mutation == w.mutation
  {
  }

  lemma StepKeepsMutation(w: World, e: Event)
    requires ClearingHoldsMutation(w) && Can(w, e)
    ensures ClearingHoldsMutation(Step(w, e))
  {
    if IsCallerStep(e) {
      OthersStay(w, e);
      MutationStep(w, e);
    }
    if IsCallerStep(e) {
      OthersStay(w, e);
    }
  }

  lemma StepKeepsWatermark(w: World, e: Event)
    requires WatermarkBelowCounter(w) && Can(w, e)
    ensures WatermarkBelowCounter(Step(w, e)) && Step(w, e).store.counter >= w.store.counter
    ensures var after := Step(w, e).store.session;
            after.Some? ==> after == w.store.session || after.value.updatedAt >= w.store.counter
  {
  }

  lemma StepKeepsInv(w: World, e: Event)
    requires Inv(w) && Can(w, e) && !EmptiesSlot(e)
    ensures Inv(Step(w, e))
  {
    StepKeepsSlot(w, e);
    StepKeepsChannels(w, e);
    StepKeepsWaiter(w, e);
    StepKeepsMutation(w, e);
    StepKeepsWatermark(w, e);
  }

  lemma {:induction false} RunKeepsInv(w: World, events: seq<Event>)
    requires Inv(w) && TryRun(w, events).Some? && LeavesSlotAlone(events)
    ensures Inv(TryRun(w, events).value)
    decreases |events|
  {
    if events != [] {
      StepKeepsInv(w, events[0]);
      RunKeepsInv(Step(w, events[0]), events[1..]);
    }
  }

  /**
    Single flight: however callers interleave, while nothing empties the slot at most one of them is refreshing, and
    all callers that came back from one refresh, its leader and its waiters alike, carry the same outcome.
   */
  lemma SingleFlight(events: seq<Event>, c: nat, d: nat)
    requires TryRun(START, events).Some? && LeavesSlotAlone(events)
    ensures var callers := TryRun(START, events).value.callers;
            c in callers && d in callers ==>
              (Leads(callers[c]) && Leads(callers[d]) ==> c == d) &&
              (callers[c].Returned? && callers[d].Returned? && callers[c].refresh.Some?
               && callers[c].refresh == callers[d].refresh
               ==> callers[c].result == callers[d].result)
  {
    RunKeepsInv(START, events);
  }

  /** Along every run, sign-outs included, a session that replaced another carries a larger watermark. */
  lemma {:induction false} WatermarksIncrease(w: World, events: seq<Event>)
    requires WatermarkBelowCounter(w) && TryRun(w, events).Some?
    ensures var end := TryRun(w, events).value;
            && WatermarkBelowCounter(end)
            && (end.store.session.Some? ==>
                  end.store.session == w.store.session || end.store.session.value.updatedAt >= w.store.counter)
    decreases |events|
  {
    if events != [] {
      StepKeepsWatermark(w, events[0]);
      WatermarksIncrease(Step(w, events[0]), events[1..]);
    }
  }

  predicate IsSessionValid(st: Store, minUpdatedAt: nat) {
    st.session.Some? && st.session.value.updatedAt >= minUpdatedAt
  }

  /**
    What a captured watermark can tell later: only whether some session is present. A switch to another
    account keeps it valid, because watermarks only grow.
   */
  lemma CapturedWatermarkStaysValidIff(w: World, events: seq<Event>)
    requires WatermarkBelowCounter(w) && w.store.session.Some? && TryRun(w, events).Some?
    ensures var end := TryRun(w, events).value;
            IsSessionValid(end.store, w.store.session.value.updatedAt) <==> end.store.session.Some?
  {
    WatermarksIncrease(w, events);
  }

  // ---------------------------------------------------------------- what sign-out and late joining break

  /** The end of a sign-out keeps the slot truthful exactly when no refresh is in flight. */
  lemma SignOutIsHarmlessIff(w: World)
    requires Inv(w) && Can(w, SignOutEnds)
    ensures SlotMatchesLeader(Step(w, SignOutEnds)) <==> forall c :: c in w.callers ==> !Leads(w.callers[c])
  {
  }

  /** Otherwise the slot it empties lets a second caller claim a refresh beside the first. */
  lemma SignOutAdmitsSecondLeader(w: World, l: nat, c: nat)
    requires Inv(w) && Can(w, SignOutEnds) && c != l
    requires l in w.callers && Leads(w.callers[l]) && c in w.callers && w.callers[c].Claiming?
    ensures var end := TryRun(w, [SignOutEnds, Claim(c)]);
            end.Some? && At(end.value, l) == At(w, l) &&
            At(end.value, c) == Some(Refreshing(w.nextChannel, w.callers[c].current))
  {
    var next := Step(w, SignOutEnds);
    assert [SignOutEnds, Claim(c)][1..] == [Claim(c)] && [Claim(c)][1..] == [];
    assert TryRun(next, [Claim(c)]) == TryRun(Step(next, Claim(c)), []);
  }

  /**
    Whether a leader can no longer get to a send that somebody waiting for it would receive: it has sent to
    nobody, it has failed permanently and needs the slot lock the waiter holds, or it has to set the session
    while a sign-out holds the mutation lock and needs that slot lock.
   */
  predicate IsBeyondAnswering(w: World, l: nat)
    requires l in w.callers
  {
    match w.callers[l]
    case Releasing(channel, _) => channel !in w.posted
    case Dropping(_) => true
    case ClearingSlot(_) => true
    case Setting(_, _) => w.mutation == Some(SigningOut)
    case _ => false
  }

  /** A waiter that holds the slot lock for an answer that will never be posted. */
  predicate Orphaned(w: World, c: nat, l: nat) {
    && c in w.callers && l in w.callers && w.callers[c].Waiting? && w.lock == Some(c)
    && Leads(w.callers[l]) && w.callers[l].channel == w.callers[c].channel && w.callers[c].channel !in w.posted
    && IsBeyondAnswering(w, l)
  }

  lemma {:induction false} OrphanWaitsForever(w: World, c: nat, l: nat, events: seq<Event>)
    requires Inv(w) && Orphaned(w, c, l) && TryRun(w, events).Some?
    ensures Inv(TryRun(w, events).value) && Orphaned(TryRun(w, events).value, c, l)
    decreases |events|
  {
    if events != [] {
      StepKeepsInv(w, events[0]);
      OrphanStays(w, c, l, events[0]);
      OrphanWaitsForever(Step(w, events[0]), c, l, events[1..]);
    }
  }

  lemma OrphanStays(w: World, c: nat, l: nat, e: Event)
    requires Inv(w) && Orphaned(w, c, l) && Can(w, e)
    ensures Orphaned(Step(w, e), c, l)
  {
    if IsCallerStep(e) {
      OthersStay(w, e);
    }
  }

  /** Joining a refresh orphans the caller exactly when its leader is beyond answering. */
  lemma JoinOrphansIff(w: World, c: nat, l: nat)
    requires Inv(w) && Can(w, CheckSlot(c)) && l in w.callers && Leads(w.callers[l])
    ensures Orphaned(Step(w, CheckSlot(c)), c, l) <==> IsBeyondAnswering(w, l)
  {
    assert CarriesItsResult(w.results, w.callers[l]);
  }

  predicate WaitsFor(w: World, c: nat, l: nat) {
    && c in w.callers && w.callers[c].Waiting? && l in w.callers && Leads(w.callers[l])
    && w.callers[l].channel == w.callers[c].channel
  }

  /** A permanent failure orphans the refresh's waiter whenever it has one. */
  lemma PermanentFailureOrphansItsWaiter(w: World, c: nat, l: nat)
    requires Inv(w) && Can(w, FailsPermanently(l)) && WaitsFor(w, c, l)
    ensures Orphaned(Step(w, FailsPermanently(l)), c, l)
  {
    assert CarriesItsResult(w.results, w.callers[l]);
  }

  // ---------------------------------------------------------------- the deadlock with a sign-out

  /** The steps that take the slot lock or the mutation lock. */
  predicate TakesALock(e: Event) {
    || e.CheckSlot? || e.Claim? || e.Release? || e.ClearSlot? || e.SetFresh? || e.DropSession?
    || e.ExternalSet? || e.SignOutBegins? || e.SignOutEnds?
  }

  /** Waiter, leader and sign-out wait for one another in a circle, each holding what the next one needs. */
  predicate Deadlocked(w: World, c: nat, l: nat) { Orphaned(w, c, l) && w.mutation == Some(SigningOut) }

  /**
    A sign-out that begins while a refresh with a waiter is in flight closes that circle as soon as the refresh
    succeeds, or fails permanently.
   */
  lemma SignOutDuringRefreshDeadlocks(w: World, c: nat, l: nat, payload: Payload)
    requires Inv(w) && w.mutation.None? && WaitsFor(w, c, l) && w.callers[l].Refreshing?
    ensures Can(w, SignOutBegins) && Can(Step(w, SignOutBegins), RefreshArrives(l, payload))
    ensures Can(Step(w, SignOutBegins), FailsPermanently(l))
    ensures Deadlocked(Step(Step(w, SignOutBegins), RefreshArrives(l, payload)), c, l)
    ensures Deadlocked(Step(Step(w, SignOutBegins), FailsPermanently(l)), c, l)
  {
    assert CarriesItsResult(w.results, w.callers[l]);
  }

  /** From then on nobody joins, claims, releases, signs in or signs out, in any continuation. */
  lemma {:induction false} DeadlockStopsEverything(w: World, c: nat, l: nat, events: seq<Event>)
    requires Inv(w) && Deadlocked(w, c, l) && TryRun(w, events).Some?
    ensures Deadlocked(TryRun(w, events).value, c, l)
    ensures forall i :: 0 <= i < |events| ==> !TakesALock(events[i])
    decreases |events|
  {
    if events != [] {
      var e := events[0];
      StepKeepsInv(w, e);
      OrphanStays(w, c, l, e);
      DeadlockStays(w, c, l, e);
      DeadlockStopsEverything(Step(w, e), c, l, events[1..]);
    }
  }

  lemma DeadlockStays(w: World, c: nat, l: nat, e: Event)
    requires Inv(w) && Deadlocked(w, c, l) && Can(w, e)
    ensures !TakesALock(e) && Step(w, e).mutation == w.mutation
  {
  }

  // ---------------------------------------------------------------- which waiters are answered

  /** These steps bring the caller back with the outcome of the refresh it waits for. */
  predicate Answers(w: World, c: nat, events: seq<Event>) {
    && c in w.callers && w.callers[c].Waiting? && TryRun(w, events).Some?
    && var end := TryRun(w, events).value;
       c in end.callers && end.callers[c].Returned? && end.callers[c].refresh == Some(w.callers[c].channel)
  }

  /** The leader's next step towards its send; a refresh still on its way may succeed or fail for now. */
  function NextStep(w: World, l: nat, succeeds: bool, payload: Payload): Event
    requires l in w.callers
  {
    match w.callers[l]
    case Refreshing(_, _) => if succeeds then RefreshArrives(l, payload) else RefreshFails(l)
    case Setting(_, _) => SetFresh(l)
    case ResettingCooldown(_, _, _) => ResetCooldown(l)
    case ReadingBack(_, _, _) => ReadBack(l)
    case _ => Send(l)
  }

  /** How many steps the leader is away from having sent. */
  function StepsToSend(c: Caller): nat {
    match c
    case Refreshing(_, _) => 5
    case Setting(_, _) => 4
    case ResettingCooldown(_, _, _) => 3
    case ReadingBack(_, _, _) => 2
    case Sending(_, _) => 1
    case _ => 0
  }

  /** No sign-out stands in the way of setting the session, if the leader will have to. */
  predicate CanSetSession(w: World, l: nat, succeeds: bool)
    requires l in w.callers
  {
    w.callers[l].Setting? || (w.callers[l].Refreshing? && succeeds) ==> w.mutation.None?
  }

  lemma LeaderMovesOn(w: World, c: nat, l: nat, succeeds: bool, payload: Payload)
    requires Inv(w) && WaitsFor(w, c, l) && StepsToSend(w.callers[l]) > 0 && CanSetSession(w, l, succeeds)
    ensures var e := NextStep(w, l, succeeds, payload);
            && Can(w, e) && !EmptiesSlot(e)
            && var next := Step(w, e);
               && WaitsFor(next, c, l) && next.callers[c] == w.callers[c] && CanSetSession(next, l, succeeds)
               && StepsToSend(next.callers[l]) < StepsToSend(w.callers[l]) && !next.callers[l].Dropping?
               && !next.callers[l].ClearingSlot?
               && (next.callers[l].Releasing? ==> w.callers[c].channel in next.posted)
  {
    if w.callers[l].Sending? {
      assert HasReceiver(w, w.callers[l].channel);
    }
  }

  /**
    A waiter that is not orphaned has a continuation that answers it: the refresh may fail for now, and it may
    succeed unless a sign-out holds the mutation lock.
   */
  lemma {:induction false} WaiterCanBeAnswered(w: World, c: nat, l: nat, succeeds: bool, payload: Payload)
    returns (events: seq<Event>)
    requires Inv(w) && WaitsFor(w, c, l) && !Orphaned(w, c, l) && CanSetSession(w, l, succeeds)
    ensures Answers(w, c, events) && LeavesSlotAlone(events)
    decreases StepsToSend(w.callers[l])
  {
    if StepsToSend(w.callers[l]) == 0 {
      events := [Wake(c)];
      assert events[1..] == [];
      assert TryRun(Step(w, Wake(c)), []) == Some(Step(w, Wake(c)));
    } else {
      var e := NextStep(w, l, succeeds, payload);
      LeaderMovesOn(w, c, l, succeeds, payload);
      StepKeepsInv(w, e);
      var rest := WaiterCanBeAnswered(Step(w, e), c, l, succeeds, payload);
      events := [e] + rest;
      assert events[1..] == rest;
    }
  }

  /** A waiter is answered on some continuation exactly when it is not orphaned. */
  lemma WaiterIsAnsweredIff(w: World, c: nat, l: nat, payload: Payload)
    requires Inv(w) && WaitsFor(w, c, l)
    ensures (exists events :: Answers(w, c, events)) <==> !Orphaned(w, c, l)
  {
    if Orphaned(w, c, l) {
      forall events | TryRun(w, events).Some? ensures !Answers(w, c, events) {
        OrphanWaitsForever(w, c, l, events);
      }
    } else {
      var events := WaiterCanBeAnswered(w, c, l, false, payload);
    }
  }

  /**
    A caller that joins a refresh can be answered exactly when its leader is not beyond answering at that
    moment: which stage it is in, what it has posted, and whether a sign-out holds the mutation lock.
   */
  lemma JoinIsAnsweredIff(w: World, c: nat, l: nat, payload: Payload)
    requires Inv(w) && Can(w, CheckSlot(c)) && l in w.callers && Leads(w.callers[l])
    ensures (exists events :: Answers(Step(w, CheckSlot(c)), c, events)) <==> !IsBeyondAnswering(w, l)
  {
    StepKeepsInv(w, CheckSlot(c));
    JoinOrphansIff(w, c, l);
    WaiterIsAnsweredIff(Step(w, CheckSlot(c)), c, l, payload);
  }
}
