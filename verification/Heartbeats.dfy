/**
  The tasks of one realtime connection as interleaved steps over shared state: the read task notes the time
  of each frame and then removes the reference it answers, if any; the heartbeat and liveness tasks insert
  one, sleep, and look again.
  Time only moves by explicit steps, so a task may always wake late.
 */
module Heartbeats {
  import opened Wrappers
  import opened RealtimeSupervisor

  datatype Timing = Timing(heartbeatReplyTimeout: nat, livenessTimeout: nat, livenessProbeTimeout: nat)

  /** The two families of references, "hb-n" and "live-n", and any other the server may name. */
  datatype Ref = Hb(n: nat) | Live(n: nat) | Other(text: string)

  /** A prober between probes, about to send one, asleep after sending one, or finished. */
  datatype Prober = Resting | Due | Awaiting(ref: Ref, since: nat) | Finished

  /** `handling` is the reference answered by the frame the read task has noted and not yet dealt with. */
  datatype State = State(
    now: nat, tracker: map<Ref, nat>, lastInbound: nat, handling: Option<Ref>,
    heartbeat: Prober, nextHb: nat, liveness: Prober, nextLive: nat,
    raised: seq<DisconnectReason>)

  datatype Event =
    | Elapse(ms: nat)
    | Inbound(answers: Option<Ref>)
    | Reply(ref: Ref)
    | ReadEnds(reason: DisconnectReason)
    | HeartbeatFires(sent: bool)
    | HeartbeatChecks
    | LivenessFindsSilence
    | LivenessFires(sent: bool)
    | LivenessChecks

  const OPENED := State(0, map[], 0, None, Resting, 100, Resting, 5000, [])

  predicate Can(s: State, e: Event, t: Timing) {
    match e
    case Inbound(_) => s.handling.None?
    case Reply(ref) => s.handling == Some(ref)
    case ReadEnds(_) => s.handling.None?
    case HeartbeatFires(_) => s.heartbeat.Resting?
    case HeartbeatChecks => s.heartbeat.Awaiting? && s.now >= s.heartbeat.since + t.heartbeatReplyTimeout
    case LivenessFindsSilence => s.liveness.Resting? && s.now >= s.lastInbound + t.livenessTimeout
    case LivenessFires(_) => s.liveness.Due?
    case LivenessChecks => s.liveness.Awaiting? && s.now >= s.liveness.since + t.livenessProbeTimeout
    case _ => true
  }

  function Step(s: State, e: Event): State {
    match e
    case Elapse(ms) => s.(now := s.now + ms)
    case Inbound(answers) => s.(lastInbound := s.now, handling := answers)
    case Reply(ref) => s.(tracker := s.tracker - {ref}, handling := None)
    case ReadEnds(reason) => s.(raised := s.raised + [reason])
    case HeartbeatFires(sent) =>
      s.(tracker := s.tracker[Hb(s.nextHb) := s.now], nextHb := s.nextHb + 1,
         heartbeat := if sent then Awaiting(Hb(s.nextHb), s.now) else Finished)
    case HeartbeatChecks =>
      if s.heartbeat.Awaiting? && s.heartbeat.ref in s.tracker
      then s.(heartbeat := Finished, raised := s.raised + [HeartbeatTimeout])
      else s.(heartbeat := Resting)
    case LivenessFindsSilence => s.(liveness := Due)
    case LivenessFires(sent) =>
      s.(tracker := s.tracker[Live(s.nextLive) := s.now], nextLive := s.nextLive + 1,
         liveness := if sent then Awaiting(Live(s.nextLive), s.now) else Finished)
    case LivenessChecks =>
      if s.liveness.Awaiting? && s.liveness.ref in s.tracker
      then s.(liveness := Finished, raised := s.raised + [LivenessTimeout])
      else s.(liveness := Resting)
  }

  function Run(tr: seq<Event>): State {
    if tr == [] then OPENED else Step(Run(tr[..|tr| - 1]), tr[|tr| - 1])
  }

  predicate Valid(tr: seq<Event>, t: Timing) {
    forall i :: 0 <= i < |tr| ==> Can(Run(tr[..i]), tr[i], t)
  }

  lemma ValidPrefix(tr: seq<Event>, t: Timing)
    requires Valid(tr, t) && tr != []
    ensures Valid(tr[..|tr| - 1], t) && Can(Run(tr[..|tr| - 1]), tr[|tr| - 1], t)
  {
    var n := |tr| - 1;
    forall i | 0 <= i < n ensures Can(Run(tr[..n][..i]), tr[..n][i], t) {
      assert tr[..n][..i] == tr[..i];
    }
  }

  // ---------------------------------------------------------------- the tracker and the history

  /** The reference a step sends, if any. */
  function SentBy(tr: seq<Event>, i: nat): Option<Ref>
    requires i < |tr|
  {
    if tr[i].HeartbeatFires? then Some(Hb(Run(tr[..i]).nextHb))
    else if tr[i].LivenessFires? then Some(Live(Run(tr[..i]).nextLive))
    else None
  }

  /** Step i sent the reference and no reply to it was handled since. */
  ghost predicate UnansweredSince(tr: seq<Event>, ref: Ref, i: nat) {
    i < |tr| && SentBy(tr, i) == Some(ref) && forall j :: i < j < |tr| ==> tr[j] != Reply(ref)
  }

  ghost predicate Unanswered(tr: seq<Event>, ref: Ref) {
    exists i: nat :: UnansweredSince(tr, ref, i)
  }

  lemma UnansweredExtends(tr: seq<Event>, ref: Ref, i: nat)
    requires tr != [] && i < |tr| - 1
    ensures UnansweredSince(tr, ref, i) <==> UnansweredSince(tr[..|tr| - 1], ref, i) && tr[|tr| - 1] != Reply(ref)
  {
    var n := |tr| - 1;
    assert tr[..n][..i] == tr[..i];
    forall j | i < j < n ensures tr[j] == tr[..n][j] {
    }
    if UnansweredSince(tr[..n], ref, i) && tr[n] != Reply(ref) {
      forall j | i < j < |tr| ensures tr[j] != Reply(ref) {
        if j < n {
          assert tr[..n][j] != Reply(ref);
        }
      }
    }
    if UnansweredSince(tr, ref, i) {
      forall j | i < j < n ensures tr[..n][j] != Reply(ref) {
        assert tr[j] != Reply(ref);
      }
    }
  }

  /** In every interleaving the tracker holds exactly the references sent and not yet answered. */
  lemma {:induction false} TrackerIsTheUnanswered(tr: seq<Event>, ref: Ref)
    ensures ref in Run(tr).tracker <==> Unanswered(tr, ref)
  {
    if tr == [] {
      assert forall i: nat :: !UnansweredSince(tr, ref, i);
    } else {
      var n := |tr| - 1;
      TrackerIsTheUnanswered(tr[..n], ref);
      if ref in Run(tr).tracker {
        if SentBy(tr, n) == Some(ref) {
          assert UnansweredSince(tr, ref, n);
        } else {
          var i: nat :| UnansweredSince(tr[..n], ref, i);
          UnansweredExtends(tr, ref, i);
        }
      }
      if Unanswered(tr, ref) {
        var i: nat :| UnansweredSince(tr, ref, i);
        if i < n {
          UnansweredExtends(tr, ref, i);
        }
      }
    }
  }

  lemma HandlingStep(s: State, e: Event, t: Timing)
    requires Can(s, e, t) && Step(s, e).handling.Some?
    ensures e == Inbound(Step(s, e).handling)
            || (Step(s, e).handling == s.handling && !e.Inbound? && !e.Reply? && !e.ReadEnds?)
  {
  }

  /** A reply is handled as the read task's next step after the frame that carried it. */
  lemma {:induction false} HandlingFollowsItsFrame(tr: seq<Event>, t: Timing) returns (k: nat)
    requires Valid(tr, t) && Run(tr).handling.Some?
    ensures k < |tr| && tr[k] == Inbound(Run(tr).handling)
    ensures forall j :: k < j < |tr| ==> !tr[j].Inbound? && !tr[j].Reply? && !tr[j].ReadEnds?
  {
    var n := |tr| - 1;
    ValidPrefix(tr, t);
    HandlingStep(Run(tr[..n]), tr[n], t);
    if tr[n].Inbound? {
      k := n;
    } else {
      k := HandlingFollowsItsFrame(tr[..n], t);
      assert forall j :: 0 <= j < n ==> tr[..n][j] == tr[j];
    }
  }

  // ---------------------------------------------------------------- one probe per task

  /** The only reference of its own a task can have in the tracker is the last one it sent. */
  predicate Inv(s: State) {
    && s.nextHb > 0 && s.nextLive > 0
    && (forall r :: r in s.tracker && r.Hb? ==> r.n == s.nextHb - 1)
    && (forall r :: r in s.tracker && r.Live? ==> r.n == s.nextLive - 1)
    && (s.heartbeat.Resting? || s.heartbeat.Due? ==> Hb(s.nextHb - 1) !in s.tracker)
    && (s.liveness.Resting? || s.liveness.Due? ==> Live(s.nextLive - 1) !in s.tracker)
    && (s.heartbeat.Awaiting? ==> s.heartbeat.ref == Hb(s.nextHb - 1))
    && (s.liveness.Awaiting? ==> s.liveness.ref == Live(s.nextLive - 1))
  }

  lemma StepKeepsInv(s: State, e: Event, t: Timing)
    requires Inv(s) && Can(s, e, t)
    ensures Inv(Step(s, e))
  {
  }

  lemma {:induction false} RunKeepsInv(tr: seq<Event>, t: Timing)
    requires Valid(tr, t)
    ensures Inv(Run(tr))
  {
    if tr != [] {
      ValidPrefix(tr, t);
      RunKeepsInv(tr[..|tr| - 1], t);
      StepKeepsInv(Run(tr[..|tr| - 1]), tr[|tr| - 1], t);
    }
  }

  /** At most one heartbeat and at most one liveness probe is ever unanswered. */
  lemma AtMostOneOfEachIsUnanswered(tr: seq<Event>, t: Timing, a: Ref, b: Ref)
    requires Valid(tr, t) && Unanswered(tr, a) && Unanswered(tr, b)
    requires (a.Hb? && b.Hb?) || (a.Live? && b.Live?)
    ensures a == b
  {
    RunKeepsInv(tr, t);
    TrackerIsTheUnanswered(tr, a);
    TrackerIsTheUnanswered(tr, b);
  }

  // ---------------------------------------------------------------- timeouts

  /** The step that sent the heartbeat now awaited, and when. */
  /** Between its sends a task's reference stays as it is, and leaves the tracker only by its own reply. */
  lemma AwaitingStep(s: State, e: Event)
    requires Inv(s)
    ensures Step(s, e).heartbeat.Awaiting? && !e.HeartbeatFires? ==>
              && Step(s, e).heartbeat == s.heartbeat
              && var ref := s.heartbeat.ref; (ref in Step(s, e).tracker <==> ref in s.tracker && e != Reply(ref))
    ensures Step(s, e).liveness.Awaiting? && !e.LivenessFires? ==>
              && Step(s, e).liveness == s.liveness
              && var ref := s.liveness.ref; (ref in Step(s, e).tracker <==> ref in s.tracker && e != Reply(ref))
  {
  }

  lemma {:induction false} HeartbeatWasSent(tr: seq<Event>, t: Timing) returns (i: nat)
    requires Valid(tr, t) && Run(tr).heartbeat.Awaiting?
    ensures i < |tr| && SentBy(tr, i) == Some(Run(tr).heartbeat.ref) && Run(tr[..i]).now == Run(tr).heartbeat.since
    ensures UnansweredSince(tr, Run(tr).heartbeat.ref, i) <==> Run(tr).heartbeat.ref in Run(tr).tracker
  {
    var n := |tr| - 1;
    ValidPrefix(tr, t);
    RunKeepsInv(tr[..n], t);
    if tr[n].HeartbeatFires? {
      i := n;
    } else {
      AwaitingStep(Run(tr[..n]), tr[n]);
      i := HeartbeatWasSent(tr[..n], t);
      assert tr[..n][..i] == tr[..i];
      UnansweredExtends(tr, Run(tr).heartbeat.ref, i);
    }
  }

  lemma {:induction false} ProbeWasSent(tr: seq<Event>, t: Timing) returns (i: nat)
    requires Valid(tr, t) && Run(tr).liveness.Awaiting?
    ensures i < |tr| && SentBy(tr, i) == Some(Run(tr).liveness.ref) && Run(tr[..i]).now == Run(tr).liveness.since
    ensures UnansweredSince(tr, Run(tr).liveness.ref, i) <==> Run(tr).liveness.ref in Run(tr).tracker
  {
    var n := |tr| - 1;
    ValidPrefix(tr, t);
    RunKeepsInv(tr[..n], t);
    if tr[n].LivenessFires? {
      i := n;
    } else {
      AwaitingStep(Run(tr[..n]), tr[n]);
      i := ProbeWasSent(tr[..n], t);
      assert tr[..n][..i] == tr[..i];
      UnansweredExtends(tr, Run(tr).liveness.ref, i);
    }
  }

  /**
    When the heartbeat task wakes, it declares the connection dead exactly when the reference it sent at
    least one whole reply timeout ago has had no reply up to this moment.
   */
  lemma HeartbeatTimeoutIff(tr: seq<Event>, t: Timing) returns (i: nat)
    requires Valid(tr, t) && Can(Run(tr), HeartbeatChecks, t)
    ensures i < |tr| && SentBy(tr, i) == Some(Run(tr).heartbeat.ref)
    ensures Run(tr[..i]).now + t.heartbeatReplyTimeout <= Run(tr).now
    ensures Step(Run(tr), HeartbeatChecks).raised == Run(tr).raised + [HeartbeatTimeout]
            <==> UnansweredSince(tr, Run(tr).heartbeat.ref, i)
  {
    i := HeartbeatWasSent(tr, t);
    assert Run(tr).raised != Run(tr).raised + [HeartbeatTimeout] by {
      assert |Run(tr).raised| != |Run(tr).raised + [HeartbeatTimeout]|;
    }
  }

  /** The same for a liveness probe. */
  lemma LivenessTimeoutIff(tr: seq<Event>, t: Timing) returns (i: nat)
    requires Valid(tr, t) && Can(Run(tr), LivenessChecks, t)
    ensures i < |tr| && SentBy(tr, i) == Some(Run(tr).liveness.ref)
    ensures Run(tr[..i]).now + t.livenessProbeTimeout <= Run(tr).now
    ensures Step(Run(tr), LivenessChecks).raised == Run(tr).raised + [LivenessTimeout]
            <==> UnansweredSince(tr, Run(tr).liveness.ref, i)
  {
    i := ProbeWasSent(tr, t);
    assert Run(tr).raised != Run(tr).raised + [LivenessTimeout] by {
      assert |Run(tr).raised| != |Run(tr).raised + [LivenessTimeout]|;
    }
  }

  /** A task that is due to send found silence at some step and did nothing since. */
  lemma {:induction false} DueSinceSilence(tr: seq<Event>, t: Timing) returns (k: nat)
    requires Valid(tr, t) && Run(tr).liveness.Due?
    ensures k < |tr| && tr[k].LivenessFindsSilence?
    ensures forall j :: k < j < |tr| ==> !IsLivenessStep(tr[j])
  {
    var n := |tr| - 1;
    ValidPrefix(tr, t);
    if tr[n].LivenessFindsSilence? {
      k := n;
    } else {
      k := DueSinceSilence(tr[..n], t);
      forall j | k < j < |tr| ensures !IsLivenessStep(tr[j]) {
        if j < n {
          assert !IsLivenessStep(tr[..n][j]);
        }
      }
    }
  }

  predicate IsLivenessStep(e: Event) { e.LivenessFindsSilence? || e.LivenessFires? || e.LivenessChecks? }

  /**
    Every probe is the task's next step after a check that found a whole liveness window without an inbound
    frame. A frame may still arrive between that check and the probe.
   */
  lemma ProbeFollowsSilence(tr: seq<Event>, t: Timing, i: nat) returns (k: nat)
    requires Valid(tr, t) && i < |tr| && tr[i].LivenessFires?
    ensures k < i && tr[k].LivenessFindsSilence? && forall j :: k < j < i ==> !IsLivenessStep(tr[j])
    ensures forall j :: 0 <= j < k && tr[j].Inbound? ==>
              Run(tr[..j]).now + t.livenessTimeout <= Run(tr[..k]).now
  {
    ValidUpTo(tr, t, i);
    k := DueSinceSilence(tr[..i], t);
    assert forall j :: 0 <= j < i ==> tr[..i][j] == tr[j];
    assert Can(Run(tr[..k]), tr[k], t);
    forall j | 0 <= j < k && tr[j].Inbound?
      ensures Run(tr[..j]).now + t.livenessTimeout <= Run(tr[..k]).now
    {
      InboundIsRemembered(tr[..k], j);
      assert tr[..k][..j] == tr[..j];
    }
  }

  /** A frame between the check and the probe: the probe goes out although the connection just spoke. */
  lemma ProbeMayFollowAFrame(t: Timing, silence: nat)
    requires silence >= t.livenessTimeout
    ensures var tr := [Elapse(silence), LivenessFindsSilence, Inbound(None), LivenessFires(true)];
            Valid(tr, t) && Run(tr).lastInbound == Run(tr).now && Live(5000) in Run(tr).tracker
  {
    var tr := [Elapse(silence), LivenessFindsSilence, Inbound(None), LivenessFires(true)];
    assert tr[..1] == [Elapse(silence)] && tr[..2] == tr[..1] + [LivenessFindsSilence];
    assert tr[..3] == tr[..2] + [Inbound(None)] && tr == tr[..3] + [LivenessFires(true)];
    RunAppends([], Elapse(silence));
    assert [] + [Elapse(silence)] == tr[..1];
    RunAppends(tr[..1], LivenessFindsSilence);
    RunAppends(tr[..2], Inbound(None));
    RunAppends(tr[..3], LivenessFires(true));
    forall i | 0 <= i < |tr| ensures Can(Run(tr[..i]), tr[i], t) {
      assert i == 0 || i == 1 || i == 2 || i == 3;
      assert tr[..0] == [];
    }
  }

  lemma RunAppends(tr: seq<Event>, e: Event)
    ensures Run(tr + [e]) == Step(Run(tr), e)
  {
    assert (tr + [e])[..|tr|] == tr;
  }

  lemma ValidUpTo(tr: seq<Event>, t: Timing, i: nat)
    requires Valid(tr, t) && i < |tr|
    ensures Valid(tr[..i], t) && Can(Run(tr[..i]), tr[i], t)
  {
    forall j | 0 <= j < i ensures Can(Run(tr[..i][..j]), tr[..i][j], t) {
      assert tr[..i][..j] == tr[..j];
    }
  }

  lemma {:induction false} InboundIsRemembered(tr: seq<Event>, j: nat)
    requires j < |tr| && tr[j].Inbound?
    ensures Run(tr[..j]).now <= Run(tr).lastInbound <= Run(tr).now
  {
    var n := |tr| - 1;
    TimeOrder(tr[..n]);
    if j < n {
      InboundIsRemembered(tr[..n], j);
      assert tr[..n][..j] == tr[..j];
    }
  }

  lemma {:induction false} TimeOrder(tr: seq<Event>)
    ensures Run(tr).lastInbound <= Run(tr).now
  {
    if tr != [] {
      TimeOrder(tr[..|tr| - 1]);
    }
  }
}
