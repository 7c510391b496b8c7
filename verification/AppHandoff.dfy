/**
 The held owner of the running application: the handoff of an accepted update to a coordinator,
 the owner's event loop with its deadlines, and the durable phase record.

 Everything outside the process (messages, poll results, clock readings, exits, I/O failures) is
 inputs of any value.  The last fields of the owner record what it has sent, written and been.
 */
module AppHandoff {
  import opened ProcessOwnership
  import opened Receipts

  const BOUND: nat := 5000
  const MAX_CONTROL: nat := 900000
  const CLEANUP_TAIL: nat := 600000
  const INT_MAX: nat := 2147483647
  const UINT64_MAX: nat := 0xFFFF_FFFF_FFFF_FFFF

  type U64 = x: int | 0 <= x <= 0xFFFF_FFFF_FFFF_FFFF

  /** Clock arithmetic on unsigned 64-bit milliseconds. */
  function After(now: U64): U64 {
    (now + BOUND) % (UINT64_MAX + 1)
  }

  /** The time until a deadline, in the same arithmetic. */
  function Remaining(deadline: U64, now: U64): U64 {
    if deadline >= now then deadline - now else deadline - now + UINT64_MAX + 1
  }

  /** Without wrap-around the new deadline is later, and after a failed reading it is not. */
  lemma DeadlineIsLater(now: U64)
    ensures After(now) > now <==> now <= UINT64_MAX - BOUND
  {
  }

  // --------------------------------------------------------------------- handoff

  /**
   One selected activation.  `child`: its number is held.  `lost`: a wait has dropped the number
   without confirming the exit.
   */
  datatype Handoff = Handoff(
    activation: nat, child: bool, lost: bool,
    authorized: bool, prepared: bool, accepted: bool, oldReaped: bool, resolved: bool,
    response: bool, deadline: U64, cleanupDeadline: U64)

  /** Each stage of the proof rests on the one before it, and the first on a child that was not collected. */
  predicate Ordered(h: Handoff) {
    && (h.accepted ==> h.prepared)
    && (h.prepared ==> h.authorized && !h.response)
    && (h.authorized ==> h.child || h.lost)
    && !(h.child && h.lost)
    && (h.oldReaped && h.child ==> h.accepted)
  }

  /** The proof rests on a child that is held. */
  predicate Backed(h: Handoff) {
    h.authorized ==> h.child
  }

  function Cleared(h: Handoff): Handoff {
    h.(child := false, lost := false, authorized := false, prepared := false, accepted := false, response := false)
  }

  function Fresh(activation: nat, deadline: U64): Handoff {
    Handoff(activation, false, false, false, false, false, false, false, false, deadline, 0)
  }

  /** The durable record; its phases are ordered. */
  datatype Phase = Provisional | Owned | Reaped {
    function Rank(): nat { match this case Provisional => 0 case Owned => 1 case Reaped => 2 }
  }

  predicate Ascending(history: seq<Phase>) {
    forall i, j | 0 <= i < j < |history| :: history[i].Rank() < history[j].Rank()
  }

  /** The answers to one attempt to stop the child: to the kill, and to the wait after it. */
  datatype Attempt = Attempt(signalled: bool, looks: seq<Look>)

  function Stopped(attempt: Attempt): Ending {
    if attempt.signalled then EndingOf(attempt.looks) else Kept
  }

  function AfterWait(h: Handoff, ending: Ending): Handoff {
    match ending
    case Kept => h
    case Lost => h.(child := false, lost := true)
    case Collected(_) => h.(child := false)
  }

  function AfterStop(h: Handoff, attempt: Attempt): Handoff {
    if !h.child || Stopped(attempt).Collected? then Cleared(h) else AfterWait(h, Stopped(attempt))
  }

  /**
   After an attempt to stop the child the proof is left without it exactly if the kill was
   accepted and the first conclusive round of the wait was a wait error, a foreign process, or an
   exit consumed while the deadline passed.
   */
  lemma ProofOutlivesChild(h: Handoff, attempt: Attempt)
    requires Ordered(h) && Backed(h) && h.authorized
    ensures !Backed(AfterStop(h, attempt)) <==>
              attempt.signalled
              && exists k | 0 <= k < |attempt.looks| ::
                   Loses(attempt.looks[k]) && forall j | 0 <= j < k :: Inconclusive(attempt.looks[j])
  {
    LostExactly(attempt.looks);
  }

  // ---------------------------------------------------------------------- inputs

  /** One complete control frame, and how the calls it leads to are answered. */
  datatype Message = Message(
    kind: nat, activation: nat, deadline: U64,
    wellFormed: bool, forked: bool, spawned: bool, written: bool, replied: bool, attempt: Attempt)

  /** What one receive on the control socket finds. */
  datatype Reception = Nothing | Refused | Partial | Complete(message: Message)

  /** What one read of the coordinator's acceptance record finds. */
  datatype Reading = Incomplete(ok: bool) | Mismatch | Grant(cleanupDeadline: U64, replied: bool)

  /** Everything the application's side of the loop meets in one iteration. */
  datatype Service = Service(
    control: Option<Reception>, closing: Attempt,
    record: Option<Reading>, stopping: Attempt,
    exit: Option<seq<Look>>, replied: bool, clean: bool)

  /** What one read of the controller's channel finds, and how the calls it leads to are answered. */
  datatype Control =
    | Ended | Malformed | CommitFrame(requested: bool, writing: Writing, confirmed: bool) | StopFrame(forwarded: bool)

  /** What the supervisor reports, and how the calls it leads to are answered. */
  datatype Report = Report(zeroLive: bool, looks: seq<Look>, stop: Attempt, sent: bool)

  /** Everything one iteration meets: the clock, the poll, and whatever is ready. */
  datatype Round = Round(
    now: U64, closing: Attempt, stop: Attempt, replied: bool,
    interrupted: bool, ready: bool, late: bool,
    control: Option<Control>, deadline: U64,
    service: Service, report: Option<Report>, writing: Writing)

  /** Nothing of the application's side is ready. */
  predicate Quiet(s: Service) {
    s.control.None? && s.record.None? && s.exit.None?
  }

  /** The state at the head of one iteration. */
  datatype Head = Head(handoff: Option<Handoff>, appControl: bool)

  /** The proof is backed by a child, or the child of an accepted handoff was lost and the application is cut off. */
  predicate HeadSound(head: Head) {
    head.handoff.Some? ==>
      var h := head.handoff.value;
      Ordered(h) && (Backed(h) || (h.accepted && h.lost && !head.appControl))
  }

  predicate IsEarliest(bound: U64, deadlines: set<U64>) {
    bound in deadlines && forall d | d in deadlines :: bound <= d
  }

  function Capped(time: U64): int {
    if time > INT_MAX then INT_MAX else time
  }

  /** Whether, and in what state, the record file was replaced. */
  datatype Writing = Unwritten | Unconfirmed | Written

  class Owner {
    const persistent: bool
    const commitDeadline: U64
    var committed: bool
    var controller: bool
    var scope: bool
    var appControl: bool
    var supervisor: bool       // the supervisor's number is held
    var supervisorOpen: bool   // its response channel is open
    var pending: bool          // an unfinished control frame
    var pendingDeadline: U64
    var handoff: Option<Handoff>
    var phase: Option<Phase>   // the durable record

    var collected: bool          // the supervisor said zero live members and exited cleanly
    var released: seq<Handoff>   // the handoff as it was when its kind-2 envelope was sent
    var history: seq<Phase>      // the phases written
    var heads: seq<Head>         // the iterations of the loop

    ghost predicate Valid()
      reads `collected, `supervisor, `released, `history, `phase, `committed, `handoff, `appControl
    {
      && (collected ==> !supervisor)
      && |released| <= 1
      && (released != [] ==> collected)
      && (forall i | 0 <= i < |released| :: released[i].accepted && released[i].child && Ordered(released[i]))
      && Ascending(history)
      && phase == (if history == [] then None else Some(history[|history| - 1]))
      && (Reaped in history ==> collected)
      && (committed ==> persistent && Owned in history)
      && (handoff.Some? ==>
            && Ordered(handoff.value)
            && (handoff.value.child ==> committed)
            && (handoff.value.oldReaped ==> collected && released != [] && released[0].activation == handoff.value.activation))
      && (appControl && handoff.Some? ==> !handoff.value.oldReaped)
    }

    function Now(): Head
      reads `handoff, `appControl
    {
      Head(handoff, appControl)
    }

    constructor (persistent: bool, commitDeadline: U64)
      ensures Valid() && this.persistent == persistent && this.commitDeadline == commitDeadline
      ensures history == [] && released == [] && heads == []
      ensures supervisor && supervisorOpen && handoff.None? && appControl
      ensures !collected && !committed && !pending
    {
      this.persistent, this.commitDeadline := persistent, commitDeadline;
      committed, controller, scope, appControl := false, true, true, true;
      supervisor, supervisorOpen, pending, pendingDeadline := true, true, false, 0;
      handoff, phase := None, None;
      collected, released, history, heads := false, [], [], [];
    }

    // ------------------------------------------------------------ durable phases

    /** Replaces the record; it may have been replaced although failure is reported. */
    method Record(phase: Phase, writing: Writing) returns (ok: bool)
      requires Valid()
      requires forall i | 0 <= i < |history| :: history[i].Rank() < phase.Rank()
      requires phase == Provisional <==> history == []
      requires phase == Reaped ==> collected
      modifies `phase, `history
      ensures Valid()
      ensures history == old(history) + (if writing.Unwritten? then [] else [phase])
      ensures ok <==> writing.Written?
    {
      if writing.Unwritten? { return false; }
      this.phase, history := Some(phase), history + [phase];
      ok := writing.Written?;
    }

    /** Without an earlier record there is nothing to replace. */
    method RecordReaped(writing: Writing) returns (ok: bool)
      requires Valid() && collected && Reaped !in history
      modifies `phase, `history
      ensures Valid() && old(history) <= history
      ensures ok ==> Reaped in history
      ensures ok <==> old(phase).Some? && writing.Written?
      ensures history == old(history) + (if old(phase).Some? && !writing.Unwritten? then [Reaped] else [])
    {
      if phase.None? { return false; }
      NotYetReaped();
      ok := Record(Reaped, writing);
      assert ok ==> history[|history| - 1] == Reaped;
    }

    lemma NotYetReaped()
      requires Reaped !in history
      ensures forall i | 0 <= i < |history| :: history[i].Rank() < Reaped.Rank()
    {
      forall i | 0 <= i < |history|
        ensures history[i].Rank() < Reaped.Rank()
      {
        assert history[i] in history;
      }
    }

    /** The controller's commit: the record becomes "owned" before the owner counts as committed. */
    method Commit(requested: bool, writing: Writing, confirmed: bool) returns (ok: bool)
      requires Valid() && persistent && (committed || history == [Provisional])
      modifies `phase, `history, `committed
      ensures Valid() && old(history) <= history
      ensures ok <==> !old(committed) && requested && writing.Written? && confirmed
      ensures committed == (old(committed) || ok)
      ensures ok ==> history == [Provisional, Owned]
    {
      if committed || !requested { return false; }
      ok := Record(Owned, writing);
      if !ok { return; }
      assert history[1] == Owned;
      ok := confirmed;
      if ok { committed := true; }
    }

    // ------------------------------------------------------------------- stopping

    /** Kills and collects the child and withdraws its proof. */
    method Stop(attempt: Attempt) returns (ok: bool)
      requires Valid()
      modifies `handoff
      ensures Valid()
      ensures handoff == if old(handoff).Some? then Some(AfterStop(old(handoff).value, attempt)) else None
      ensures ok <==> old(handoff).None? || !old(handoff).value.child || Stopped(attempt).Collected?
      ensures ok && handoff.Some? ==>
                var h := handoff.value;
                && !h.child && !h.lost && !h.authorized && !h.prepared && !h.accepted && !h.response
                && h.activation == old(handoff).value.activation && h.oldReaped == old(handoff).value.oldReaped
      ensures !ok ==> old(handoff).value.(child := false, lost := false) == handoff.value.(child := false, lost := false)
    {
      if handoff.None? { return true; }
      ok := !handoff.value.child || Stopped(attempt).Collected?;
      handoff := Some(AfterStop(handoff.value, attempt));
    }

    /** Cuts the application off; an accepted handoff survives that. */
    method CloseApp(attempt: Attempt) returns (ok: bool)
      requires Valid()
      modifies `handoff, `appControl, `pending
      ensures Valid() && !appControl && !pending
      ensures old(handoff).None? ==> ok && handoff.None?
      ensures old(handoff).Some? && old(handoff).value.accepted ==> ok && handoff == old(handoff)
      ensures old(handoff).Some? && !old(handoff).value.accepted ==>
                && handoff == Some(AfterStop(old(handoff).value, attempt))
                && (ok ==> handoff == Some(Cleared(old(handoff).value)))
      ensures ok <==> (old(handoff).None? || old(handoff).value.accepted || !old(handoff).value.child
                       || Stopped(attempt).Collected?)
    {
      appControl, pending := false, false;
      if handoff.Some? && handoff.value.accepted { return true; }
      ok := Stop(attempt);
    }

    // ------------------------------------------------------------------ messages

    /** Kind 2: selects an activation and starts its coordinator. */
    method Start(m: Message, now: U64) returns (ok: bool)
      requires Valid() && appControl
      modifies `handoff
      ensures Valid()
      ensures ok ==> handoff.Some? && handoff.value.activation == m.activation
      ensures ok ==> !handoff.value.authorized && (handoff.value.child ==> now < m.deadline <= now + 900000)
      ensures handoff == old(handoff) || (handoff.Some? && !handoff.value.authorized)
      ensures old(committed)
              && (old(handoff).None? || (!old(handoff).value.child && old(handoff).value.activation != m.activation))
              && m.wellFormed && now < m.deadline <= now + 900000 && m.forked && m.spawned && m.replied ==>
                ok && handoff == Some(Fresh(m.activation, m.deadline).(child := true, response := true))
      ensures ok <==>
                && old(committed)
                && (old(handoff).Some? ==> !old(handoff).value.child && old(handoff).value.activation != m.activation)
                && m.wellFormed && now < m.deadline <= now + 900000 && m.replied
                && (m.forked && !m.spawned ==> Stopped(m.attempt).Collected?)
    {
      if !committed || (handoff.Some? && handoff.value.child) { return false; }
      if !m.wellFormed || now >= m.deadline || m.deadline - now > MAX_CONTROL { return false; }
      if handoff.Some? && handoff.value.activation == m.activation { return false; }
      handoff := Some(Fresh(m.activation, m.deadline));
      if m.forked { handoff := Some(handoff.value.(child := true, response := true)); }
      if !m.forked || !m.spawned {
        ok := Stop(m.attempt);
        if !ok { return; }
      }
      ok := m.replied;
    }

    /** Kind 4: hands the plan digest to the coordinator, once. */
    method Authorize(written: bool) returns (ok: bool)
      requires Valid() && handoff.Some? && handoff.value.child
      modifies `handoff
      ensures Valid()
      ensures ok <==> written && !old(handoff).value.authorized
      ensures handoff == if ok then Some(old(handoff).value.(authorized := true)) else old(handoff)
    {
      if handoff.value.authorized || !written { return false; }
      handoff := Some(handoff.value.(authorized := true));
      ok := true;
    }

    /** Kind 6: the application accepts what the coordinator has prepared, once. */
    method Accept(replied: bool) returns (ok: bool)
      requires Valid() && handoff.Some? && handoff.value.child
      modifies `handoff
      ensures Valid()
      ensures ok <==> replied && old(handoff).value.prepared && !old(handoff).value.accepted
      ensures handoff == if old(handoff).value.prepared then Some(old(handoff).value.(accepted := true)) else old(handoff)
    {
      if !handoff.value.prepared || handoff.value.accepted { return false; }
      handoff := Some(handoff.value.(accepted := true));
      ok := replied;
    }

    /** Kind 8: withdraws an activation; not once the old application has been collected. */
    method Withdraw(attempt: Attempt, replied: bool) returns (ok: bool)
      requires Valid() && handoff.Some?
      modifies `handoff
      ensures Valid()
      ensures ok ==> handoff == Some(Cleared(old(handoff).value)) && !old(handoff).value.oldReaped
      ensures handoff == if old(handoff).value.oldReaped then old(handoff)
                         else Some(AfterStop(old(handoff).value, attempt))
      ensures handoff.value.child ==> !ok
      ensures old(handoff).value.child && !Stopped(attempt).Collected? ==> !ok
      ensures ok <==> !old(handoff).value.oldReaped && (!old(handoff).value.child || Stopped(attempt).Collected?) && replied
    {
      if handoff.value.oldReaped { return false; }
      ok := Stop(attempt);
      if !ok { return; }
      ok := replied;
    }

    /** A frame that withdraws this handoff and loses its child in doing so. */
    predicate LosesChild(h: Handoff, m: Message) {
      m.kind == 8 && m.activation == h.activation && !h.oldReaped && h.child && Stopped(m.attempt) == Lost
    }

    /** The application may accept: the handoff is prepared, and its coordinator is held and in time. */
    predicate Accepts(h: Handoff, m: Message, now: U64) {
      h.activation == m.activation && h.child && now <= h.deadline && h.prepared && !h.accepted
    }

    /** One control frame; each kind can bring about its own change only, and only for its activation. */
    method Action(m: Message, now: U64) returns (ok: bool)
      requires Valid() && appControl
      modifies `handoff
      ensures Valid()
      ensures ok ==> (m.kind == 2 || m.kind == 4 || m.kind == 6 || m.kind == 8)
                     && handoff.Some? && handoff.value.activation == m.activation
      ensures m.kind == 4 ==> handoff == old(handoff)
                              || (old(handoff).Some? && handoff == Some(old(handoff).value.(authorized := true)))
      ensures m.kind == 6 ==> handoff == old(handoff)
                              || (old(handoff).Some? && old(handoff).value.prepared
                                  && handoff == Some(old(handoff).value.(accepted := true)))
      ensures ok && m.kind == 4 ==> handoff.value.authorized && !old(handoff).value.authorized
      ensures ok && m.kind == 6 ==> handoff.value.accepted && !old(handoff).value.accepted
      ensures ok && m.kind == 8 ==> !handoff.value.child && !handoff.value.authorized
      ensures m.kind != 2 && m.kind != 4 && m.kind != 6 && m.kind != 8 ==> handoff == old(handoff) && !ok
      // The proof loses its child to a withdrawal only, and exactly if that loses the child.
      ensures old(handoff).Some? ==> handoff.Some?
      ensures old(handoff).None? && handoff.Some? ==> !handoff.value.authorized
      ensures old(handoff).Some? && Backed(old(handoff).value) ==>
                (!Backed(handoff.value) <==> old(handoff).value.authorized && LosesChild(old(handoff).value, m))
      ensures old(handoff).Some? && LosesChild(old(handoff).value, m) ==>
                !ok && handoff == Some(old(handoff).value.(child := false, lost := true))
      ensures m.kind == 4 ==>
                (ok <==> && old(handoff).Some? && old(handoff).value.activation == m.activation && old(handoff).value.child
                         && now <= old(handoff).value.deadline && m.written && !old(handoff).value.authorized)
      ensures m.kind == 6 ==>
                (ok <==> && old(handoff).Some? && old(handoff).value.activation == m.activation && old(handoff).value.child
                         && now <= old(handoff).value.deadline && m.replied
                         && old(handoff).value.prepared && !old(handoff).value.accepted)
      ensures m.kind == 8 ==>
                (ok <==> && (old(handoff).Some? ==> old(handoff).value.activation == m.activation && !old(handoff).value.oldReaped)
                         && (old(handoff).Some? && old(handoff).value.child ==> Stopped(m.attempt).Collected?)
                         && m.replied)
      ensures m.kind == 6 && old(handoff).Some? && Accepts(old(handoff).value, m, now) ==>
                handoff == Some(old(handoff).value.(accepted := true)) && ok == m.replied
    {
      hide Ascending, EndingOf;
      if m.kind == 2 {
        ok := Start(m, now);
        return;
      }
      if handoff.None? && m.kind == 8 { handoff := Some(Fresh(m.activation, 0)); }
      if handoff.None? || handoff.value.activation != m.activation { return false; }
      if m.kind == 8 {
        ok := Withdraw(m.attempt, m.replied);
        return;
      }
      if !handoff.value.child || now > handoff.value.deadline { return false; }
      if m.kind == 4 {
        ok := Authorize(m.written);
      } else if m.kind == 6 {
        ok := Accept(m.replied);
      } else {
        ok := false;
      }
    }

    /** A frame is dispatched: it is complete and has not taken too long. */
    predicate Dispatched(control: Option<Reception>, now: U64)
      reads this
    {
      appControl && control.Some? && control.value.Complete?
      && now <= (if pending then pendingDeadline else After(now))
    }

    /** One receive on the control socket; the reassembly of frames is the module Frames. */
    method Receive(now: U64, r: Reception) returns (ok: bool)
      requires Valid() && appControl
      modifies `handoff, `pending, `pendingDeadline
      ensures Valid()
      ensures pending && !old(pending) ==> pendingDeadline == (now + 5000) % 0x1_0000_0000_0000_0000
      ensures pending && old(pending) ==> pendingDeadline == old(pendingDeadline)
      ensures !old(Dispatched(Some(r), now)) ==> handoff == old(handoff)
      ensures old(handoff).Some? ==> handoff.Some?
      ensures old(handoff).None? && handoff.Some? ==> !handoff.value.authorized
      ensures old(handoff).Some? && Backed(old(handoff).value) ==>
                (!Backed(handoff.value) <==>
                   && old(Dispatched(Some(r), now))
                   && old(handoff).value.authorized && LosesChild(old(handoff).value, r.message))
      ensures old(handoff).Some? && old(Dispatched(Some(r), now)) && LosesChild(old(handoff).value, r.message) ==>
                !ok && handoff == Some(old(handoff).value.(child := false, lost := true))
      ensures old(handoff).Some? && old(Dispatched(Some(r), now)) && r.message.kind == 6
              && Accepts(old(handoff).value, r.message, now) ==>
                handoff == Some(old(handoff).value.(accepted := true)) && ok == r.message.replied
    {
      hide Valid, Backed, LosesChild;
      if r.Nothing? { return true; }
      if !pending { pendingDeadline := After(now); }
      if now > pendingDeadline { return false; }
      pending := true;
      match r
      case Refused => ok := false;
      case Partial => ok := true;
      case Complete(message) =>
        ok := Action(message, now);
        pending := false;
    }

    /** The cleanup grant may not reach further than the original grant and its fixed tail. */
    predicate CleanupGrant(h: Handoff, now: U64) {
      now < h.cleanupDeadline && h.deadline <= UINT64_MAX - CLEANUP_TAIL
      && h.cleanupDeadline <= h.deadline + CLEANUP_TAIL
    }

    /** The coordinator's acceptance record, read to its end: it prepares an authorized handoff. */
    method Acceptance(now: U64, reading: Reading) returns (ok: bool)
      requires Valid()
      modifies `handoff
      ensures Valid()
      ensures handoff == old(handoff)
              || (handoff.Some? && old(handoff).Some? && old(handoff).value.authorized && !old(handoff).value.prepared
                  && reading.Grant?
                  && var granted := old(handoff).value.(cleanupDeadline := reading.cleanupDeadline);
                     handoff.value == granted || handoff.value == granted.(prepared := true, response := false))
      ensures handoff.Some? && handoff.value.prepared && !old(handoff).value.prepared ==>
                && now <= handoff.value.deadline && now < handoff.value.cleanupDeadline
                && handoff.value.cleanupDeadline <= handoff.value.deadline + 600000 <= UINT64_MAX
      ensures old(handoff).Some? && old(handoff).value.authorized && !old(handoff).value.prepared
              && now <= old(handoff).value.deadline && reading.Grant? && reading.replied
              && now < reading.cleanupDeadline <= old(handoff).value.deadline + 600000 <= UINT64_MAX ==>
                ok && handoff.Some? && handoff.value.prepared
      ensures ok && handoff.Some? && handoff.value.prepared && !old(handoff).value.prepared && reading.Grant? ==>
                handoff.value.cleanupDeadline == reading.cleanupDeadline
    {
      if handoff.None? || !handoff.value.authorized || handoff.value.prepared || now > handoff.value.deadline {
        return false;
      }
      match reading
      case Incomplete(answer) => ok := answer;
      case Mismatch => ok := false;
      case Grant(cleanupDeadline, replied) =>
        handoff := Some(handoff.value.(cleanupDeadline := cleanupDeadline));
        if !CleanupGrant(handoff.value, now) { return false; }
        handoff := Some(handoff.value.(prepared := true, response := false));
        ok := replied;
    }

    // ----------------------------------------------------------------- the old side

    /**
     The old application is gone.  An accepted handoff with its child gets its kind-2 envelope,
     anything else is stopped.
     */
    method OldReaped(attempt: Attempt, sent: bool) returns (outcome: int)
      requires Valid() && collected && released == []
      modifies `handoff, `appControl, `scope, `supervisorOpen, `released
      ensures Valid()
      ensures outcome == 2 ==> |released| == 1 && handoff == Some(released[0]) && released[0].oldReaped
      ensures outcome == 2 ==> !supervisorOpen
      ensures outcome == 2 <==> sent && old(handoff).Some? && old(handoff).value.accepted && old(handoff).value.child
      ensures outcome == 1 ==> released == []
      ensures outcome == 1 <==>
                && !(old(handoff).Some? && old(handoff).value.accepted && old(handoff).value.child)
                && (old(handoff).None? || !old(handoff).value.child || Stopped(attempt).Collected?)
      ensures 0 <= outcome <= 2
    {
      if handoff.None? || !handoff.value.accepted || !handoff.value.child {
        var stopped := Stop(attempt);
        return if stopped then 1 else 0;
      }
      handoff := Some(handoff.value.(oldReaped := true));
      supervisorOpen, scope, appControl := false, false, false;
      released := [handoff.value];
      outcome := if sent then 2 else 0;
    }

    /** The coordinator has exited: 2 means that it completed a handoff that was released to it. */
    method ChildExited(looks: seq<Look>, replied: bool, clean: bool, closing: Attempt) returns (outcome: int)
      requires Valid()
      modifies `handoff, `appControl, `pending
      ensures Valid()
      ensures outcome == 2 ==> handoff.Some? && handoff.value.oldReaped && handoff.value.resolved && collected
      ensures outcome == 2 ==> released != [] && released[0].activation == handoff.value.activation
      ensures outcome != 0 ==>
                && old(handoff).Some? && old(handoff).value.child && EndingOf(looks).Collected?
                && handoff.Some? && !handoff.value.authorized
      ensures old(handoff).Some? && old(handoff).value.child && Backed(old(handoff).value) ==>
                && handoff.Some?
                && (!Backed(handoff.value) <==> old(handoff).value.authorized && EndingOf(looks) == Lost)
      ensures old(handoff).Some? && old(handoff).value.child && EndingOf(looks).Collected? && old(handoff).value.oldReaped ==>
                outcome == (if clean then 2 else 0) && appControl == old(appControl)
      ensures old(handoff).Some? && old(handoff).value.child && EndingOf(looks).Collected? && !old(handoff).value.oldReaped ==>
                outcome == 1 && handoff.Some? && !handoff.value.child && (appControl <==> old(appControl) && replied)
    {
      if handoff.None? || !handoff.value.child { return 0; }
      var h := handoff.value;
      handoff := Some(if EndingOf(looks).Collected? then Cleared(h) else AfterWait(h, EndingOf(looks)));
      if !EndingOf(looks).Collected? { return 0; }
      if h.oldReaped {
        handoff := Some(handoff.value.(resolved := clean));
        return if clean then 2 else 0;
      }
      if appControl && !replied {
        var closed := CloseApp(closing);
        return if closed then 1 else 0;
      }
      outcome := 1;
    }

    /** The exit of the supervisor counts only with its zero-live reply and a clean status. */
    method CollectSupervisor(zeroLive: bool, looks: seq<Look>) returns (ok: bool)
      requires Valid() && supervisor
      modifies `supervisor, `collected
      ensures Valid()
      ensures ok <==> zeroLive && EndingOf(looks) == Collected(Exited(0))
      ensures collected == ok
    {
      if !zeroLive { return false; }
      if !EndingOf(looks).Kept? { supervisor := false; }
      if EndingOf(looks) != Collected(Exited(0)) { return false; }
      collected := true;
      ok := true;
    }

    // --------------------------------------------------------------------- deadlines

    /**
     A coordinator is kept until its start deadline, and once its handoff has been accepted until
     its cleanup deadline; then it is stopped.
     */
    method Expired(now: U64, closing: Attempt, stopping: Attempt, replied: bool) returns (ok: bool)
      requires Valid()
      modifies `handoff, `appControl, `pending
      ensures Valid()
      ensures !(old(pending) && now >= pendingDeadline)
              && (old(handoff).None? || !old(handoff).value.child
                  || (!old(handoff).value.accepted && now < old(handoff).value.deadline)
                  || (old(handoff).value.accepted && now < old(handoff).value.cleanupDeadline)) ==>
                ok && handoff == old(handoff) && appControl == old(appControl) && pending == old(pending)
      ensures ok && pending ==> now < pendingDeadline
      ensures ok && handoff.Some? && handoff.value.child && !handoff.value.accepted ==> now < handoff.value.deadline
      ensures ok && handoff.Some? && handoff.value.child && handoff.value.accepted ==> now < handoff.value.cleanupDeadline
      ensures old(handoff).Some? && old(handoff).value.child && !(old(pending) && now >= pendingDeadline)
              && ((!old(handoff).value.accepted && now >= old(handoff).value.deadline)
                  || (old(handoff).value.accepted && now >= old(handoff).value.cleanupDeadline)) ==>
                && handoff == Some(AfterStop(old(handoff).value, stopping)) && pending == old(pending)
                && (ok <==> Stopped(stopping).Collected? && !old(handoff).value.oldReaped && (!appControl || replied))
      ensures ok && old(HeadSound(Now())) ==> HeadSound(Now())
      ensures ok && old(handoff).Some? && Backed(old(handoff).value) ==> handoff.Some? && Backed(handoff.value)
      ensures old(handoff).None? ==> handoff.None?
      ensures appControl ==> old(appControl)
    {
      if pending && now >= pendingDeadline {
        ok := CloseApp(closing);
        if !ok { return; }
      }
      if handoff.None? || !handoff.value.child { return true; }
      var deadline := if handoff.value.accepted then handoff.value.cleanupDeadline else handoff.value.deadline;
      if now < deadline { return true; }
      var oldReaped := handoff.value.oldReaped;
      var stopped := Stop(stopping);
      if !stopped || oldReaped { return false; }
      ok := !appControl || replied;
    }

    /** Every deadline that is running; the largest number stands for none. */
    ghost function LiveDeadlines(stopping: bool, stopDeadline: U64): set<U64>
      reads this
    {
      (if stopping then {stopDeadline} else if persistent && !committed then {commitDeadline} else {})
      + (if pending && pendingDeadline < UINT64_MAX then {pendingDeadline} else {})
      + (if handoff.Some? && handoff.value.child && !handoff.value.accepted && handoff.value.deadline < UINT64_MAX
         then {handoff.value.deadline} else {})
      + (if handoff.Some? && handoff.value.child && handoff.value.accepted && handoff.value.cleanupDeadline < UINT64_MAX
         then {handoff.value.cleanupDeadline} else {})
    }

    /** The earliest of the running deadlines, if there is one. */
    method ChooseBound(stopping: bool, stopDeadline: U64) returns (bounded: bool, bound: U64)
      ensures bounded <==> LiveDeadlines(stopping, stopDeadline) != {}
      ensures bounded ==> bound in LiveDeadlines(stopping, stopDeadline)
      ensures bounded ==> forall d | d in LiveDeadlines(stopping, stopDeadline) :: bound <= d
    {
      bound := if stopping then stopDeadline else commitDeadline;
      bounded := stopping || (persistent && !committed);
      var candidate := UINT64_MAX;
      if pending { candidate := pendingDeadline; }
      if handoff.Some? && handoff.value.child {
        var active := if handoff.value.accepted then handoff.value.cleanupDeadline else handoff.value.deadline;
        if active < candidate { candidate := active; }
      }
      if candidate != UINT64_MAX && (!bounded || candidate < bound) {
        bound, bounded := candidate, true;
      }
    }

    /** Expired deadlines, and the end of the time to commit. */
    method Begin(now: U64, wasStopping: bool, oldStop: U64, closing: Attempt, attempt: Attempt, replied: bool)
      returns (alive: bool, stopping: bool, stopDeadline: U64)
      requires Valid()
      modifies `handoff, `appControl, `pending
      ensures Valid()
      ensures wasStopping ==> stopping && stopDeadline == oldStop
      ensures alive && !wasStopping ==> (stopping <==> persistent && !committed && now >= commitDeadline)
      ensures alive && stopping && !wasStopping ==> stopDeadline == (now + 5000) % 0x1_0000_0000_0000_0000
      ensures alive ==>
                (AllLater(now, stopping, stopDeadline) <==> (wasStopping || !stopping || now <= UINT64_MAX - 5000))
      ensures alive && old(HeadSound(Now())) ==> HeadSound(Now())
      ensures alive && old(handoff).Some? && Backed(old(handoff).value) ==> handoff.Some? && Backed(handoff.value)
      ensures old(handoff).None? ==> handoff.None?
      ensures !(old(pending) && now >= pendingDeadline) && old(handoff).Some? && old(handoff).value.child
              && ((!old(handoff).value.accepted && now < old(handoff).value.deadline)
                  || (old(handoff).value.accepted && now < old(handoff).value.cleanupDeadline)) ==>
                handoff == old(handoff) && pending == old(pending) && (!wasStopping ==> alive)
      ensures !(old(pending) && now >= pendingDeadline) && old(handoff).Some? && old(handoff).value.child
              && ((!old(handoff).value.accepted && now >= old(handoff).value.deadline)
                  || (old(handoff).value.accepted && now >= old(handoff).value.cleanupDeadline)) ==>
                && handoff == Some(AfterStop(old(handoff).value, attempt)) && pending == old(pending)
                && (alive ==> Stopped(attempt).Collected?)
                && (!wasStopping && Stopped(attempt).Collected? && !old(handoff).value.oldReaped && (!appControl || replied) ==>
                      alive)
      ensures old(handoff).None? && !old(pending) && !wasStopping && persistent && !committed && now >= commitDeadline ==>
                alive && stopping && !pending
      ensures alive && wasStopping ==> now < oldStop <= now + 2147483647
      ensures old(handoff).None? && !old(pending) && !wasStopping ==> alive && !pending
    {
      hide Valid, Backed, HeadSound, AfterStop, Stopped, Ordered, Ascending, AllLater, LiveDeadlines;
      stopping, stopDeadline := wasStopping, oldStop;
      alive := Expired(now, closing, attempt, replied);
      if !alive { return; }
      if stopping && (now >= stopDeadline || stopDeadline - now > INT_MAX) {
        alive := false;
        return;
      }
      if !stopping && persistent && !committed && now >= commitDeadline {
        stopping, stopDeadline := true, After(now);
      }
      DeadlineIsLater(now);
      AllLaterExactly(now, stopping, stopDeadline);
    }

    ghost predicate AllLater(now: U64, stopping: bool, stopDeadline: U64)
      reads this
    {
      forall d | d in LiveDeadlines(stopping, stopDeadline) :: now < d
    }

    /** What has not expired lies ahead, so the stop deadline decides. */
    lemma AllLaterExactly(now: U64, stopping: bool, stopDeadline: U64)
      requires pending ==> now < pendingDeadline
      requires handoff.Some? && handoff.value.child && !handoff.value.accepted ==> now < handoff.value.deadline
      requires handoff.Some? && handoff.value.child && handoff.value.accepted ==> now < handoff.value.cleanupDeadline
      requires !stopping && persistent && !committed ==> now < commitDeadline
      ensures AllLater(now, stopping, stopDeadline) <==> (stopping ==> now < stopDeadline)
    {
      assert stopping ==> stopDeadline in LiveDeadlines(stopping, stopDeadline);
    }

    /** The poll wakes up by each running deadline, and without one it waits for events only. */
    predicate InTime(now: U64, timeout: int, stopping: bool, stopDeadline: U64)
      reads this
    {
      && (stopping ==> 0 < timeout <= stopDeadline - now)
      && (!stopping && persistent && !committed ==> 0 < timeout <= commitDeadline - now)
      && (pending && pendingDeadline < UINT64_MAX ==> 0 < timeout <= pendingDeadline - now)
      && (handoff.Some? && handoff.value.child ==>
            && (!handoff.value.accepted && handoff.value.deadline < UINT64_MAX ==>
                  0 < timeout <= handoff.value.deadline - now)
            && (handoff.value.accepted && handoff.value.cleanupDeadline < UINT64_MAX ==>
                  0 < timeout <= handoff.value.cleanupDeadline - now))
      && (timeout == -1 ==> !stopping && !(persistent && !committed))
      && timeout >= -1
    }

    lemma TimeoutIsInTime(now: U64, timeout: int, stopping: bool, stopDeadline: U64)
      requires var live := LiveDeadlines(stopping, stopDeadline);
               if live == {} then timeout == -1
               else exists bound :: IsEarliest(bound, live) && timeout == Capped(Remaining(bound, now))
      ensures AllLater(now, stopping, stopDeadline) ==> InTime(now, timeout, stopping, stopDeadline)
    {
      var live := LiveDeadlines(stopping, stopDeadline);
      if AllLater(now, stopping, stopDeadline) && live != {} {
        var bound :| IsEarliest(bound, live) && timeout == Capped(Remaining(bound, now));
        assert now < bound;
        forall d | d in live
          ensures 0 < timeout <= d - now
        {
        }
      }
      assert stopping ==> stopDeadline in live;
      assert !stopping && persistent && !committed ==> commitDeadline in live;
    }

    /** The time to the earliest running deadline, as `poll` takes it. */
    method PollTimeout(now: U64, stopping: bool, stopDeadline: U64) returns (timeout: int)
      ensures var live := LiveDeadlines(stopping, stopDeadline);
              if live == {} then timeout == -1
              else exists bound :: IsEarliest(bound, live) && timeout == Capped(Remaining(bound, now))
    {
      hide LiveDeadlines;
      var bounded, bound := ChooseBound(stopping, stopDeadline);
      if !bounded { return -1; }
      assert IsEarliest(bound, LiveDeadlines(stopping, stopDeadline));
      timeout := Capped(Remaining(bound, now));
    }

    /**
     The head of one loop iteration.  The poll timeout is the time to the earliest running
     deadline.  All running deadlines lie in the future exactly if this iteration has not begun
     to stop on a clock reading that leaves no room for the stop deadline.
     */
    method Tick(now: U64, wasStopping: bool, oldStop: U64, closing: Attempt, attempt: Attempt, replied: bool)
      returns (alive: bool, stopping: bool, stopDeadline: U64, timeout: int)
      requires Valid()
      modifies `handoff, `appControl, `pending
      ensures Valid()
      ensures wasStopping ==> stopping && stopDeadline == oldStop
      ensures alive && !wasStopping ==> (stopping <==> persistent && !committed && now >= commitDeadline)
      ensures alive && stopping && !wasStopping ==> stopDeadline == (now + 5000) % 0x1_0000_0000_0000_0000
      ensures alive ==>
                (AllLater(now, stopping, stopDeadline) <==> (wasStopping || !stopping || now <= UINT64_MAX - 5000))
      ensures alive ==>
                var live := LiveDeadlines(stopping, stopDeadline);
                if live == {} then timeout == -1
                else exists bound :: IsEarliest(bound, live) && timeout == Capped(Remaining(bound, now))
      ensures alive && (wasStopping || !stopping || now <= UINT64_MAX - 5000) ==> InTime(now, timeout, stopping, stopDeadline)
      ensures alive && old(HeadSound(Now())) ==> HeadSound(Now())
      ensures alive && old(handoff).Some? && Backed(old(handoff).value) ==> handoff.Some? && Backed(handoff.value)
      ensures old(handoff).None? ==> handoff.None?
      ensures !(old(pending) && now >= pendingDeadline) && old(handoff).Some? && old(handoff).value.child
              && ((!old(handoff).value.accepted && now < old(handoff).value.deadline)
                  || (old(handoff).value.accepted && now < old(handoff).value.cleanupDeadline)) ==>
                handoff == old(handoff) && pending == old(pending) && (!wasStopping ==> alive)
      ensures !(old(pending) && now >= pendingDeadline) && old(handoff).Some? && old(handoff).value.child
              && ((!old(handoff).value.accepted && now >= old(handoff).value.deadline)
                  || (old(handoff).value.accepted && now >= old(handoff).value.cleanupDeadline)) ==>
                && handoff == Some(AfterStop(old(handoff).value, attempt)) && pending == old(pending)
                && (alive ==> Stopped(attempt).Collected?)
                && (!wasStopping && Stopped(attempt).Collected? && !old(handoff).value.oldReaped && (!appControl || replied) ==>
                      alive)
      ensures old(handoff).None? && !old(pending) && !wasStopping && persistent && !committed && now >= commitDeadline ==>
                alive && stopping && !pending
      ensures alive && wasStopping ==> now < oldStop <= now + 2147483647
      ensures old(handoff).None? && !old(pending) && !wasStopping ==> alive && !pending
    {
      hide Valid, Capped, IsEarliest, Backed, HeadSound, Remaining, InTime, AfterStop, Stopped, AllLater, LiveDeadlines;
      timeout := -1;
      alive, stopping, stopDeadline := Begin(now, wasStopping, oldStop, closing, attempt, replied);
      if !alive { return; }
      timeout := PollTimeout(now, stopping, stopDeadline);
      TimeoutIsInTime(now, timeout, stopping, stopDeadline);
    }

    // -------------------------------------------------------------------- the loop

    /**
     The controller's channel: its end stops an owner that has not committed, and leaves one that
     has; otherwise it carries the commit, or a request that is passed on and stops the owner.
     */
    method Controller(event: Control, deadline: U64, stopDeadline: U64)
      returns (alive: bool, stopping: bool, newDeadline: U64)
      requires Valid() && Reaped !in history && (persistent ==> committed || history == [Provisional])
      modifies `phase, `history, `committed, `controller, `scope
      ensures Valid() && old(history) <= history
      ensures alive ==> Reaped !in history && (persistent ==> committed || history == [Provisional])
      ensures stopping ==> newDeadline == deadline && !scope
      ensures !stopping ==> newDeadline == stopDeadline && scope == old(scope)
      ensures event.Ended? ==> alive && (stopping <==> !old(committed)) && (old(committed) ==> !controller)
      ensures event.Malformed? ==> !alive
      ensures event.CommitFrame? ==>
                && !stopping
                && (alive <==> persistent && !old(committed) && event.requested && event.writing.Written? && event.confirmed)
                && (alive ==> committed)
      ensures event.StopFrame? ==> (alive <==> event.forwarded) && (alive ==> stopping) && committed == old(committed)
    {
      alive, stopping, newDeadline := true, false, stopDeadline;
      match event {
        case Ended =>
          if committed { controller := false; } else { stopping, newDeadline := true, deadline; }
        case Malformed => alive := false;
        case CommitFrame(requested, writing, confirmed) =>
          alive := false;
          if persistent { alive := Commit(requested, writing, confirmed); }
        case StopFrame(forwarded) =>
          alive := forwarded;
          if alive { stopping, newDeadline := true, deadline; }
      }
      if stopping { scope := false; }
    }

    /** The control socket: a refused receive cuts the application off. */
    method ServeControl(now: U64, control: Option<Reception>, closing: Attempt) returns (alive: bool)
      requires Valid()
      modifies `handoff, `appControl, `pending, `pendingDeadline
      ensures Valid()
      ensures alive && old(HeadSound(Now())) ==> HeadSound(Now())
      ensures old(handoff).None? && handoff.Some? ==> !handoff.value.authorized
      ensures old(handoff).Some? ==> handoff.Some?
      ensures alive && old(handoff).Some? && Backed(old(handoff).value) ==>
                (!Backed(handoff.value) <==> old(LosesAccepted(control, now)))
      ensures old(LosesAccepted(control, now)) ==>
                && alive && !appControl
                && handoff == Some(old(handoff).value.(child := false, lost := true))
      ensures old(handoff).Some? && old(Dispatched(control, now)) && control.value.message.kind == 6
              && Accepts(old(handoff).value, control.value.message, now) ==>
                alive && handoff == Some(old(handoff).value.(accepted := true))
      ensures control.None? ==> alive && handoff == old(handoff) && appControl == old(appControl)
    {
      alive := true;
      if !appControl || control.None? { return; }
      var received := Receive(now, control.value);
      if !received { alive := CloseApp(closing); }
    }

    /** The one way for the owner to go on with a proof that has no child: an accepted handoff is withdrawn and lost. */
    predicate LosesAccepted(control: Option<Reception>, now: U64)
      reads this
    {
      && handoff.Some? && handoff.value.accepted && handoff.value.authorized
      && Dispatched(control, now) && LosesChild(handoff.value, control.value.message)
    }

    method ServeRecord(now: U64, reading: Reading, stopping: Attempt, replied: bool) returns (alive: bool)
      requires Valid() && handoff.Some? && handoff.value.response && HeadSound(Now())
      modifies `handoff
      ensures Valid() && handoff.Some?
      ensures alive ==> HeadSound(Now()) && Backed(handoff.value)
      ensures old(handoff).value.authorized && !old(handoff).value.prepared && now <= old(handoff).value.deadline
              && reading.Grant? && reading.replied
              && now < reading.cleanupDeadline <= old(handoff).value.deadline + 600000 <= UINT64_MAX ==>
                alive && handoff.value.prepared && handoff.value.cleanupDeadline == reading.cleanupDeadline
    {
      var accepted := Acceptance(now, reading);
      if accepted { return true; }
      var stopped := Stop(stopping);
      alive := stopped && (!appControl || replied);
    }

    /** The application's side: its control socket, the coordinator's record and the coordinator's exit. */
    method Serve(now: U64, s: Service) returns (outcome: int)
      requires Valid() && HeadSound(Now())
      modifies `handoff, `appControl, `pending, `pendingDeadline
      ensures Valid()
      ensures outcome == 2 ==> collected && released != []
      ensures outcome == 1 ==> HeadSound(Now())
      ensures outcome == 1 && old(handoff).Some? && Backed(old(handoff).value) ==>
                && handoff.Some?
                && (!Backed(handoff.value) <==> old(LosesAccepted(s.control, now)))
      ensures old(LosesAccepted(s.control, now)) && s.exit.None? ==>
                && outcome == 1 && !appControl
                && handoff == Some(old(handoff).value.(child := false, lost := true))
      ensures old(handoff).Some? && old(Dispatched(s.control, now)) && s.control.value.message.kind == 6
              && Accepts(old(handoff).value, s.control.value.message, now) && s.exit.None? ==>
                outcome == 1 && handoff == Some(old(handoff).value.(accepted := true))
      ensures s.control.None? && s.exit.None? && old(handoff).Some? && old(handoff).value.response
              && old(handoff).value.authorized && !old(handoff).value.prepared && now <= old(handoff).value.deadline
              && s.record.Some? && s.record.value.Grant? && s.record.value.replied
              && now < s.record.value.cleanupDeadline <= old(handoff).value.deadline + 600000 <= UINT64_MAX ==>
                && outcome == 1 && handoff.Some? && handoff.value.prepared
                && handoff.value.cleanupDeadline == s.record.value.cleanupDeadline
      ensures s.control.None? && s.record.None? && s.exit.Some? && old(handoff).Some? && old(handoff).value.child
              && EndingOf(s.exit.value).Collected? && old(handoff).value.oldReaped && s.clean ==>
                outcome == 2
      ensures Quiet(s) ==> outcome == 1 && handoff == old(handoff) && appControl == old(appControl)
    {
      var alive := ServeControl(now, s.control, s.closing);
      if !alive { return 0; }
      if handoff.Some? && handoff.value.response && s.record.Some? {
        alive := ServeRecord(now, s.record.value, s.stopping, s.replied);
        if !alive { return 0; }
      }
      outcome := 1;
      if handoff.Some? && s.exit.Some? {
        outcome := ChildExited(s.exit.value, s.replied, s.clean, s.closing);
      }
    }

    /** The supervisor's channel: 0 ends in failure, 1 in success, 2 means that the loop goes on. */
    method Finished(zeroLive: bool, looks: seq<Look>, attempt: Attempt, sent: bool, writing: Writing)
      returns (outcome: int)
      requires Valid() && supervisor && released == [] && Reaped !in history
      modifies `supervisor, `collected, `handoff, `appControl, `scope, `supervisorOpen, `released, `phase, `history
      ensures Valid() && old(history) <= history
      ensures outcome == 1 ==> collected && (persistent ==> Reaped in history)
      ensures outcome == 2 ==> !supervisorOpen && history == old(history) && HeadSound(Now())
      ensures Concluded(old(handoff), old(phase), Report(zeroLive, looks, attempt, sent), writing, outcome)
      ensures outcome == 2 ==> |released| == 1
    {
      var known := CollectSupervisor(zeroLive, looks);
      if !known { return 0; }
      var transferred := OldReaped(attempt, sent);
      if transferred == 0 { return 0; }
      if transferred == 2 { return 2; }
      if persistent {
        var recorded := RecordReaped(writing);
        if !recorded { return 0; }
      }
      outcome := 1;
    }

    /** The second half of an iteration: 0 ends in failure, 1 in success, 2 means that the loop goes on. */
    method Settle(now: U64, service: Service, report: Option<Report>, writing: Writing) returns (outcome: int)
      requires Valid() && HeadSound(Now()) && Reaped !in history
      requires supervisorOpen ==> supervisor && released == []
      modifies `supervisor, `collected, `handoff, `appControl, `scope, `supervisorOpen, `released, `phase, `history,
               `pending, `pendingDeadline
      ensures Valid() && old(history) <= history
      ensures outcome == 1 ==> collected && (persistent ==> Reaped in history)
      ensures outcome == 2 ==> history == old(history) && HeadSound(Now())
      ensures outcome == 2 && supervisorOpen ==> supervisor && released == []
      ensures Quiet(service) && (!old(supervisorOpen) || report.None?) ==> outcome == 2 && handoff == old(handoff)
      ensures Quiet(service) && old(supervisorOpen) && report.Some? ==>
                Concluded(old(handoff), old(phase), report.value, writing, outcome)
      ensures service.control.None? && service.record.None? && service.exit.Some? && service.clean
              && old(handoff).Some? && old(handoff).value.child && old(handoff).value.oldReaped
              && EndingOf(service.exit.value).Collected? ==>
                (outcome == 1 <==> old(phase).Some? && writing.Written?)
    {
      hide Valid, HeadSound, Backed;
      var served := Serve(now, service);
      if served == 2 {
        var recorded := RecordReaped(writing);
        return if recorded then 1 else 0;
      }
      if served != 1 { return 0; }
      if !supervisorOpen || report.None? { return 2; }
      outcome := Finished(report.value.zeroLive, report.value.looks, report.value.stop, report.value.sent, writing);
    }

    /**
     The end of the old application: with an accepted handoff whose coordinator is held the loop
     goes on once the envelope is sent; without one the owner is done once it has recorded that.
     */
    predicate Concluded(before: Option<Handoff>, record: Option<Phase>, report: Report, writing: Writing, outcome: int) {
      var reaped := report.zeroLive && EndingOf(report.looks) == Collected(Exited(0));
      var transfers := before.Some? && before.value.accepted && before.value.child;
      if reaped && transfers then outcome == (if report.sent then 2 else 0)
      else if reaped && (before.None? || !before.value.child || Stopped(report.stop).Collected?) then
        outcome == (if persistent && !(record.Some? && writing.Written?) then 0 else 1)
      else outcome == 0
    }

    /** What holds between two iterations. */
    ghost predicate Steady()
      reads this
    {
      && Valid() && HeadSound(Now())
      && (supervisorOpen ==> supervisor && released == [])
      && Reaped !in history && (persistent ==> committed || history == [Provisional])
    }

    /**
     One iteration: 0 ends the loop in failure, 1 in success, 2 means that it goes on.  A stopping
     owner ends at its deadline, and when the poll brings nothing.
     */
    method Iterate(r: Round, wasStopping: bool, oldStop: U64) returns (outcome: int, stopping: bool, stopDeadline: U64)
      requires Steady()
      modifies this
      ensures Valid() && old(history) <= history && heads == old(heads) + [old(Now())]
      ensures outcome == 1 ==> collected && (persistent ==> Reaped in history)
      ensures outcome == 2 ==> Steady()
      ensures wasStopping && (r.now >= oldStop || (!r.interrupted && (!r.ready || r.late))) ==> outcome == 0
      ensures !wasStopping && old(committed) && old(Idle()) && (r.interrupted || !r.ready) ==> outcome == 2
      ensures !wasStopping && old(committed) && old(Idle()) && !r.interrupted && r.ready
              && r.control.None? && Quiet(r.service) && r.report.Some? && old(supervisorOpen) ==>
                Concluded(None, old(phase), r.report.value, r.writing, outcome)
    {
      hide Valid, HeadSound, Ascending, LiveDeadlines, AllLater, InTime, IsEarliest, Capped, Remaining, After, AfterStop,
           Concluded;
      heads := heads + [Now()];
      var alive, timeout;
      alive, stopping, stopDeadline, timeout := Tick(r.now, wasStopping, oldStop, r.closing, r.stop, r.replied);
      outcome := 0;
      if !alive { return; }
      if r.interrupted || (!r.ready && !stopping) {
        outcome := 2;
        return;
      }
      if !r.ready || (stopping && r.late) { return; }
      if !stopping && controller && r.control.Some? && !(handoff.Some? && handoff.value.oldReaped) {
        alive, stopping, stopDeadline := Controller(r.control.value, r.deadline, stopDeadline);
        if !alive { return; }
      }
      outcome := Settle(r.now, r.service, r.report, r.writing);
    }

    /** No handoff and no unfinished frame. */
    predicate Idle()
      reads `handoff, `pending
    {
      handoff.None? && !pending
    }

    /** The owner's event loop, for any number of iterations and any events. */
    method Wait() returns (ok: bool)
      requires Valid() && supervisor && supervisorOpen && released == [] && handoff.None? && heads == []
      requires persistent ==> history == [Provisional]
      requires !persistent ==> history == []
      modifies this
      ensures Valid() && old(history) <= history
      ensures ok ==> collected && (persistent ==> Reaped in history)
      ensures forall i | 0 <= i < |heads| :: HeadSound(heads[i])
    {
      hide Valid, HeadSound;
      NoHandoffIsSound();
      var stopping, stopDeadline: U64 := false, 0;
      var rounds: nat := *;
      while rounds > 0
        invariant Steady() && old(history) <= history
        invariant forall i | 0 <= i < |heads| :: HeadSound(heads[i])
      {
        rounds := rounds - 1;
        var round: Round, outcome := *, 0;
        outcome, stopping, stopDeadline := Iterate(round, stopping, stopDeadline);
        if outcome != 2 { return outcome == 1; }
      }
      ok := false;
    }

    lemma NoHandoffIsSound()
      requires handoff.None?
      ensures HeadSound(Now())
    {
    }

    /** After a failure the owner still collects the supervisor, and only then records it as reaped. */
    method Cleanup(succeeded: bool, attempt: Attempt, zeroLive: bool, looks: seq<Look>, writing: Writing)
      requires Valid()
      modifies `handoff, `supervisor, `collected, `phase, `history
      ensures Valid() && old(history) <= history && handoff.None?
      ensures succeeded ==> history == old(history) && collected == old(collected)
      ensures !succeeded && persistent && old(supervisor) && old(phase).Some?
              && (old(handoff).None? || !old(handoff).value.child || Stopped(attempt).Collected?)
              && (old(handoff).None? || !old(handoff).value.oldReaped || old(handoff).value.resolved)
              && zeroLive && EndingOf(looks) == Collected(Exited(0)) && writing.Written? ==>
                Reaped in history
      ensures old(handoff).Some? && old(handoff).value.oldReaped && !old(handoff).value.resolved ==> history == old(history)
    {
      var resolved := handoff.None? || !handoff.value.oldReaped || handoff.value.resolved;
      var stopped := Stop(attempt);
      handoff := None;
      if succeeded || !stopped || !resolved || !persistent || !supervisor { return; }
      var known := CollectSupervisor(zeroLive, looks);
      if !known { return; }
      var recorded := RecordReaped(writing);
    }
  }

  lemma ReapedIsLast(history: seq<Phase>)
    requires Ascending(history) && Reaped in history
    ensures history[|history| - 1] == Reaped
  {
    var i :| 0 <= i < |history| && history[i] == Reaped;
    assert i < |history| - 1 ==> history[i].Rank() < history[|history| - 1].Rank();
  }

  /**
   Whole runs of an owner.  The phases it records only move forward, "reaped" is recorded only
   after the supervisor was collected with no live member, and the kind-2 envelope is sent at
   most once, to a handoff that was authorized, prepared and accepted and whose coordinator was
   still held, after the old application had been collected.  At the head of every iteration the
   proof is backed by a held child, or it belongs to an accepted handoff whose child was lost and
   whose application has been cut off.
   */
  method RunOwner(persistent: bool, commitDeadline: U64)
    returns (ok: bool, phase: Option<Phase>, history: seq<Phase>, released: seq<Handoff>, collected: bool,
             heads: seq<Head>)
    ensures Ascending(history) && phase == (if history == [] then None else Some(history[|history| - 1]))
    ensures Reaped in history ==> collected
    ensures |released| <= 1 && (released != [] ==> collected)
    ensures forall i | 0 <= i < |released| ::
              var h := released[i]; h.authorized && h.prepared && h.accepted && h.child
    ensures forall i | 0 <= i < |heads| && heads[i].handoff.Some? ::
              var h := heads[i].handoff.value;
              && (h.accepted ==> h.prepared) && (h.prepared ==> h.authorized)
              && (h.authorized ==> h.child || (h.accepted && h.lost && !heads[i].appControl))
              && (h.oldReaped && h.child ==> h.accepted)
    ensures ok ==> collected && (persistent ==> phase == Some(Reaped))
  {
    var owner := new Owner(persistent, commitDeadline);
    ok := true;
    var first: Writing, last: Writing := *, *;
    if persistent { ok := owner.Record(Provisional, first); }
    if ok { ok := owner.Wait(); }
    heads := owner.heads;
    var attempt: Attempt, zeroLive: bool, looks: seq<Look> := *, *, *;
    owner.Cleanup(ok, attempt, zeroLive, looks, last);
    phase, history, released, collected := owner.phase, owner.history, owner.released, owner.collected;
    if ok && persistent { ReapedIsLast(history); }
  }

  // -------------------------------------------------------------------- two concrete runs

  /** A frame of this kind whose calls all succeed, and whose wait, if any, is answered by `looks`. */
  function Plain(kind: nat, looks: seq<Look>): Message {
    Message(kind, 1, 100, true, true, true, true, true, Attempt(true, looks))
  }

  method CommittedOwner() returns (owner: Owner)
    ensures fresh(owner) && owner.Valid() && owner.appControl && !owner.pending
    ensures owner.committed && owner.handoff.None?
  {
    hide Owner.Valid;
    owner := new Owner(true, 1000);
    var recorded := owner.Record(Provisional, Written);
    assert owner.history == [Provisional];
    var committed := owner.Commit(true, Written, true);
  }

  /** An owner that has committed and has started a coordinator. */
  method StartedOwner() returns (owner: Owner)
    ensures fresh(owner) && owner.Valid() && owner.appControl && !owner.pending
    ensures owner.handoff == Some(Fresh(1, 100).(child := true, response := true))
    ensures owner.committed
  {
    owner := CommittedOwner();
    var started := owner.Start(Plain(2, []), 0);
  }

  /** The same owner after its application has accepted the prepared handoff. */
  method AcceptedOwner() returns (owner: Owner)
    ensures fresh(owner) && owner.Valid() && owner.appControl && !owner.pending
    ensures owner.handoff == Some(Handoff(1, true, false, true, true, true, false, false, false, 100, 150))
    ensures owner.committed
  {
    owner := StartedOwner();
    var authorized := owner.Authorize(true);
    var prepared := owner.Acceptance(0, Grant(150, true));
    var accepted := owner.Accept(true);
  }

  /**
   The withdrawal of an accepted handoff whose coordinator exits in the moment the deadline
   passes: the loop goes on with a proof that has no child.
   */
  method WithdrawnProofWitness() returns (head: Head)
    ensures HeadSound(head) && head.handoff.Some? && !Backed(head.handoff.value)
    ensures head.handoff.value.accepted && head.handoff.value.lost && !head.appControl
  {
    var owner := AcceptedOwner();
    var nothing := Attempt(false, []);
    var withdrawal := Some(Reception.Complete(Plain(8, [Look(Exited(0), true)])));
    assert owner.LosesAccepted(withdrawal, 0);
    var outcome := owner.Serve(0, Service(withdrawal, nothing, None, nothing, None, true, true));
    assert outcome == 1;
    head := owner.Now();
  }

  /** A failed clock reading makes an owner that has not committed stop at a deadline in the past. */
  method FailedClockWitness() returns (alive: bool, stopDeadline: U64)
    ensures alive && stopDeadline == BOUND - 1
  {
    var owner := new Owner(true, 1000);
    var recorded := owner.Record(Provisional, Written);
    var nothing := Attempt(false, []);
    var stopping, timeout;
    alive, stopping, stopDeadline, timeout := owner.Tick(UINT64_MAX, false, 0, nothing, nothing, true);
    assert !(forall d | d in owner.LiveDeadlines(stopping, stopDeadline) :: UINT64_MAX < d);
  }

  /** A coordinator that was just started is kept until its start deadline, an accepted one until its cleanup deadline. */
  method KeptUntilItsDeadline(now: U64) returns (started: Option<Handoff>, accepted: Option<Handoff>, timeouts: (int, int))
    requires now < 200
    ensures now < 100 ==> started.Some? && started.value.child && timeouts.0 == 100 - now
    ensures now >= 100 ==> started.Some? && !started.value.child && timeouts.0 == -1
    ensures now < 150 ==> accepted.Some? && accepted.value.child && accepted.value.accepted && timeouts.1 == 150 - now
    ensures now >= 150 ==> accepted.Some? && !accepted.value.child && timeouts.1 == -1
  {
    var kill := Attempt(true, [Look(Exited(0), false)]);
    var owner := StartedOwner();
    var first := TickOnce(owner, now, kill);
    started := owner.handoff;
    var other := AcceptedOwner();
    var second := TickOnce(other, now, kill);
    accepted, timeouts := other.handoff, (first, second);
  }

  /** One iteration of a committed owner that nothing else waits for, with a stop that succeeds. */
  method TickOnce(owner: Owner, now: U64, kill: Attempt) returns (timeout: int)
    requires owner.Valid() && owner.committed && !owner.pending && owner.handoff.Some?
    requires now < INT_MAX && kill == Attempt(true, [Look(Exited(0), false)])
    requires var h := owner.handoff.value; h.child && !h.oldReaped && h.deadline < INT_MAX && h.cleanupDeadline < INT_MAX
    modifies owner
    ensures var h := old(owner.handoff).value;
            var deadline := if h.accepted then h.cleanupDeadline else h.deadline;
            if now < deadline then owner.handoff == Some(h) && timeout == deadline - now
            else owner.handoff == Some(Cleared(h)) && timeout == -1
  {
    var alive, stopping, stopDeadline;
    alive, stopping, stopDeadline, timeout := owner.Tick(now, false, 0, kill, kill, true);
    ghost var live := owner.LiveDeadlines(stopping, stopDeadline);
    ghost var h := owner.handoff.value;
    if h.child { assert live == {if h.accepted then h.cleanupDeadline else h.deadline}; }
  }
}
