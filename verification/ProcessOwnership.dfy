/**
 Who owns a process number: waiting for, killing and disposing of child processes.

 Once the kernel has handed over a child's exit, or has said that there is no such child, its
 number may name any other process.  `released` records that moment and `mistaken` that a later
 call was aimed at the number.  What the system calls return and when a deadline passes are
 inputs.
 */
module ProcessOwnership {
  /** What one non-blocking `waitpid` can return. */
  datatype Waited = NotYet | Exited(code: nat) | Signaled | OtherStatus | Interrupted | Failed | Stranger

  /** One round of a wait: the result of `waitpid`, and whether the deadline has passed just after it. */
  datatype Look = Look(waited: Waited, late: bool)

  predicate Terminated(waited: Waited) {
    waited.Exited? || waited.Signaled?
  }

  /** The number may not be used again after this result. */
  predicate Drops(waited: Waited) {
    Terminated(waited) || waited.Failed? || waited.Stranger?
  }

  /** What a wait comes to: the number is still held, was dropped without a confirmed exit, or the exit is known. */
  datatype Ending = Kept | Lost | Collected(status: Waited)

  /** The rounds of one wait, in order; after the last of them the deadline has passed. */
  function EndingOf(looks: seq<Look>): (ending: Ending)
    ensures ending.Collected? ==> Terminated(ending.status)
  {
    if looks == [] then Kept
    else
      var waited, late := looks[0].waited, looks[0].late;
      if late then (if Drops(waited) then Lost else Kept)
      else if Terminated(waited) then Collected(waited)
      else if Drops(waited) then Lost
      else if waited.OtherStatus? then Kept
      else EndingOf(looks[1..])
  }

  /** A round after which the wait goes on. */
  predicate Inconclusive(look: Look) {
    !look.late && (look.waited.NotYet? || look.waited.Interrupted?)
  }

  /** A wait error, a foreign process, or an exit that is consumed while the deadline passes. */
  predicate Loses(look: Look) {
    look.waited.Failed? || look.waited.Stranger? || (Terminated(look.waited) && look.late)
  }

  /** A child is lost exactly when the first conclusive round of the wait is of one of these three kinds. */
  lemma {:induction false} LostExactly(looks: seq<Look>)
    ensures EndingOf(looks) == Lost <==>
              exists k | 0 <= k < |looks| :: Loses(looks[k]) && forall j | 0 <= j < k :: Inconclusive(looks[j])
  {
    if looks != [] && Inconclusive(looks[0]) {
      LostExactly(looks[1..]);
      if EndingOf(looks[1..]) == Lost {
        var k :| 0 <= k < |looks| - 1 && Loses(looks[1..][k]) && forall j | 0 <= j < k :: Inconclusive(looks[1..][j]);
        assert Loses(looks[k + 1]);
        forall j | 0 <= j < k + 1
          ensures Inconclusive(looks[j])
        {
          if j > 0 { assert Inconclusive(looks[1..][j - 1]); }
        }
      }
      forall k | 0 <= k < |looks| && Loses(looks[k]) && forall j | 0 <= j < k :: Inconclusive(looks[j])
        ensures EndingOf(looks) == Lost
      {
        assert Loses(looks[1..][k - 1]);
        assert forall j | 0 <= j < k - 1 :: Inconclusive(looks[1..][j]);
      }
    } else if looks != [] && Loses(looks[0]) {
      assert EndingOf(looks) == Lost;
    }
  }

  /** The exit is known exactly when a round returns it in time, after rounds that found nothing yet. */
  lemma {:induction false} CollectedExactly(looks: seq<Look>, status: Waited)
    ensures EndingOf(looks) == Collected(status) <==>
              && (status.Exited? || status.Signaled?)
              && exists k | 0 <= k < |looks| ::
                   && looks[k] == Look(status, false)
                   && forall j | 0 <= j < k :: looks[j] == Look(NotYet, false) || looks[j] == Look(Interrupted, false)
  {
    if looks != [] && (looks[0] == Look(NotYet, false) || looks[0] == Look(Interrupted, false)) {
      CollectedExactly(looks[1..], status);
      if EndingOf(looks[1..]) == Collected(status) {
        var k :| 0 <= k < |looks| - 1 && looks[1..][k] == Look(status, false)
          && forall j | 0 <= j < k :: looks[1..][j] == Look(NotYet, false) || looks[1..][j] == Look(Interrupted, false);
        assert looks[k + 1] == Look(status, false);
        forall j | 0 <= j < k + 1
          ensures looks[j] == Look(NotYet, false) || looks[j] == Look(Interrupted, false)
        {
          if j > 0 { assert looks[j] == looks[1..][j - 1]; }
        }
      }
      forall k | 0 <= k < |looks| && looks[k] == Look(status, false) && (status.Exited? || status.Signaled?)
                 && forall j | 0 <= j < k :: looks[j] == Look(NotYet, false) || looks[j] == Look(Interrupted, false)
        ensures EndingOf(looks) == Collected(status)
      {
        assert looks[1..][k - 1] == Look(status, false);
        forall j | 0 <= j < k - 1
          ensures looks[1..][j] == Look(NotYet, false) || looks[1..][j] == Look(Interrupted, false)
        {
          assert looks[1..][j] == looks[j + 1];
        }
      }
    } else if looks != [] && EndingOf(looks) == Collected(status) {
      assert looks[0] == Look(status, false);
    }
  }

  /** The coordinator's and the owner's child: a number that is positive while it may be used. */
  class Child {
    var pid: int
    var status: Waited
    ghost var released: bool
    ghost var mistaken: bool
    ghost var killed: bool       // a kill has been sent

    constructor (pid: int)
      requires pid > 0
      ensures Owned() && this.pid == pid && !released && !killed
    {
      this.pid, status, released, mistaken, killed := pid, NotYet, false, false, false;
    }

    /** No call has missed its process, and none can while the number is only used when positive. */
    ghost predicate Owned()
      reads `pid, `released, `mistaken
    {
      !mistaken && (pid > 0 ==> !released)
    }

    /** The system call: `waited` is what the kernel answers. */
    method Waitpid(waited: Waited)
      modifies `status, `released, `mistaken
      ensures mistaken == (old(mistaken) || old(released))
      ensures released == (old(released) || Terminated(waited) || waited.Failed?)
      ensures status == if Terminated(waited) || waited.OtherStatus? then waited else old(status)
    {
      mistaken := mistaken || released;
      released := released || Terminated(waited) || waited.Failed?;
      if Terminated(waited) || waited.OtherStatus? { status := waited; }
    }

    method Kill()
      modifies `mistaken, `killed
      ensures mistaken == (old(mistaken) || old(released)) && killed
    {
      mistaken, killed := mistaken || released, true;
    }

    /** Ownership ends with the wait that ends it, even if the deadline passes in the same moment. */
    method WaitpidDeadline(looks: seq<Look>) returns (ok: bool)
      requires Owned()
      modifies `pid, `status, `released, `mistaken
      ensures Owned()
      ensures old(pid) <= 0 ==> !ok && pid == old(pid)
      ensures old(pid) > 0 ==>
                && (ok <==> EndingOf(looks).Collected?)
                && pid == (if EndingOf(looks).Kept? then old(pid) else -1)
                && (ok ==> released && status == EndingOf(looks).status)
    {
      if pid <= 0 { return false; }
      var round := 0;
      while round < |looks|
        invariant 0 <= round <= |looks| && Owned() && pid == old(pid) > 0
        invariant EndingOf(looks) == EndingOf(looks[round..])
      {
        assert looks[round..][0] == looks[round] && looks[round..][1..] == looks[round + 1..];
        var waited := looks[round].waited;
        Waitpid(waited);
        if Drops(waited) { pid := -1; }
        if looks[round].late { return false; }
        if Terminated(waited) { return true; }
        if waited.OtherStatus? || waited.Stranger? || waited.Failed? { return false; }
        round := round + 1;
      }
      ok := false;
    }

    method Dispose(representable: bool, looks: seq<Look>)
      requires Owned()
      modifies this
      ensures Owned()
      ensures pid == if old(pid) > 0 && representable && !EndingOf(looks).Kept? then -1 else old(pid)
      ensures old(pid) > 0 ==> killed
    {
      if pid <= 0 { return; }
      Kill();
      if representable { var waited := WaitpidDeadline(looks); }
    }

    /** The owner's stop: kill, tolerate that it is gone already, and wait. */
    method KillAndWait(signalled: bool, looks: seq<Look>) returns (ok: bool)
      requires Owned()
      modifies this
      ensures Owned()
      ensures ok <==> old(pid) <= 0 || (signalled && EndingOf(looks).Collected?)
      ensures pid == if old(pid) > 0 && signalled && !EndingOf(looks).Kept? then -1 else old(pid)
      ensures old(pid) > 0 ==> killed
      ensures ok && old(pid) > 0 ==> released
    {
      if pid <= 0 { return true; }
      Kill();
      if !signalled { return false; }
      ok := WaitpidDeadline(looks);
    }

    /** The end of a stop request: a clean exit is required, and the number is dropped either way. */
    method ConfirmStop(looks: seq<Look>) returns (ok: bool)
      requires Owned()
      modifies this
      ensures Owned()
      ensures ok <==> old(pid) > 0 && EndingOf(looks) == Collected(Exited(0))
      ensures ok ==> pid == -1 && released
    {
      ok := WaitpidDeadline(looks);
      if !ok || status != Exited(0) { return false; }
      pid := -1;
    }
  }

  /** A child of the runtime supervisor: killed through its process handle, waited for by number. */
  class Generation {
    var init: int
    var handle: bool
    var reaped: bool
    ghost var released: bool
    ghost var mistaken: bool

    constructor (init: int)
      requires init > 0
      ensures Owned() && this.init == init && handle && !reaped
    {
      this.init, handle, reaped, released, mistaken := init, true, false, false, false;
    }

    ghost predicate Owned()
      reads this
    {
      !mistaken && (init > 0 ==> !released) && (reaped ==> released && init == -1)
    }

    method Waitpid(waited: Waited)
      requires Owned() && init > 0 && !reaped
      modifies `init, `reaped, `released, `mistaken
      ensures Owned()
      ensures init == if Terminated(waited) || waited.OtherStatus? || waited.Failed? then -1 else old(init)
      ensures reaped == Terminated(waited)
    {
      mistaken := mistaken || released;
      released := released || Terminated(waited) || waited.Failed?;
      if Terminated(waited) || waited.OtherStatus? {
        init, reaped := -1, Terminated(waited);
      } else if waited.Failed? {
        init := -1;
      }
    }

    /** Success means that this very call has collected the exit, in time. */
    method WaitOwnedInit(looks: seq<Look>) returns (ok: bool)
      requires Owned()
      modifies this
      ensures Owned() && handle == old(handle)
      ensures ok ==> reaped && !old(reaped) && released
      ensures ok <==> !old(reaped) && old(init) > 0 && exists k | 0 <= k < |looks| ::
                        Terminated(looks[k].waited) && !looks[k].late && forall j | 0 <= j < k :: Waits(looks[j])
      ensures init == -1 || init == old(init)
      ensures reaped <==> old(reaped) || (old(init) > 0 && exists k | 0 <= k < |looks| ::
                            Terminated(looks[k].waited) && forall j | 0 <= j < k :: Waits(looks[j]))
    {
      if reaped || init <= 0 { return false; }
      var round := 0;
      while round < |looks|
        invariant 0 <= round <= |looks|
        invariant Owned() && init == old(init) > 0 && !reaped && handle == old(handle)
        invariant forall j | 0 <= j < round :: Waits(looks[j])
      {
        var waited := looks[round].waited;
        Waitpid(waited);
        if looks[round].late { return false; }
        if Terminated(waited) || waited.OtherStatus? { return reaped; }
        if waited.Failed? { return false; }
        round := round + 1;
      }
      ok := false;
    }

    method Clear(looks: seq<Look>)
      requires Owned()
      modifies this
      ensures Owned() && !handle
      ensures reaped <==> old(reaped) || (old(init) > 0 && old(handle) && exists k | 0 <= k < |looks| ::
                            Terminated(looks[k].waited) && forall j | 0 <= j < k :: Waits(looks[j]))
    {
      if !reaped && init > 0 && handle { var waited := WaitOwnedInit(looks); }
      handle := false;
    }
  }

  /** A round after which the supervisor's wait goes on. */
  predicate Waits(look: Look) {
    !look.late && !Terminated(look.waited) && !look.waited.OtherStatus? && !look.waited.Failed?
  }

  // -------------------------------------------------------------------- any use of it

  datatype Use =
    | Wait(looks: seq<Look>) | Stop(signalled: bool, looks: seq<Look>) | Confirm(looks: seq<Look>)
    | GiveUp(representable: bool, looks: seq<Look>)

  /** Whatever is called in whatever order and answered however, no call is aimed at a released number. */
  method AnyUse(child: Child, uses: seq<Use>)
    requires child.Owned()
    modifies child
    ensures child.Owned() && !child.mistaken
  {
    for i := 0 to |uses|
      invariant child.Owned()
    {
      match uses[i]
      case Wait(looks) => var ok := child.WaitpidDeadline(looks);
      case Stop(signalled, looks) => var ok := child.KillAndWait(signalled, looks);
      case Confirm(looks) => var ok := child.ConfirmStop(looks);
      case GiveUp(representable, looks) => child.Dispose(representable, looks);
    }
  }
}
