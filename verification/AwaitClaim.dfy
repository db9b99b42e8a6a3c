/** The Conductor waiting for a Runner to take an offered job: one run's directories on a
    share that Runners change between any two operations and whose operations may fail,
    and the loop that ends with an execution name or leaves nothing behind. */
module AwaitClaim {
  import opened Basics
  import Text
  import opened Exchange
  import opened Scheduler

  // ----- execution names ------------------------------------------------------------------

  predicate IsAlnum(c: char) {
    'a' <= c <= 'z' || '0' <= c <= '9'
  }

  predicate ValidExecutionName(s: string) {
    && 1 <= |s| <= 64 && IsAlnum(s[0]) && IsAlnum(s[|s| - 1])
    && forall i | 0 <= i < |s| :: IsAlnum(s[i]) || s[i] == '-'
  }

  datatype Marker = Missing | Unusable | Named(name: string)

  /** The content of the marker file, if there is one. */
  function MarkerOf(claimed: Option<Files>): Option<string> {
    if claimed.Some? && ExecutionFile in claimed.value then Some(claimed.value[ExecutionFile]) else None
  }

  function MarkerIn(claimed: Option<Files>): Marker {
    if claimed.None? || ExecutionFile !in claimed.value then Missing
    else
      var name := Text.TrimSpace(claimed.value[ExecutionFile]);
      if ValidExecutionName(name) then Named(name) else Unusable
  }

  /** The name a Runner records, with the newline it ends it with, is the name that is read. */
  lemma MarkedNameIsRead(name: string, files: Files)
    requires ValidExecutionName(name)
    ensures MarkerIn(Some(files[ExecutionFile := name + "\n"])) == Named(name)
  {
    var s := name + "\n";
    assert !Text.IsSpace(name[0]) && !Text.IsSpace(name[|name| - 1]) && Text.IsSpace('\n');
    assert s[0] == name[0] && s[..|s| - 1] == name;
    assert Text.TrimSpace(s) == Text.TrimSpace(name) == name;
  }

  // ----- the share ---------------------------------------------------------------------------

  /** Nothing of the run is left in any directory. */
  predicate Gone(s: Slot) {
    s.staging.None? && s.pending.None? && s.claimed.None? && s.withdrawn.None?
  }

  /** Offered, and neither taken back nor being removed. */
  predicate Standing(s: Slot) {
    SlotOk(s) && s.publisher == Over && s.offered && !s.takenBack && !s.removing
  }

  /** Of the files put beside a listing before, those that are still there, and those that have
      appeared since and are not on what is left of it. */
  ghost function StillThere(added: set<File>, before: Option<Files>, after: Option<Files>, left: set<File>): set<File> {
    if before.None? || after.None? then {}
    else set f | f in after.value && f !in left && (f in added || f !in before.value)
  }

  class Share {
    const faulty: nat -> bool    // which operations fail for a reason of the share's own
    var ops: nat                 // the operations so far
    var slot: Slot
    // What the surroundings have done; only Fault and OthersMeanwhile write the first three.
    ghost var failed: bool       // an operation has failed
    ghost var struck: nat        // the last that did
    ghost var added: set<File>   // files Runners have put, and left, beside what a removal listed
    ghost var looks: nat         // how often the marker was looked for
    ghost var seen: Option<Files>   // what was claimed at the last look

    /** One of the operations since the given one did fail. */
    ghost predicate Struck(since: nat)
      reads this`ops, this`struck
    {
      since <= struck < ops && faulty(struck)
    }

    /** Any number of steps of the Runners. */
    method Others()
      requires SlotOk(slot)
      modifies this`slot
      ensures SlotOk(slot) && Interference(old(slot), slot)
    {
      ghost var before := slot;
      var steps: int := *;
      while steps > 0
        invariant SlotOk(slot) && Interference(before, slot)
      {
        steps := steps - 1;
        var next: Slot := *;
        if SlotOk(next) && Interference(slot, next) {
          InterferenceIsTransitive(before, slot, next);
          slot := next;
        }
      }
    }

    /** The same while a removal still has the given files of its listing to remove. A file that
        appears and is not one of them is one the removal will not find. */
    method OthersMeanwhile(left: set<File>)
      requires SlotOk(slot)
      modifies this`slot, this`added
      ensures SlotOk(slot) && Interference(old(slot), slot)
      ensures added == StillThere(old(added), old(slot).claimed, slot.claimed, left)
    {
      ghost var before := slot.claimed;
      Others();
      added := StillThere(added, before, slot.claimed, left);
    }

    /** Whether an operation fails for a reason of the share's own. */
    method Fault() returns (fails: bool)
      modifies this`failed, this`struck, this`ops
      ensures fails == faulty(old(ops)) && ops == old(ops) + 1
      ensures failed == (old(failed) || fails)
      ensures struck == if fails then old(ops) else old(struck)
    {
      fails := faulty(ops);
      if fails {
        struck := ops;
      }
      ops := ops + 1;
      failed := failed || fails;
    }

    /** A look for the name the Runner leaves in the claimed directory. */
    method ReadExecution() returns (marker: Marker)
      requires Standing(slot)
      modifies this`slot, this`ops, this`failed, this`struck, this`looks, this`seen
      ensures Standing(slot) && Interference(old(slot), slot)
      ensures looks == old(looks) + 1 && seen == slot.claimed
      ensures old(failed) ==> failed
      ensures old(ops) <= ops && (failed ==> Struck(old(ops)) || (old(failed) && struck == old(struck)))
      ensures !marker.Unusable? ==> failed == old(failed)
      ensures marker.Named? ==>
                && slot.claimed.Some? && ExecutionFile in slot.claimed.value && ValidExecutionName(marker.name)
                && marker.name == Text.TrimSpace(slot.claimed.value[ExecutionFile])
      ensures marker.Missing? ==> slot.claimed.None? || ExecutionFile !in slot.claimed.value
      ensures marker.Unusable? && !failed ==>
                && slot.claimed.Some? && ExecutionFile in slot.claimed.value
                && !ValidExecutionName(Text.TrimSpace(slot.claimed.value[ExecutionFile]))
    {
      Others();
      looks, seen := looks + 1, slot.claimed;
      var fails := Fault();
      marker := if fails then Unusable else MarkerIn(slot.claimed);
    }

    method StateOf() returns (where: Where, fails: bool)
      requires Standing(slot)
      modifies this`slot, this`ops, this`failed, this`struck
      ensures Standing(slot) && Interference(old(slot), slot)
      ensures failed == (old(failed) || fails)
      ensures old(ops) <= ops && (fails ==> Struck(old(ops)))
      ensures !fails ==> where != Absent
      ensures !fails && where == IsClaimed ==> slot.claimed.Some?
      ensures !fails && where == IsPending ==> old(slot.pending).Some?
    {
      Others();
      fails := Fault();
      if fails {
        return Absent, true;
      }
      if slot.pending.Some? {
        return IsPending, false;
      }
      Others();
      fails := Fault();
      where := if !fails && slot.claimed.Some? then IsClaimed else Absent;
    }

    /** Takes a pending job back and removes it. */
    method Withdraw() returns (withdrawn: bool, fails: bool)
      requires Standing(slot)
      modifies this`slot, this`ops, this`failed, this`struck
      ensures SlotOk(slot)
      ensures failed == (old(failed) || fails)
      ensures old(ops) <= ops && (fails ==> Struck(old(ops)))
      ensures !withdrawn && !fails ==> Standing(slot) && slot.pending.None?
      ensures withdrawn && !fails ==> Gone(slot) && slot.takenBack
      ensures !withdrawn ==> Interference(old(slot), slot)
    {
      Others();
      fails := Fault();
      if fails {
        return false, true;
      }
      if slot.pending.None? {
        return false, false;
      }
      SlotStep(slot, Exchange.Withdraw);
      slot := Next(slot, Exchange.Withdraw);
      withdrawn := true;
      while slot.withdrawn.value != map[]
        invariant SlotOk(slot) && slot.takenBack && slot.withdrawn.Some? && slot.publisher == Over
        invariant failed == old(failed) && struck == old(struck) && old(ops) <= ops
        decreases |slot.withdrawn.value.Keys|
      {
        fails := Fault();
        if fails {
          return true, true;
        }
        var f :| f in slot.withdrawn.value;
        SlotStep(slot, Discard(f));
        assert slot.withdrawn.value.Keys - {f} < slot.withdrawn.value.Keys;
        ghost var before := slot.withdrawn.value;
        slot := Next(slot, Discard(f));
        assert slot.withdrawn.value.Keys == before.Keys - {f};
      }
      SlotStep(slot, DiscardDir);
      slot := Next(slot, DiscardDir);
    }

    /** Removes the claimed directory: the files it lists, one by one, then the directory, which
        stays when it is not empty. So it is removed exactly when no Runner has meanwhile put
        a file there that is not on the list and is still there. */
    method Remove()
      requires Standing(slot) && added == {}
      modifies this`slot, this`ops, this`failed, this`struck, this`added
      ensures SlotOk(slot)
      ensures old(failed) ==> failed
      ensures old(ops) <= ops && (failed ==> Struck(old(ops)) || (old(failed) && struck == old(struck)))
      ensures !failed && old(slot.pending).None? ==> (Gone(slot) <==> added == {})
      ensures !failed && added != {} ==> slot.claimed.Some? && slot.claimed.value.Keys == added
      ensures old(slot.claimed).Some? ==> slot.claimedBy.Some?
    {
      Others();
      if slot.claimed.None? {
        return;
      }
      ghost var noPending := slot.pending.None?;
      var left := slot.claimed.value.Keys;
      while left != {}
        invariant SlotOk(slot) && slot.claimed.Some? && slot.publisher == Over && slot.offered && !slot.takenBack
        invariant noPending ==> slot.pending.None?
        invariant slot.claimed.value.Keys <= left + added && added <= slot.claimed.value.Keys && added !! left
        invariant failed == old(failed) && struck == old(struck) && old(ops) <= ops
        decreases left
      {
        var fails := Fault();
        if fails {
          return;
        }
        var f :| f in left;
        left := left - {f};
        if f in slot.claimed.value {
          SlotStep(slot, RemoveFile(f));
          slot := Next(slot, RemoveFile(f));
        }
        OthersMeanwhile(left);
      }
      if slot.claimed.value != map[] {
        return;
      }
      SlotStep(slot, RemoveDir);
      slot := Next(slot, RemoveDir);
    }
  }

  /** The removal of a claimed directory and a Runner's write can interleave so that the
      directory stays: the Runner writes after its files are gone and before it is. */
  lemma ARunnerCanOutliveARemoval(job: string, r: nat)
    ensures var s := Fresh(job).(publisher := Over, offered := true, claimedBy := Some(r),
                                 claimed := Some(map[JobFile := job]));
            && Standing(s) && Allowed(s, RemoveFile(JobFile))
            && var emptied := Next(s, RemoveFile(JobFile));
            && Allowed(emptied, RemoveDir) && Allowed(emptied, WriteTemp(ExecutionFile, "name"))
            && !Allowed(Next(emptied, WriteTemp(ExecutionFile, "name")), RemoveDir)
  {
    var s := Fresh(job).(publisher := Over, offered := true, claimedBy := Some(r), claimed := Some(map[JobFile := job]));
    var emptied := Next(s, RemoveFile(JobFile));
    assert emptied.claimed.value == map[];
    assert Temp(ExecutionFile) in Next(emptied, WriteTemp(ExecutionFile, "name")).claimed.value;
  }

  // ----- the wait ------------------------------------------------------------------------------

  datatype Outcome =
    | Taken(name: string)
    | BadMarker
    | ShareFailed
    | Disappeared
    | NotWithdrawn
    | CancelledBefore
    | NotTaken
    | NoMarker
    | CancelledWaiting

  class Launcher {
    const share: Share
    const clock: Clock
    const claimTimeout: int
    const grace: int
    const poll: int
    var cancelled: bool      // the run's context

    constructor (share: Share, clock: Clock, claimTimeout: int, grace: int, poll: int)
      ensures this.share == share && this.clock == clock
      ensures this.claimTimeout == claimTimeout && this.grace == grace && this.poll == poll
    {
      this.share, this.clock := share, clock;
      this.claimTimeout, this.grace, this.poll := claimTimeout, grace, poll;
      cancelled := false;
    }

    method CheckCancelled() returns (done: bool)
      modifies this`cancelled
      ensures done == cancelled && (old(cancelled) ==> cancelled)
    {
      var now: bool := *;
      cancelled := cancelled || now;
      done := cancelled;
    }

    /** Waits for the poll interval or the cancellation, whichever comes first. */
    method Pause() returns (woken: bool)
      modifies this`cancelled, clock
      ensures old(cancelled) ==> cancelled
      ensures old(clock.time) <= clock.time
      ensures woken ==> cancelled
      ensures !woken ==> old(clock.time) + poll <= clock.time
      ensures |clock.pauses| == |old(clock.pauses)| + if woken then 0 else 1
    {
      var done := CheckCancelled();
      var first: bool := *;
      woken := done && first;
      if woken {
        var _ := clock.Now();
      } else {
        clock.Sleep(poll);
      }
    }

    /** Takes a job that is still pending back once the run is cancelled or out of time. */
    method WithdrawIfDue(claimDeadline: int) returns (due: bool, ending: Option<Outcome>)
      requires Standing(share.slot) && !share.failed
      modifies this`cancelled, share`slot, share`ops, share`failed, share`struck, clock`time
      ensures SlotOk(share.slot) && old(clock.time) <= clock.time && (old(cancelled) ==> cancelled)
      ensures !due ==> ending.None? && share.slot == old(share.slot) && !cancelled && clock.time < claimDeadline
      ensures ending.None? ==> Standing(share.slot) && !share.failed
      ensures due && ending.None? ==> share.slot.pending.None?
      ensures ending.Some? ==> ending.value in {NotWithdrawn, CancelledBefore, NotTaken}
      ensures ending == Some(NotWithdrawn) ==> share.failed
      ensures old(share.ops) <= share.ops && (share.failed ==> share.Struck(old(share.ops)))
      ensures ending.Some? && !share.failed ==> Gone(share.slot)
      ensures ending == Some(CancelledBefore) ==> cancelled
      ensures ending == Some(NotTaken) ==> claimDeadline <= clock.time && share.slot.takenBack
    {
      ending := None;
      var done := CheckCancelled();
      var now := clock.Now();
      due := done || now >= claimDeadline;
      if due {
        var withdrawn, fails := share.Withdraw();
        if fails {
          ending := Some(NotWithdrawn);
        } else if withdrawn {
          done := CheckCancelled();
          ending := Some(if done then CancelledBefore else NotTaken);
        }
      }
    }

    /** Gives the Runner the grace period to leave its name from the first time the job is found
        claimed, then removes the job. */
    method RemoveIfDue(markerDeadline: Option<int>) returns (over: bool, deadline: Option<int>)
      requires Standing(share.slot) && !share.failed && share.added == {} && share.slot.claimed.Some?
      requires share.slot.pending.None?
      modifies share`slot, share`ops, share`failed, share`struck, share`added, clock`time
      ensures SlotOk(share.slot) && old(clock.time) <= clock.time && old(share.ops) <= share.ops
      ensures !over ==> share.slot == old(share.slot) && share.ops == old(share.ops) && !share.failed && share.added == {}
      ensures !over ==> deadline.Some?
      ensures !over && markerDeadline.Some? ==> deadline == markerDeadline && clock.time < deadline.value
      ensures !over && markerDeadline.None? ==> deadline.value == clock.time + grace
      ensures over ==> markerDeadline.Some? && markerDeadline.value <= clock.time && share.slot.claimedBy.Some?
      ensures over && !share.failed ==> (Gone(share.slot) <==> share.added == {})
      ensures over && !share.failed && share.added != {} ==>
                share.slot.claimed.Some? && share.slot.claimed.value.Keys == share.added
      ensures share.failed ==> share.Struck(old(share.ops))
    {
      over, deadline := false, markerDeadline;
      var now := clock.Now();
      if markerDeadline.None? {
        deadline := Some(now + grace);
      } else if now >= markerDeadline.value {
        share.Remove();
        over := true;
      }
    }

    /** What an outcome says about the share and the run. */
    ghost predicate Explained(outcome: Outcome, since: nat)
      reads this, share
    {
      && (outcome.Taken? ==> && Standing(share.slot) && share.slot.claimedBy.Some? && share.seen == share.slot.claimed
                             && MarkerOf(share.seen).Some? && ValidExecutionName(outcome.name)
                             && outcome.name == Text.TrimSpace(MarkerOf(share.seen).value))
      && (outcome == BadMarker && !share.failed ==>
            MarkerOf(share.seen).Some? && !ValidExecutionName(Text.TrimSpace(MarkerOf(share.seen).value)))
      && (!outcome.Taken? && outcome != BadMarker ==> MarkerOf(share.seen).None?)
      && (!outcome.Taken? && !share.failed ==> (Gone(share.slot) <==> share.added == {}))
      && (share.added != {} ==> outcome == BadMarker || outcome == NoMarker || outcome == CancelledWaiting)
      && (!share.failed && share.added != {} ==> share.slot.claimed.Some? && share.slot.claimed.value.Keys == share.added)
      && (!share.failed ==> outcome != Disappeared && outcome != ShareFailed && outcome != NotWithdrawn)
      && (share.failed ==> share.Struck(since))
      && (outcome == CancelledBefore || outcome == CancelledWaiting ==> cancelled)
      && (outcome == NotTaken ==> share.slot.takenBack)
      && (outcome == NoMarker || outcome == CancelledWaiting ==> share.slot.claimedBy.Some?)
      && (outcome == BadMarker ==> share.failed || share.slot.claimedBy.Some?)
    }

    /** After a look that found no name: the end of the wait, or a pause. */
    method Continue(claimDeadline: int, markerDeadline: Option<int>)
      returns (ending: Option<Outcome>, deadline: Option<int>)
      requires poll > 0 && Standing(share.slot) && !share.failed && share.added == {}
      requires MarkerOf(share.seen).None?
      requires markerDeadline.Some? ==> share.slot.pending.None?
      modifies this`cancelled, share`slot, share`ops, share`failed, share`struck, share`added, clock
      ensures SlotOk(share.slot) && old(clock.time) <= clock.time && old(share.ops) <= share.ops
      ensures |clock.pauses| == |old(clock.pauses)| || (ending.None? && |clock.pauses| == |old(clock.pauses)| + 1)
      ensures ending.None? ==> Standing(share.slot) && !share.failed && share.added == {}
      ensures ending.None? ==>
                || (old(share.slot.pending).Some? && share.slot.pending.None?)
                || ((old(share.slot.pending).Some? <==> share.slot.pending.Some?)
                    && MovesOn(markerDeadline, deadline, claimDeadline, old(cancelled), old(clock.time)))
      ensures ending.None? && deadline.Some? ==> share.slot.pending.None?
      ensures ending.None? ==> if markerDeadline.Some? then deadline == markerDeadline
                               else deadline.None? || old(clock.time) + grace <= deadline.value
      ensures ending.Some? ==> Explained(ending.value, old(share.ops))
      ensures ending == Some(NotTaken) ==> claimDeadline <= clock.time
      ensures ending == Some(NoMarker) ==> markerDeadline.Some? && markerDeadline.value <= clock.time
    {
      ending, deadline := None, markerDeadline;
      var where, fails := share.StateOf();
      if fails {
        return Some(ShareFailed), deadline;
      }
      match where {
        case Absent =>
          return Some(Disappeared), deadline;
        case IsPending =>
          var due;
          due, ending := WithdrawIfDue(claimDeadline);
          if ending.Some? || due {
            // Without an ending it was taken at the last moment.
            return;
          }
        case IsClaimed =>
          var over;
          over, deadline := RemoveIfDue(markerDeadline);
          if over {
            return Some(NoMarker), deadline;
          }
      }
      var woken := Pause();
      if woken && where == IsClaimed {
        share.Remove();
        ending := Some(CancelledWaiting);
      }
    }

    /** What makes the wait end: the grace period begins, the run is cancelled, or the time to
        the deadline runs down. */
    ghost predicate MovesOn(before: Option<int>, after: Option<int>, claimDeadline: int, wasCancelled: bool, start: int)
      reads this`cancelled, clock`time
    {
      || (before.None? && after.Some?)
      || (before == after && !wasCancelled && cancelled)
      || (&& before == after && wasCancelled == cancelled
          && start < (if before.Some? then before.value else claimDeadline) && start < clock.time)
    }

    /** Ends in every interleaving with the Runners. On a share that does not fail, an exit
        without a name leaves nothing of the run anywhere, even when a Runner takes the job
        between the look and the withdrawal - unless a Runner puts a file into a claimed
        directory while it is being removed that the removal has not listed and that is not
        taken away again: then, and only then, the directory stays, with just such files. And
        the offer never seems to disappear. The name is the one the Runner left, and every
        other outcome follows a look that found none, or an unusable one; every pause is
        followed by a look. */
    method AwaitClaim() returns (outcome: Outcome)
      requires poll > 0
      requires Standing(share.slot) && !share.failed && share.added == {}
      modifies this`cancelled, share, clock
      ensures SlotOk(share.slot)
      ensures |clock.pauses| - |old(clock.pauses)| < share.looks - old(share.looks)
      ensures Explained(outcome, old(share.ops))
      ensures outcome == NotTaken ==> old(clock.time) + claimTimeout <= clock.time
      ensures outcome == NoMarker ==> old(clock.time) + grace <= clock.time
    {
      var claimDeadline := clock.time + claimTimeout;
      var markerDeadline: Option<int> := None;
      while true
        invariant Standing(share.slot) && !share.failed && share.added == {}
        invariant old(clock.time) <= clock.time && old(share.ops) <= share.ops
        invariant |clock.pauses| - |old(clock.pauses)| <= share.looks - old(share.looks)
        invariant markerDeadline.Some? ==> share.slot.pending.None? && old(clock.time) + grace <= markerDeadline.value
        decreases share.slot.pending.Some?, markerDeadline.None?, !cancelled,
                  Max(0, (if markerDeadline.Some? then markerDeadline.value else claimDeadline) - clock.time)
      {
        var marker := share.ReadExecution();
        if marker.Named? {
          return Taken(marker.name);
        }
        if marker.Unusable? {
          share.Remove();
          return BadMarker;
        }
        var ending;
        ending, markerDeadline := Continue(claimDeadline, markerDeadline);
        if ending.Some? {
          return ending.value;
        }
      }
    }
  }
}
