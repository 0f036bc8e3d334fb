/** The fields and callbacks of the Stripe settings panel; every method refines one step of `StripeDraft`. */
module StripeSettingsPanel {
  import opened Text
  import opened StripeOrganization
  import D = StripeDraft

  /** A pending write as an object: an expiry timer tells its own from a later one by identity. */
  class Guard {
    const write: PendingWrite

    constructor (write: PendingWrite)
      ensures this.write == write
    {
      this.write := write;
    }
  }

  function WriteOf(guard: Guard?): Option<PendingWrite> {
    if guard == null then None else Some(guard.write)
  }

  class Panel {
    const trim: Trimmer
    var draft: Configuration
    var baseline: Option<Configuration>
    var latestServer: Option<Configuration>
    var pendingWrite: Guard?
    var expiryTimer: Guard?
    var requestGeneration: nat
    var openReads: map<nat, D.ReadTicket>
    var openSaves: map<nat, D.SaveTicket>
    var nextTicket: nat

    ghost function State(): D.Panel
      reads this
    {
      D.Panel(draft, baseline, latestServer, WriteOf(pendingWrite), WriteOf(expiryTimer), requestGeneration,
              openReads, openSaves, nextTicket)
    }

    /**
     * What every step keeps: reads that may commit know the baseline in force; the expiry is armed for the very write
     * that is pending.
     */
    ghost predicate Valid()
      reads this
    {
      D.Consistent(State()) && expiryTimer == pendingWrite
    }

    constructor (trim: Trimmer)
      ensures Valid() && this.trim == trim && State() == D.INITIAL
    {
      this.trim := trim;
      draft, baseline, latestServer := BLANK, None, None;
      pendingWrite, expiryTimer, requestGeneration := null, null, 0;
      openReads, openSaves, nextTicket := map[], map[], 0;
    }

    method Type(field: Field, text: string)
      requires Valid()
      modifies this
      ensures Valid()
      ensures State() == D.Apply(trim, old(State()), D.Keystroke(field, text))
    {
      D.StepKeepsConsistent(trim, State(), D.Keystroke(field, text));
      draft := draft[field := text];
    }

    method FetchStripeSettings() returns (ticket: nat)
      requires Valid()
      modifies this
      ensures Valid()
      ensures ticket == old(nextTicket) && State() == D.Apply(trim, old(State()), D.StartRead)
    {
      D.StepKeepsConsistent(trim, State(), D.StartRead);
      ticket := SendRead();
    }

    method SendRead() returns (ticket: nat)
      modifies this`requestGeneration, this`openReads, this`nextTicket
      ensures ticket == old(nextTicket) && State() == D.Apply(trim, old(State()), D.StartRead)
    {
      requestGeneration := requestGeneration + 1;
      ticket := nextTicket;
      openReads := openReads[ticket := D.ReadTicket(requestGeneration, baseline)];
      nextTicket := nextTicket + 1;
    }

    method ScheduleStripeOrganizationPendingExpiry()
      modifies this`expiryTimer
      ensures expiryTimer == pendingWrite
    {
      expiryTimer := null;
      if pendingWrite == null {
        return;
      }
      expiryTimer := pendingWrite;
    }

    /** A write that lost no field stays the same object. */
    method Keep(resolved: Option<PendingWrite>)
      modifies this`pendingWrite
      ensures WriteOf(pendingWrite) == resolved
      ensures resolved == old(WriteOf(pendingWrite)) ==> pendingWrite == old(pendingWrite)
    {
      if resolved.None? {
        pendingWrite := null;
      } else if pendingWrite == null || pendingWrite.write != resolved.value {
        pendingWrite := new Guard(resolved.value);
      }
    }

    method ApplyStripeSettingsRefresh(ticket: nat, server: Configuration, now: int, allowed: bool)
      returns (committed: bool)
      requires Valid()
      modifies this
      ensures Valid()
      ensures committed == D.ReadCommits(old(State()), ticket, allowed)
      ensures State() == D.Apply(trim, old(State()), D.ReadReply(ticket, server, now, allowed))
    {
      D.StepKeepsConsistent(trim, State(), D.ReadReply(ticket, server, now, allowed));
      committed := CommitRead(ticket, server, now, allowed);
    }

    method CommitRead(ticket: nat, server: Configuration, now: int, allowed: bool) returns (committed: bool)
      modifies this
      ensures old(expiryTimer == pendingWrite) ==> expiryTimer == pendingWrite
      ensures committed == D.ReadCommits(old(State()), ticket, allowed)
      ensures State() == D.Apply(trim, old(State()), D.ReadReply(ticket, server, now, allowed))
    {
      if ticket !in openReads {
        assert openReads - {ticket} == openReads;
        return false;
      }
      var request := openReads[ticket];
      openReads := openReads - {ticket};
      if !allowed || request.generation != requestGeneration {
        return false;
      }
      latestServer := Some(server);
      var resolved := ResolveStripeOrganizationHydration(trim, server, WriteOf(pendingWrite), now);
      Keep(resolved.pendingWrite);
      var base := if request.baseline.Some? then request.baseline else baseline;
      if base.Some? {
        draft := ReconcileStripeOrganizationDraft(trim, draft, base.value, resolved.configuration);
      } else {
        draft := resolved.configuration;
      }
      baseline := Some(resolved.configuration);
      ScheduleStripeOrganizationPendingExpiry();
      return true;
    }

    method RejectRead(ticket: nat)
      requires Valid()
      modifies this
      ensures Valid()
      ensures State() == D.Apply(trim, old(State()), D.ReadFails(ticket))
    {
      D.StepKeepsConsistent(trim, State(), D.ReadFails(ticket));
      openReads := openReads - {ticket};
    }

    /** The first half of saving: capture the baseline and post the dirty fields. */
    method PostStripeCredentials() returns (posted: Option<Patch>)
      requires Valid()
      modifies this
      ensures Valid()
      ensures State() == D.Apply(trim, old(State()), D.StartSave)
      ensures posted == if old(baseline).None? then None
                        else Some(DirtyPatch(trim, old(draft), old(baseline).value))
    {
      D.StepKeepsConsistent(trim, State(), D.StartSave);
      if baseline.None? {
        return None;
      }
      var patch := StripeOrganizationDirtyPatch(trim, draft, baseline.value);
      openSaves := openSaves[nextTicket := D.SaveTicket(baseline.value, patch)];
      nextTicket := nextTicket + 1;
      return Some(patch);
    }

    /** The second half: the write was accepted for the secrets named in `updated`. */
    method AcceptStripeCredentials(ticket: nat, updated: seq<string>, now: int, owner: bool)
      requires Valid()
      modifies this
      ensures Valid()
      ensures State() == D.Apply(trim, old(State()), D.SaveReply(ticket, updated, now, owner))
    {
      D.StepKeepsConsistent(trim, State(), D.SaveReply(ticket, updated, now, owner));
      CommitSave(ticket, updated, now, owner);
    }

    method CommitSave(ticket: nat, updated: seq<string>, now: int, owner: bool)
      modifies this
      ensures old(expiryTimer == pendingWrite) ==> expiryTimer == pendingWrite
      ensures State() == D.Apply(trim, old(State()), D.SaveReply(ticket, updated, now, owner))
    {
      if ticket !in openSaves {
        return;
      }
      var save := openSaves[ticket];
      openSaves := openSaves - {ticket};
      requestGeneration := requestGeneration + 1;
      if !owner {
        return;
      }
      var saved := StripeOrganizationPendingWrite(save.patch, updated, now);
      if saved.Some? {
        GuardSaved(save.baseline, saved.value);
      }
    }

    method GuardSaved(captured: Configuration, saved: PendingWrite)
      modifies this`pendingWrite, this`baseline, this`expiryTimer
      ensures WriteOf(pendingWrite) == Some(D.Guarding(old(WriteOf(pendingWrite)), saved.values, saved.savedAt))
      ensures expiryTimer == pendingWrite
      ensures baseline == Some(Overlay(captured, saved.values))
    {
      pendingWrite := new Guard(D.Guarding(WriteOf(pendingWrite), saved.values, saved.savedAt));
      baseline := Some(Overlay(captured, saved.values));
      ScheduleStripeOrganizationPendingExpiry();
    }

    method RejectSave(ticket: nat)
      requires Valid()
      modifies this
      ensures Valid()
      ensures State() == D.Apply(trim, old(State()), D.SaveFails(ticket))
    {
      D.StepKeepsConsistent(trim, State(), D.SaveFails(ticket));
      openSaves := openSaves - {ticket};
    }

    method PendingExpiryFires(now: int)
      requires Valid()
      modifies this
      ensures Valid()
      ensures State() == D.Apply(trim, old(State()), D.TimerFires(now))
    {
      D.StepKeepsConsistent(trim, State(), D.TimerFires(now));
      ExpireWrite(now);
    }

    method ExpireWrite(now: int)
      requires WriteOf(expiryTimer) == WriteOf(pendingWrite) ==> expiryTimer == pendingWrite
      requires pendingWrite != null ==> latestServer.Some?
      modifies this
      ensures old(expiryTimer == pendingWrite) ==> expiryTimer == pendingWrite
      ensures State() == D.Apply(trim, old(State()), D.TimerFires(now))
    {
      if expiryTimer == null {
        return;
      }
      var armedFor := expiryTimer;
      expiryTimer := null;
      if pendingWrite != armedFor {
        ScheduleStripeOrganizationPendingExpiry();
        return;
      }
      if latestServer.Some? {
        var base := baseline.GetOr(latestServer.value);
        var resolved := ResolveStripeOrganizationHydration(trim, latestServer.value, WriteOf(armedFor), now);
        if resolved.pendingWrite.Some? {
          ScheduleStripeOrganizationPendingExpiry();
          return;
        }
        pendingWrite := null;
        baseline := Some(resolved.configuration);
        draft := ReconcileStripeOrganizationDraft(trim, draft, base, resolved.configuration);
      }
      var _ := SendRead();
    }

    /** What the webhook-secret actions do to reads already on their way. */
    method InvalidateReads()
      requires Valid()
      modifies this
      ensures Valid()
      ensures State() == D.Apply(trim, old(State()), D.Invalidate)
    {
      D.StepKeepsConsistent(trim, State(), D.Invalidate);
      requestGeneration := requestGeneration + 1;
    }

    method ResetAccountState()
      requires Valid()
      modifies this
      ensures Valid()
      ensures State() == D.Apply(trim, old(State()), D.Reset)
    {
      D.StepKeepsConsistent(trim, State(), D.Reset);
      requestGeneration := requestGeneration + 1;
      pendingWrite, baseline, latestServer, expiryTimer := null, None, None, null;
      openReads, openSaves := map[], map[];
      draft := BLANK;
    }
  }
}
