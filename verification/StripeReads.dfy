/** Which reads of the Stripe settings commit, and what the server is taken to hold, over every run of the panel. */
module StripeReads {
  import opened Text
  import opened StripeOrganization
  import opened StripeDraft
  import opened StripeGuards

  /**
   * The account of the reads, kept from the callbacks: the one read that may still commit, and the configuration of the
   * last one that did.
   */
  datatype Reads = Reads(current: Option<nat>, last: Option<Configuration>)

  /** A callback that sends a read; an expiring write sends one too. */
  predicate SendsRead(trim: Trimmer, p: Panel, e: Event) {
    e.StartRead? || (e.TimerFires? && Apply(trim, p, e).nextTicket > p.nextTicket)
  }

  function After(trim: Trimmer, p: Panel, e: Event, r: Reads): Reads {
    match e
    case ReadReply(ticket, server, _, allowed) =>
      if r.current != Some(ticket) then r else Reads(None, if allowed then Some(server) else r.last)
    case ReadFails(ticket) => if r.current == Some(ticket) then r.(current := None) else r
    case SaveReply(ticket, _, _, _) => if ticket in p.openSaves then r.(current := None) else r
    case Invalidate => r.(current := None)
    case Reset => Reads(None, None)
    case _ => if SendsRead(trim, p, e) then r.(current := Some(p.nextTicket)) else r
  }

  function AfterAll(trim: Trimmer, p: Panel, events: seq<Event>, r: Reads): Reads
    decreases |events|
  {
    if events == [] then r else AfterAll(trim, Apply(trim, p, events[0]), events[1..], After(trim, p, events[0], r))
  }

  /** The panel's own records say the same. */
  ghost predicate Recorded(p: Panel, r: Reads) {
    && p.latestServer == r.last
    && forall t :: (t in p.openReads && p.openReads[t].generation == p.generation) <==> r.current == Some(t)
  }

  lemma StepKeepsRecorded(trim: Trimmer, p: Panel, e: Event, r: Reads)
    requires Consistent(p) && Recorded(p, r)
    ensures Recorded(Apply(trim, p, e), After(trim, p, e, r))
  {
    match e {
      case ReadReply(_, _, _, _) => ReadKeepsRecorded(trim, p, e, r);
      case TimerFires(_) => TimerKeepsRecorded(trim, p, e, r);
      case _ =>
    }
  }

  lemma ReadKeepsRecorded(trim: Trimmer, p: Panel, e: Event, r: Reads)
    requires Consistent(p) && Recorded(p, r) && e.ReadReply?
    ensures Recorded(Apply(trim, p, e), After(trim, p, e, r))
  {
    assert ReadCommits(p, e.ticket, e.allowed) <==> e.allowed && r.current == Some(e.ticket);
  }

  lemma TimerKeepsRecorded(trim: Trimmer, p: Panel, e: Event, r: Reads)
    requires Consistent(p) && Recorded(p, r) && e.TimerFires?
    ensures Recorded(Apply(trim, p, e), After(trim, p, e, r))
  {
  }

  lemma {:induction false} RunKeepsRecorded(trim: Trimmer, p: Panel, events: seq<Event>, r: Reads)
    requires Consistent(p) && Recorded(p, r)
    ensures Consistent(RunFrom(trim, p, events)) && Recorded(RunFrom(trim, p, events), AfterAll(trim, p, events, r))
    decreases |events|
  {
    if events != [] {
      StepKeepsConsistent(trim, p, events[0]);
      StepKeepsRecorded(trim, p, events[0], r);
      RunKeepsRecorded(trim, Apply(trim, p, events[0]), events[1..], After(trim, p, events[0], r));
    }
  }

  const NO_READS := Reads(None, None)

  /**
   * Over every run: a read commits if and only if its action allows it and, since it was sent, it was not answered, no
   * other read was sent, no save was answered, nothing was invalidated and the account did not change.
   */
  lemma ReadCommitsIffLatest(trim: Trimmer, events: seq<Event>, ticket: nat, allowed: bool)
    ensures ReadCommits(RunFrom(trim, INITIAL, events), ticket, allowed) <==>
            allowed && AfterAll(trim, INITIAL, events, NO_READS).current == Some(ticket)
  {
    RunKeepsRecorded(trim, INITIAL, events, NO_READS);
  }

  /** Over every run the server is taken to hold what the last committed read brought, since the last account change. */
  lemma LatestServerIsTheLastRead(trim: Trimmer, events: seq<Event>)
    ensures RunFrom(trim, INITIAL, events).latestServer == AfterAll(trim, INITIAL, events, NO_READS).last
  {
    RunKeepsRecorded(trim, INITIAL, events, NO_READS);
  }

  // ----- The end of a guarded write -----

  /**
   * Over every run: a timer that fires more than two minutes after the latest save ends the guard. The baseline is then
   * exactly what the last committed read brought, every field without an edit shows it, every edit stays, and a new
   * read is sent. A timer that fires before, with some guarded field the server does not show, changes nothing.
   */
  lemma ExpiryShowsTheServer(trim: Trimmer, events: seq<Event>, now: int, f: Field)
    requires RunFrom(trim, INITIAL, events).pending.Some?
    ensures var p := RunFrom(trim, INITIAL, events);
            var p' := Apply(trim, p, TimerFires(now));
            var server := AfterAll(trim, INITIAL, events, NO_READS).last;
            && server.Some? && p.baseline.Some?
            && (Late(LastSaved(trim, INITIAL, 0, events), now) ==>
                  && p'.pending.None? && p'.timer.None? && p'.baseline == server
                  && p'.draft[f] == (if Dirty(trim, p.draft, p.baseline.value, f) then p.draft[f] else server.value[f])
                  && p'.nextTicket == p.nextTicket + 1 && p.nextTicket in p'.openReads)
            && var waits := f in p.pending.value.values && !Same(trim, server.value[f], p.pending.value.values[f]);
               (waits && !Late(LastSaved(trim, INITIAL, 0, events), now) ==> p' == p)
  {
    var p := RunFrom(trim, INITIAL, events);
    RunKeepsRecorded(trim, INITIAL, events, NO_READS);
    RunStaysConsistent(trim, INITIAL, 0, events);
    ResolveField(trim, p.latestServer.value, p.pending, now, f);
    LateResolves(trim, p.latestServer.value, p.pending.value, now);
  }

  lemma LateResolves(trim: Trimmer, server: Configuration, pending: PendingWrite, now: int)
    ensures now - pending.savedAt > 120_000 ==> Resolve(trim, server, Some(pending), now) == Hydration(server, None)
  {
  }

  /** Over every run a pending write guards some field, and without one a timer does nothing. */
  lemma {:induction false} PendingGuardsSomething(trim: Trimmer, p: Panel, events: seq<Event>)
    requires Consistent(p) && (p.pending.Some? ==> p.pending.value.values != map[])
    ensures var p' := RunFrom(trim, p, events);
            && (p'.pending.Some? ==> p'.pending.value.values != map[])
            && (p'.pending.None? ==> forall now :: Apply(trim, p', TimerFires(now)) == p')
    decreases |events|
  {
    if events != [] {
      StepKeepsConsistent(trim, p, events[0]);
      StepGuardsSomething(trim, p, events[0]);
      PendingGuardsSomething(trim, Apply(trim, p, events[0]), events[1..]);
    }
  }

  lemma StepGuardsSomething(trim: Trimmer, p: Panel, e: Event)
    requires Consistent(p) && (p.pending.Some? ==> p.pending.value.values != map[])
    ensures var p' := Apply(trim, p, e);
            p'.pending.Some? ==> p'.pending.value.values != map[]
  {
    if e.SaveReply? && e.ticket in p.openSaves {
      var values := SavedBy(p, e);
      if values != map[] {
        var f: Field :| f in values;
        assert f in Guarding(p.pending, values, e.now).values;
      }
    }
  }

  // ----- What a save posts and keeps -----

  /** A save posts exactly the fields that differ from the baseline up to trimming, trimmed, and holds that baseline. */
  lemma SavePosts(trim: Trimmer, p: Panel, f: Field)
    requires p.baseline.Some?
    ensures var p' := Apply(trim, p, StartSave);
            && p'.nextTicket == p.nextTicket + 1 && p.nextTicket in p'.openSaves
            && p'.openSaves[p.nextTicket].baseline == p.baseline.value
            && var patch := p'.openSaves[p.nextTicket].patch;
               && (f in patch <==> trim(p.draft[f]) != trim(p.baseline.value[f]))
               && (f in patch ==> patch[f] == trim(p.draft[f]))
               && p'.draft == p.draft && p'.baseline == p.baseline && p'.pending == p.pending
  {
  }

  /** An open save stays as it was posted until its own answer or failure, or an account change. */
  lemma OpenSaveStays(trim: Trimmer, p: Panel, e: Event, ticket: nat)
    requires Consistent(p) && ticket in p.openSaves
    ensures var p' := Apply(trim, p, e);
            var over := e.Reset? || (e.SaveReply? && e.ticket == ticket) || (e.SaveFails? && e.ticket == ticket);
            && (ticket in p'.openSaves <==> !over)
            && (!over ==> p'.openSaves[ticket] == p.openSaves[ticket])
  {
  }

  /** The name under which the server reports each field. */
  lemma FieldsByName(patch: Patch, updated: seq<string>)
    ensures var kept := Acknowledged(patch, updated);
            && (0 in kept <==> 0 in patch && "STRIPE_US_LEGAL_NAME" in updated)
            && (1 in kept <==> 1 in patch && "STRIPE_US_EIN" in updated)
            && (2 in kept <==> 2 in patch && "STRIPE_US_TIME_ZONE" in updated)
            && (3 in kept <==> 3 in patch && "STRIPE_US_PHONE" in updated)
            && (4 in kept <==> 4 in patch && "STRIPE_US_WEBSITE" in updated)
            && (5 in kept <==> 5 in patch && "STRIPE_US_MAILING_ADDRESS" in updated)
            && (6 in kept <==> 6 in patch && "STRIPE_US_SIGNER_NAME" in updated)
            && (7 in kept <==> 7 in patch && "STRIPE_US_SIGNER_TITLE" in updated)
  {
  }

  /**
   * The answer to a save whose action still owns its domain guards each posted field the server names, with the value
   * posted, and shows it in the baseline, over the baseline held; from any other action, or naming none, it only
   * outdates the reads on their way. The draft never changes.
   */
  lemma SaveAnswerKeeps(trim: Trimmer, p: Panel, ticket: nat, updated: seq<string>, now: int, owner: bool, f: Field)
    requires ticket in p.openSaves
    ensures var save := p.openSaves[ticket];
            var p' := Apply(trim, p, SaveReply(ticket, updated, now, owner));
            var kept := f in save.patch && SECRET_NAMES[f] in updated;
            var any := exists g: Field :: g in save.patch && SECRET_NAMES[g] in updated;
            && p'.draft == p.draft && p'.generation == p.generation + 1 && p'.latestServer == p.latestServer
            && (owner && any ==>
                  && p'.pending.Some? && p'.timer == p'.pending && p'.pending.value.savedAt == now && p'.baseline.Some?
                  && p'.baseline.value[f] == (if kept then save.patch[f] else save.baseline[f])
                  && (kept ==> Guards(p', f, save.patch[f]))
                  && (!kept ==> forall v :: Guards(p', f, v) <==> Guards(p, f, v)))
            && (!(owner && any) ==> p'.pending == p.pending && p'.baseline == p.baseline && p'.timer == p.timer)
  {
    var values := SavedValues(p, ticket, updated, owner);
    if g: Field :| owner && g in p.openSaves[ticket].patch && SECRET_NAMES[g] in updated {
      assert g in values;
    }
    if owner && values != map[] {
      var g: Field :| g in values;
      assert g in p.openSaves[ticket].patch && SECRET_NAMES[g] in updated;
    }
  }

  /** An account change empties the form and all that was known of the server. */
  lemma ResetEmpties(trim: Trimmer, p: Panel, f: Field)
    ensures var p' := Apply(trim, p, Reset);
            && p'.draft[f] == "" && p'.baseline.None? && p'.latestServer.None? && p'.pending.None? && p'.timer.None?
            && p'.openReads == map[] && p'.openSaves == map[]
  {
  }
}
