/**
 * A saved Stripe field over every run of the panel: later saves merge into the guarded write and start its time again,
 * reads confirm fields one by one, and the time limit or an account change ends it.
 */
module StripeGuards {
  import opened Text
  import opened StripeOrganization
  import opened StripeDraft

  predicate Guards(p: Panel, f: Field, value: string) {
    p.pending.Some? && f in p.pending.value.values && p.pending.value.values[f] == value
  }

  /** What a save reply leaves on the panel, if the step is one that leaves anything. */
  function SavedBy(p: Panel, e: Event): Patch {
    if e.SaveReply? then SavedValues(p, e.ticket, e.updated, e.owner) else map[]
  }

  /** When the owner's latest save was answered. */
  function NextSaved(p: Panel, e: Event, lastSaved: int): int {
    if SavedBy(p, e) != map[] then e.now else lastSaved
  }

  function RunFrom(trim: Trimmer, p: Panel, events: seq<Event>): Panel
    decreases |events|
  {
    if events == [] then p else RunFrom(trim, Apply(trim, p, events[0]), events[1..])
  }

  function LastSaved(trim: Trimmer, p: Panel, lastSaved: int, events: seq<Event>): int
    decreases |events|
  {
    if events == [] then lastSaved
    else LastSaved(trim, Apply(trim, p, events[0]), NextSaved(p, events[0], lastSaved), events[1..])
  }

  /** More than two minutes after the save. */
  predicate Late(lastSaved: int, now: int) {
    now - lastSaved > 120_000
  }

  /** The step is no read that confirms the field or comes too late, no expiry of the write and no account change. */
  predicate Spares(trim: Trimmer, p: Panel, e: Event, lastSaved: int, f: Field, value: string) {
    match e
    case ReadReply(ticket, server, now, allowed) =>
      ReadCommits(p, ticket, allowed) ==> !Late(lastSaved, now) && !Same(trim, server[f], value)
    case TimerFires(now) => !TimerExpires(trim, p, now)
    case Reset => false
    case _ => true
  }

  /** A guarded write is as old as the latest save. */
  ghost predicate AsOld(p: Panel, lastSaved: int) {
    p.pending.Some? ==> p.pending.value.savedAt == lastSaved
  }

  lemma StepKeepsAsOld(trim: Trimmer, p: Panel, e: Event, lastSaved: int)
    requires Consistent(p) && AsOld(p, lastSaved)
    ensures Consistent(Apply(trim, p, e)) && AsOld(Apply(trim, p, e), NextSaved(p, e, lastSaved))
  {
    StepKeepsConsistent(trim, p, e);
  }

  lemma ReadSparesIff(trim: Trimmer, p: Panel, e: Event, lastSaved: int, f: Field, value: string)
    requires AsOld(p, lastSaved) && e.ReadReply?
    ensures Guards(Apply(trim, p, e), f, value) <==> Guards(p, f, value) && Spares(trim, p, e, lastSaved, f, value)
  {
    ResolveField(trim, e.server, p.pending, e.now, f);
  }

  lemma SaveSpares(trim: Trimmer, p: Panel, e: Event, f: Field, value: string)
    requires e.SaveReply? && f !in SavedBy(p, e)
    ensures Guards(Apply(trim, p, e), f, value) <==> Guards(p, f, value)
  {
  }

  lemma StepSparesIff(trim: Trimmer, p: Panel, e: Event, lastSaved: int, f: Field, value: string)
    requires Consistent(p) && AsOld(p, lastSaved)
    requires f !in SavedBy(p, e)
    ensures Guards(Apply(trim, p, e), f, value) <==> Guards(p, f, value) && Spares(trim, p, e, lastSaved, f, value)
  {
    if e.ReadReply? {
      ReadSparesIff(trim, p, e, lastSaved, f, value);
    } else if e.SaveReply? {
      SaveSpares(trim, p, e, f, value);
    }
  }

  /** No save reply of the run reports the field as written. */
  ghost predicate NoneSaves(trim: Trimmer, p: Panel, events: seq<Event>, f: Field)
    decreases |events|
  {
    events != [] ==> f !in SavedBy(p, events[0]) && NoneSaves(trim, Apply(trim, p, events[0]), events[1..], f)
  }

  /** Every step of the run spares the field; saves of other fields start the time again. */
  ghost predicate Spared(trim: Trimmer, p: Panel, lastSaved: int, events: seq<Event>, f: Field, value: string)
    decreases |events|
  {
    events != [] ==>
      && Spares(trim, p, events[0], lastSaved, f, value)
      && Spared(trim, Apply(trim, p, events[0]), NextSaved(p, events[0], lastSaved), events[1..], f, value)
  }

  /** The panel guards at most this value of the field. */
  ghost predicate GuardsAtMost(p: Panel, f: Field, value: string) {
    p.pending.Some? && f in p.pending.value.values ==> p.pending.value.values[f] == value
  }

  lemma StepGuardsAtMost(trim: Trimmer, p: Panel, e: Event, f: Field, value: string)
    requires GuardsAtMost(p, f, value) && f !in SavedBy(p, e)
    ensures GuardsAtMost(Apply(trim, p, e), f, value)
  {
  }

  lemma {:induction false} GuardedOverRun(
    trim: Trimmer, p: Panel, lastSaved: int, events: seq<Event>, f: Field, value: string)
    requires Consistent(p) && AsOld(p, lastSaved) && GuardsAtMost(p, f, value) && NoneSaves(trim, p, events, f)
    ensures var p' := RunFrom(trim, p, events);
            && Consistent(p') && AsOld(p', LastSaved(trim, p, lastSaved, events)) && GuardsAtMost(p', f, value)
            && (Guards(p', f, value) <==> Guards(p, f, value) && Spared(trim, p, lastSaved, events, f, value))
    decreases |events|
  {
    if events != [] {
      var e := events[0];
      StepKeepsAsOld(trim, p, e, lastSaved);
      StepSparesIff(trim, p, e, lastSaved, f, value);
      StepGuardsAtMost(trim, p, e, f, value);
      GuardedOverRun(trim, Apply(trim, p, e), NextSaved(p, e, lastSaved), events[1..], f, value);
    }
  }

  lemma {:induction false} RunStaysConsistent(trim: Trimmer, p: Panel, lastSaved: int, events: seq<Event>)
    requires Consistent(p) && AsOld(p, lastSaved)
    ensures var p' := RunFrom(trim, p, events);
            Consistent(p') && AsOld(p', LastSaved(trim, p, lastSaved, events))
    decreases |events|
  {
    if events != [] {
      StepKeepsAsOld(trim, p, events[0], lastSaved);
      RunStaysConsistent(trim, Apply(trim, p, events[0]), NextSaved(p, events[0], lastSaved), events[1..]);
    }
  }

  lemma SaveGuards(trim: Trimmer, p: Panel, save: Event, f: Field)
    requires Consistent(p) && f in SavedBy(p, save)
    ensures var p' := Apply(trim, p, save);
            && Consistent(p') && AsOld(p', save.now)
            && Guards(p', f, SavedBy(p, save)[f]) && GuardsAtMost(p', f, SavedBy(p, save)[f])
  {
    StepKeepsConsistent(trim, p, save);
  }

  /**
   * Over every run: after the latest save that wrote a field, the field is still guarded with that value if and only if
   * no read confirmed it, none came later than the time limit after the latest save of any field, the write did not
   * expire, and the account did not change.
   */
  lemma GuardedIffSpared(trim: Trimmer, before: seq<Event>, save: Event, after: seq<Event>, f: Field)
    requires var p := RunFrom(trim, INITIAL, before);
             f in SavedBy(p, save) && NoneSaves(trim, Apply(trim, p, save), after, f)
    ensures var p := RunFrom(trim, INITIAL, before);
            var saved, value := Apply(trim, p, save), SavedBy(p, save)[f];
            Guards(RunFrom(trim, saved, after), f, value) <==> Spared(trim, saved, save.now, after, f, value)
  {
    var p := RunFrom(trim, INITIAL, before);
    RunStaysConsistent(trim, INITIAL, 0, before);
    SaveGuards(trim, p, save, f);
    GuardedOverRun(trim, Apply(trim, p, save), save.now, after, f, SavedBy(p, save)[f]);
  }

  /**
   * So over every run a saved field does not flip back: a committed read in time shows the saved value, up to trimming,
   * as long as the field was spared, the first read that confirms it included; every other read shows the server's.
   */
  lemma SavedFieldHoldsOverRun(
    trim: Trimmer, before: seq<Event>, save: Event, after: seq<Event>, f: Field,
    ticket: nat, server: Configuration, now: int)
    requires var p := RunFrom(trim, INITIAL, before);
             && f in SavedBy(p, save) && NoneSaves(trim, Apply(trim, p, save), after, f)
             && ReadCommits(RunFrom(trim, Apply(trim, p, save), after), ticket, true)
    ensures var p := RunFrom(trim, INITIAL, before);
            var saved, value := Apply(trim, p, save), SavedBy(p, save)[f];
            var read := Apply(trim, RunFrom(trim, saved, after), ReadReply(ticket, server, now, true));
            && read.baseline.Some?
            && if Spared(trim, saved, save.now, after, f, value) && !Late(LastSaved(trim, saved, save.now, after), now)
               then Same(trim, read.baseline.value[f], value)
               else read.baseline.value[f] == server[f]
  {
    var p := RunFrom(trim, INITIAL, before);
    RunStaysConsistent(trim, INITIAL, 0, before);
    SaveGuards(trim, p, save, f);
    GuardedOverRun(trim, Apply(trim, p, save), save.now, after, f, SavedBy(p, save)[f]);
    ResolveField(trim, server, RunFrom(trim, Apply(trim, p, save), after).pending, now, f);
  }
}
