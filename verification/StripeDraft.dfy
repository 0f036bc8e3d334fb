/**
 * The Stripe organization draft while reads, saves and the expiry timer race: the fields the panel holds,
 * one step per browser callback, and the ledger of the owner's edits that the steps refine.
 */
module StripeDraft {
  import opened Text
  import opened StripeOrganization

  datatype ReadTicket = ReadTicket(generation: nat, baseline: Option<Configuration>)
  datatype SaveTicket = SaveTicket(baseline: Configuration, patch: Patch)

  datatype Panel = Panel(
    draft: Configuration,
    baseline: Option<Configuration>,
    latestServer: Option<Configuration>,
    pending: Option<PendingWrite>,
    timer: Option<PendingWrite>,
    generation: nat,
    openReads: map<nat, ReadTicket>,
    openSaves: map<nat, SaveTicket>,
    nextTicket: nat)

  const INITIAL := Panel(BLANK, None, None, None, None, 0, map[], map[], 0)

  /** `allowed` and `owner` say whether the action that made the call still owns its domain. */
  datatype Event =
    | Keystroke(field: Field, text: string)
    | StartRead
    | ReadReply(ticket: nat, server: Configuration, now: int, allowed: bool)
    | ReadFails(ticket: nat)
    | StartSave
    | SaveReply(ticket: nat, updated: seq<string>, now: int, owner: bool)
    | SaveFails(ticket: nat)
    | TimerFires(now: int)
    | Invalidate
    | Reset

  // ----- One step per callback -----

  function Typed(p: Panel, field: Field, text: string): Panel {
    p.(draft := p.draft[field := text])
  }

  function ReadStarted(p: Panel): Panel {
    p.(generation := p.generation + 1,
       openReads := p.openReads[p.nextTicket := ReadTicket(p.generation + 1, p.baseline)],
       nextTicket := p.nextTicket + 1)
  }

  predicate ReadCommits(p: Panel, ticket: nat, allowed: bool) {
    ticket in p.openReads && allowed && p.openReads[ticket].generation == p.generation
  }

  function ReadReplied(trim: Trimmer, p: Panel, ticket: nat, server: Configuration, now: int, allowed: bool): Panel {
    var closed := p.(openReads := p.openReads - {ticket});
    if !ReadCommits(p, ticket, allowed) then closed
    else
      var captured := p.openReads[ticket].baseline;
      var base := if captured.Some? then captured else p.baseline;
      var resolved := Resolve(trim, server, p.pending, now);
      closed.(
        latestServer := Some(server),
        pending := resolved.pendingWrite,
        timer := resolved.pendingWrite,
        baseline := Some(resolved.configuration),
        draft := if base.None? then resolved.configuration
                 else Reconcile(trim, p.draft, base.value, resolved.configuration))
  }

  function SaveStarted(trim: Trimmer, p: Panel): Panel {
    if p.baseline.None? then p
    else
      var ticket := SaveTicket(p.baseline.value, DirtyPatch(trim, p.draft, p.baseline.value));
      p.(openSaves := p.openSaves[p.nextTicket := ticket], nextTicket := p.nextTicket + 1)
  }

  /** The values a save reply leaves on the panel; empty when the reply commits nothing. */
  function SavedValues(p: Panel, ticket: nat, updated: seq<string>, owner: bool): Patch {
    if ticket in p.openSaves && owner then Acknowledged(p.openSaves[ticket].patch, updated) else map[]
  }

  /** The guard after a save: earlier guarded values stay, and the time to live starts again for all of them. */
  function Guarding(pending: Option<PendingWrite>, values: Patch, now: int): PendingWrite {
    PendingWrite(if pending.Some? then pending.value.values + values else values, now)
  }

  function SaveReplied(p: Panel, ticket: nat, updated: seq<string>, now: int, owner: bool): Panel {
    if ticket !in p.openSaves then p
    else
      var closed := p.(openSaves := p.openSaves - {ticket}, generation := p.generation + 1);
      var values := SavedValues(p, ticket, updated, owner);
      if values == map[] then closed
      else
        var pending := Some(Guarding(p.pending, values, now));
        closed.(pending := pending, timer := pending, baseline := Some(Overlay(p.openSaves[ticket].baseline, values)))
  }

  predicate TimerExpires(trim: Trimmer, p: Panel, now: int) {
    && p.timer.Some? && p.pending == p.timer && p.latestServer.Some?
    && Resolve(trim, p.latestServer.value, p.timer, now).pendingWrite.None?
  }

  function TimerFired(trim: Trimmer, p: Panel, now: int): Panel {
    if p.timer.None? then p
    else if p.pending != p.timer then p.(timer := p.pending)
    else if p.latestServer.None? then ReadStarted(p.(timer := None))
    else if !TimerExpires(trim, p, now) then p
    else
      var server := p.latestServer.value;
      var base := p.baseline.GetOr(server);
      var next := Resolve(trim, server, p.timer, now).configuration;
      ReadStarted(p.(timer := None, pending := None, baseline := Some(next),
                     draft := Reconcile(trim, p.draft, base, next)))
  }

  /** Another Stripe action succeeded: reads already on their way are outdated. */
  function Invalidated(p: Panel): Panel {
    p.(generation := p.generation + 1)
  }

  /** Calls made under the old account are rejected when they answer, so they are forgotten here. */
  function ResetPanel(p: Panel): Panel {
    p.(draft := BLANK, baseline := None, latestServer := None, pending := None, timer := None,
       generation := p.generation + 1, openReads := map[], openSaves := map[])
  }

  function Apply(trim: Trimmer, p: Panel, e: Event): Panel {
    match e
    case Keystroke(field, text) => Typed(p, field, text)
    case StartRead => ReadStarted(p)
    case ReadReply(ticket, server, now, allowed) => ReadReplied(trim, p, ticket, server, now, allowed)
    case ReadFails(ticket) => p.(openReads := p.openReads - {ticket})
    case StartSave => SaveStarted(trim, p)
    case SaveReply(ticket, updated, now, owner) => SaveReplied(p, ticket, updated, now, owner)
    case SaveFails(ticket) => p.(openSaves := p.openSaves - {ticket})
    case TimerFires(now) => TimerFired(trim, p, now)
    case Invalidate => Invalidated(p)
    case Reset => ResetPanel(p)
  }

  function Run(trim: Trimmer, events: seq<Event>): Panel {
    if events == [] then INITIAL else Apply(trim, Run(trim, events[..|events| - 1]), events[|events| - 1])
  }

  // ----- What every step keeps -----

  /**
   * Any read that may still commit was started from the baseline now in force; a guarded write always has
   * its expiry armed; and there is a baseline exactly when some server configuration was accepted.
   */
  ghost predicate Consistent(p: Panel) {
    && (forall t :: t in p.openReads ==> t < p.nextTicket && p.openReads[t].generation <= p.generation)
    && (forall t :: t in p.openReads && p.openReads[t].generation == p.generation ==>
          p.openReads[t].baseline == p.baseline)
    && (forall t, u ::
          t in p.openReads && u in p.openReads && p.openReads[t].generation == p.openReads[u].generation ==> t == u)
    && (forall t :: t in p.openSaves ==> t < p.nextTicket)
    && p.timer == p.pending
    && (p.baseline.Some? <==> p.latestServer.Some?)
    && (p.baseline.None? ==> p.pending.None? && p.openSaves == map[])
  }

  lemma StepKeepsConsistent(trim: Trimmer, p: Panel, e: Event)
    requires Consistent(p)
    ensures Consistent(Apply(trim, p, e))
  {
    match e {
      case ReadReply(ticket, server, now, allowed) => ReadKeepsConsistent(trim, p, ticket, server, now, allowed);
      case SaveReply(ticket, updated, now, owner) => SaveKeepsConsistent(p, ticket, updated, now, owner);
      case TimerFires(now) => TimerKeepsConsistent(trim, p, now);
      case _ =>
    }
  }

  lemma ReadKeepsConsistent(trim: Trimmer, p: Panel, ticket: nat, server: Configuration, now: int, allowed: bool)
    requires Consistent(p)
    ensures Consistent(ReadReplied(trim, p, ticket, server, now, allowed))
  {
  }

  lemma SaveKeepsConsistent(p: Panel, ticket: nat, updated: seq<string>, now: int, owner: bool)
    requires Consistent(p)
    ensures Consistent(SaveReplied(p, ticket, updated, now, owner))
  {
  }

  lemma TimerKeepsConsistent(trim: Trimmer, p: Panel, now: int)
    requires Consistent(p)
    ensures Consistent(TimerFired(trim, p, now))
  {
  }

  lemma {:induction false} RunIsConsistent(trim: Trimmer, events: seq<Event>)
    ensures Consistent(Run(trim, events))
  {
    if events != [] {
      RunIsConsistent(trim, events[..|events| - 1]);
      StepKeepsConsistent(trim, Run(trim, events[..|events| - 1]), events[|events| - 1]);
    }
  }

  /** Over every run: a read that commits reconciles against the baseline in force at that moment. */
  lemma CommittedReadUsesBaselineInForce(trim: Trimmer, events: seq<Event>, ticket: nat, server: Configuration,
                                         now: int)
    requires ReadCommits(Run(trim, events), ticket, true)
    ensures var p := Run(trim, events);
            var p' := Apply(trim, p, ReadReply(ticket, server, now, true));
            && p.openReads[ticket].baseline == p.baseline
            && p'.baseline.Some?
            && p'.draft == (if p.baseline.None? then p'.baseline.value
                            else Reconcile(trim, p.draft, p.baseline.value, p'.baseline.value))
  {
    RunIsConsistent(trim, events);
  }

  // ----- The owner's edits, kept without looking at the draft -----

  datatype Notice =
    | Nothing
    | Edited(field: Field, text: string)
    | Accepted(configuration: Configuration)
    | SavedFields(values: Patch)
    | SignedOut

  function NoticeOf(trim: Trimmer, p: Panel, e: Event): Notice {
    match e
    case Keystroke(field, text) => Edited(field, text)
    case ReadReply(ticket, server, now, allowed) =>
      if ReadCommits(p, ticket, allowed) then Accepted(Resolve(trim, server, p.pending, now).configuration) else Nothing
    case SaveReply(ticket, updated, _, owner) =>
      var values := SavedValues(p, ticket, updated, owner);
      if values == map[] then Nothing else SavedFields(values)
    case TimerFires(now) =>
      if TimerExpires(trim, p, now) then Accepted(Resolve(trim, p.latestServer.value, p.timer, now).configuration)
      else Nothing
    case Reset => SignedOut
    case _ => Nothing
  }

  /** The server values accepted so far, and the text of each field where the owner's wish differs from them. */
  datatype Ledger = Ledger(accepted: Option<Configuration>, edits: Patch)

  function Wish(l: Ledger, f: Field): string
    requires l.accepted.Some?
  {
    if f in l.edits then l.edits[f] else l.accepted.value[f]
  }

  function Record(trim: Trimmer, l: Ledger, n: Notice): Ledger {
    match n
    case Nothing => l
    case Edited(f, text) =>
      if l.accepted.None? then l
      else if Same(trim, text, l.accepted.value[f]) then l.(edits := l.edits - {f})
      else l.(edits := l.edits[f := text])
    case Accepted(c) =>
      Ledger(Some(c), map f | f in l.edits && !Same(trim, l.edits[f], c[f]) :: l.edits[f])
    case SavedFields(values) =>
      if l.accepted.None? then l
      else
        var c := Overlay(l.accepted.value, values);
        Ledger(Some(c), map f | f in l.edits.Keys + values.Keys && !Same(trim, Wish(l, f), c[f]) :: Wish(l, f))
    case SignedOut => Ledger(None, map[])
  }

  function Edits(trim: Trimmer, events: seq<Event>): Ledger {
    if events == [] then Ledger(None, map[])
    else
      var earlier, last := events[..|events| - 1], events[|events| - 1];
      Record(trim, Edits(trim, earlier), NoticeOf(trim, Run(trim, earlier), last))
  }

  /** The draft differs from its baseline in the ledger's edits and in nothing else. */
  ghost predicate InStep(trim: Trimmer, p: Panel, l: Ledger) {
    && p.baseline == l.accepted
    && (p.baseline.None? ==> l.edits == map[])
    && (p.baseline.Some? ==> forall f: Field :: FieldInStep(trim, p.draft, p.baseline.value, l.edits, f))
  }

  ghost predicate FieldInStep(trim: Trimmer, draft: Configuration, baseline: Configuration, edits: Patch, f: Field) {
    && (f in edits <==> Dirty(trim, draft, baseline, f))
    && (f in edits ==> Same(trim, edits[f], draft[f]))
  }

  /**
   * A save reply rebuilds the baseline from the one captured when the save began. It is undisturbed when,
   * outside the fields just saved, that captured baseline is the one in force.
   */
  ghost predicate Undisturbed(p: Panel, e: Event) {
    e.SaveReply? ==> UndisturbedSave(p, e.ticket, SavedValues(p, e.ticket, e.updated, e.owner))
  }

  ghost predicate UndisturbedSave(p: Panel, ticket: nat, values: Patch) {
    values != map[] && ticket in p.openSaves && p.baseline.Some? ==>
      Overlay(p.openSaves[ticket].baseline, values) == Overlay(p.baseline.value, values)
  }

  /** What the owner sees: the dirty fields are exactly the ledger's edits, with their texts. */
  ghost predicate DirtyAreEdits(trim: Trimmer, p: Panel, l: Ledger) {
    if p.baseline.None? then l.edits == map[]
    else forall f: Field :: FieldInStep(trim, p.draft, p.baseline.value, l.edits, f)
  }

  /** The captured baseline shows the same fields as dirty as the one in force, outside the fields just saved. */
  ghost predicate SameDirt(trim: Trimmer, p: Panel, ticket: nat, values: Patch) {
    values != map[] && ticket in p.openSaves && p.baseline.Some? ==>
      forall f: Field :: f !in values ==>
        (Dirty(trim, p.draft, p.openSaves[ticket].baseline, f) <==> Dirty(trim, p.draft, p.baseline.value, f))
  }

  /**
   * From a panel in step, one step leaves as dirty exactly the owner's edits if and only if it is not a save reply
   * whose captured baseline shows another field as dirty, or fails to, than the baseline in force.
   */
  lemma DirtyStayEditsIff(trim: Trimmer, p: Panel, l: Ledger, e: Event)
    requires Consistent(p) && InStep(trim, p, l)
    ensures DirtyAreEdits(trim, Apply(trim, p, e), Record(trim, l, NoticeOf(trim, p, e)))
            <==> (e.SaveReply? ==> SameDirt(trim, p, e.ticket, SavedValues(p, e.ticket, e.updated, e.owner)))
  {
    if e.SaveReply? {
      var values := SavedValues(p, e.ticket, e.updated, e.owner);
      var p' := SaveReplied(p, e.ticket, e.updated, e.now, e.owner);
      if values == map[] {
        SilentInStep(trim, p, l, p');
      } else {
        SavedDirtIff(trim, p, l, e.ticket, values, p');
      }
    } else {
      StepStaysInStepExactlyWhenUndisturbed(trim, p, l, e);
    }
  }

  lemma SavedDirtIff(trim: Trimmer, p: Panel, l: Ledger, ticket: nat, values: Patch, p': Panel)
    requires InStep(trim, p, l) && p.baseline.Some? && values != map[] && ticket in p.openSaves
    requires p'.draft == p.draft && p'.baseline == Some(Overlay(p.openSaves[ticket].baseline, values))
    ensures DirtyAreEdits(trim, p', Record(trim, l, SavedFields(values))) <==> SameDirt(trim, p, ticket, values)
  {
    var edits := Record(trim, l, SavedFields(values)).edits;
    var captured := p.openSaves[ticket].baseline;
    forall f: Field
      ensures FieldInStep(trim, p.draft, p'.baseline.value, edits, f) <==>
              (f !in values ==> (Dirty(trim, p.draft, captured, f) <==> Dirty(trim, p.draft, p.baseline.value, f)))
    {
      assert FieldInStep(trim, p.draft, p.baseline.value, l.edits, f);
    }
  }

  /**
   * One step also keeps the baseline at the configuration accepted last, on which later reads and saves rest, if and
   * only if it is undisturbed.
   */
  lemma StepStaysInStepExactlyWhenUndisturbed(trim: Trimmer, p: Panel, l: Ledger, e: Event)
    requires Consistent(p) && InStep(trim, p, l)
    ensures InStep(trim, Apply(trim, p, e), Record(trim, l, NoticeOf(trim, p, e))) <==> Undisturbed(p, e)
  {
    match e {
      case Keystroke(f, text) => KeystrokeInStep(trim, p, l, f, text);
      case ReadReply(ticket, server, now, allowed) => ReadInStep(trim, p, l, ticket, server, now, allowed);
      case SaveReply(ticket, updated, now, owner) => SaveInStep(trim, p, l, ticket, updated, now, owner);
      case TimerFires(now) => TimerInStep(trim, p, l, now);
      case StartSave => SilentInStep(trim, p, l, SaveStarted(trim, p));
      case StartRead => SilentInStep(trim, p, l, ReadStarted(p));
      case ReadFails(ticket) => SilentInStep(trim, p, l, p.(openReads := p.openReads - {ticket}));
      case SaveFails(ticket) => SilentInStep(trim, p, l, p.(openSaves := p.openSaves - {ticket}));
      case Invalidate => SilentInStep(trim, p, l, Invalidated(p));
      case Reset =>
    }
  }

  lemma ReadInStep(trim: Trimmer, p: Panel, l: Ledger, ticket: nat, server: Configuration, now: int, allowed: bool)
    requires InStep(trim, p, l) && Consistent(p)
    ensures var e := ReadReply(ticket, server, now, allowed);
            InStep(trim, ReadReplied(trim, p, ticket, server, now, allowed), Record(trim, l, NoticeOf(trim, p, e)))
  {
    var p' := ReadReplied(trim, p, ticket, server, now, allowed);
    if ReadCommits(p, ticket, allowed) {
      AcceptInStep(trim, p, l, Resolve(trim, server, p.pending, now).configuration, p');
    } else {
      SilentInStep(trim, p, l, p');
    }
  }

  lemma TimerInStep(trim: Trimmer, p: Panel, l: Ledger, now: int)
    requires InStep(trim, p, l) && Consistent(p)
    ensures InStep(trim, TimerFired(trim, p, now), Record(trim, l, NoticeOf(trim, p, TimerFires(now))))
  {
    var p' := TimerFired(trim, p, now);
    if TimerExpires(trim, p, now) {
      AcceptInStep(trim, p, l, Resolve(trim, p.latestServer.value, p.timer, now).configuration, p');
    } else {
      SilentInStep(trim, p, l, p');
    }
  }

  lemma SilentInStep(trim: Trimmer, p: Panel, l: Ledger, p': Panel)
    requires InStep(trim, p, l)
    requires p'.baseline == p.baseline && p'.draft == p.draft
    ensures InStep(trim, p', l)
  {
  }

  lemma KeystrokeInStep(trim: Trimmer, p: Panel, l: Ledger, f: Field, text: string)
    requires InStep(trim, p, l)
    ensures InStep(trim, Typed(p, f, text), Record(trim, l, Edited(f, text)))
  {
    if p.baseline.Some? {
      var p', l' := Typed(p, f, text), Record(trim, l, Edited(f, text));
      forall g: Field ensures FieldInStep(trim, p'.draft, p.baseline.value, l'.edits, g) {
        assert FieldInStep(trim, p.draft, p.baseline.value, l.edits, g);
      }
    }
  }

  lemma AcceptInStep(trim: Trimmer, p: Panel, l: Ledger, next: Configuration, p': Panel)
    requires InStep(trim, p, l)
    requires p'.baseline == Some(next)
    requires p'.draft == if p.baseline.None? then next else Reconcile(trim, p.draft, p.baseline.value, next)
    ensures InStep(trim, p', Record(trim, l, Accepted(next)))
  {
    var l' := Record(trim, l, Accepted(next));
    forall f: Field ensures FieldInStep(trim, p'.draft, next, l'.edits, f) {
      if p.baseline.Some? {
        assert FieldInStep(trim, p.draft, p.baseline.value, l.edits, f);
      }
    }
  }

  lemma SaveInStep(trim: Trimmer, p: Panel, l: Ledger, ticket: nat, updated: seq<string>, now: int, owner: bool)
    requires InStep(trim, p, l) && Consistent(p)
    ensures var e := SaveReply(ticket, updated, now, owner);
            InStep(trim, SaveReplied(p, ticket, updated, now, owner), Record(trim, l, NoticeOf(trim, p, e)))
            <==> UndisturbedSave(p, ticket, SavedValues(p, ticket, updated, owner))
  {
    SavedValuesInStep(trim, p, l, ticket, SavedValues(p, ticket, updated, owner),
                      SaveReplied(p, ticket, updated, now, owner));
  }

  lemma SavedValuesInStep(trim: Trimmer, p: Panel, l: Ledger, ticket: nat, values: Patch, p': Panel)
    requires InStep(trim, p, l)
    requires p'.draft == p.draft
    requires values == map[] ==> p'.baseline == p.baseline
    requires values != map[] ==> p.baseline.Some? && ticket in p.openSaves
                                 && p'.baseline == Some(Overlay(p.openSaves[ticket].baseline, values))
    ensures InStep(trim, p', Record(trim, l, if values == map[] then Nothing else SavedFields(values)))
       <==> UndisturbedSave(p, ticket, values)
  {
    if values == map[] {
      SilentInStep(trim, p, l, p');
    } else if UndisturbedSave(p, ticket, values) {
      SavedInStep(trim, p, l, values, p');
    }
  }

  lemma SavedInStep(trim: Trimmer, p: Panel, l: Ledger, values: Patch, p': Panel)
    requires InStep(trim, p, l) && p.baseline.Some?
    requires p'.draft == p.draft && p'.baseline.Some? && p'.baseline.value == Overlay(p.baseline.value, values)
    ensures InStep(trim, p', Record(trim, l, SavedFields(values)))
  {
    var l' := Record(trim, l, SavedFields(values));
    forall f: Field ensures FieldInStep(trim, p'.draft, p'.baseline.value, l'.edits, f) {
      assert FieldInStep(trim, p.draft, p.baseline.value, l.edits, f);
    }
  }

  ghost predicate AllUndisturbed(trim: Trimmer, events: seq<Event>) {
    forall k :: 0 <= k < |events| ==> Undisturbed(Run(trim, events[..k]), events[k])
  }

  /**
   * Over every run of keystrokes, reads, saves, expiries and account changes whose save replies are all
   * undisturbed, the draft's dirty fields are exactly the owner's edits.
   */
  lemma {:induction false} DraftStaysInStep(trim: Trimmer, events: seq<Event>)
    requires AllUndisturbed(trim, events)
    ensures InStep(trim, Run(trim, events), Edits(trim, events))
  {
    if events != [] {
      var earlier, last := events[..|events| - 1], events[|events| - 1];
      forall k | 0 <= k < |earlier|
        ensures Undisturbed(Run(trim, earlier[..k]), earlier[k])
      {
        assert earlier[..k] == events[..k] && earlier[k] == events[k];
      }
      DraftStaysInStep(trim, earlier);
      RunIsConsistent(trim, earlier);
      assert Undisturbed(Run(trim, events[..|events| - 1]), events[|events| - 1]);
      StepStaysInStepExactlyWhenUndisturbed(trim, Run(trim, earlier), Edits(trim, earlier), last);
    }
  }

  /** So a save submits the owner's edits, trimmed, and not one field more. */
  lemma SaveSubmitsExactlyTheEdits(trim: Trimmer, events: seq<Event>, f: Field)
    requires AllUndisturbed(trim, events) && Run(trim, events).baseline.Some?
    ensures var p := Run(trim, events);
            var edits := Edits(trim, events).edits;
            && p.nextTicket in SaveStarted(trim, p).openSaves
            && var patch := SaveStarted(trim, p).openSaves[p.nextTicket].patch;
            && (f in patch <==> f in edits)
            && (f in patch ==> patch[f] == trim(edits[f]))
  {
    DraftStaysInStep(trim, events);
    var p := Run(trim, events);
    assert FieldInStep(trim, p.draft, p.baseline.value, Edits(trim, events).edits, f);
  }

  /** A save during which nothing else was accepted, saved or reset is undisturbed whatever it answers. */
  lemma {:induction false} QuietSaveIsUndisturbed(trim: Trimmer, events: seq<Event>, i: nat, j: nat)
    requires i < j <= |events| && events[i] == StartSave && Run(trim, events[..i]).baseline.Some?
    requires forall k :: i < k < j ==>
               events[k].Keystroke? || NoticeOf(trim, Run(trim, events[..k]), events[k]) == Nothing
    ensures var before, after := Run(trim, events[..i]), Run(trim, events[..j]);
            && before.nextTicket < after.nextTicket && after.baseline == before.baseline
            && (before.nextTicket in after.openSaves ==>
                  after.openSaves[before.nextTicket].baseline == before.baseline.value)
            && forall values :: UndisturbedSave(after, before.nextTicket, values)
  {
    assert events[..j][..j - 1] == events[..j - 1];
    if i + 1 < j {
      QuietSaveIsUndisturbed(trim, events, i, j - 1);
      QuietStep(trim, Run(trim, events[..j - 1]), events[j - 1], Run(trim, events[..i]).nextTicket);
    }
  }

  lemma QuietStep(trim: Trimmer, p: Panel, e: Event, ticket: nat)
    requires NoticeOf(trim, p, e) == Nothing || e.Keystroke?
    ensures Apply(trim, p, e).baseline == p.baseline
    ensures Apply(trim, p, e).nextTicket >= p.nextTicket
    ensures ticket < p.nextTicket && ticket in Apply(trim, p, e).openSaves ==>
              ticket in p.openSaves && Apply(trim, p, e).openSaves[ticket] == p.openSaves[ticket]
  {
  }

  lemma OneMoreEvent(trim: Trimmer, events: seq<Event>, e: Event)
    ensures Run(trim, events + [e]) == Apply(trim, Run(trim, events), e)
    ensures Edits(trim, events + [e]) == Record(trim, Edits(trim, events), NoticeOf(trim, Run(trim, events), e))
  {
    assert (events + [e])[..|events|] == events;
  }

  /** A run that leaves the save of a new legal name open. */
  lemma OpenSaveRun(trim: Trimmer) returns (events: seq<Event>)
    requires trim("a") != trim("")
    ensures var p := Run(trim, events);
            && p.draft == BLANK[LEGAL_NAME := "a"] && p.baseline == Some(BLANK) && p.pending == None
            && p.openSaves == map[1 := SaveTicket(BLANK, map[LEGAL_NAME := trim("a")])]
            && p.nextTicket == 2 && p.openReads == map[]
            && Edits(trim, events) == Ledger(Some(BLANK), map[LEGAL_NAME := "a"])
  {
    var e0: seq<Event> := [];
    var e1 := e0 + [StartRead];
    var e2 := e1 + [ReadReply(0, BLANK, 0, true)];
    var e3 := e2 + [Keystroke(LEGAL_NAME, "a")];
    events := e3 + [StartSave];
    OneMoreEvent(trim, e0, StartRead);
    OneMoreEvent(trim, e1, ReadReply(0, BLANK, 0, true));
    OneMoreEvent(trim, e2, Keystroke(LEGAL_NAME, "a"));
    OneMoreEvent(trim, e3, StartSave);
    assert DirtyPatch(trim, BLANK[LEGAL_NAME := "a"], BLANK) == map[LEGAL_NAME := trim("a")];
  }

  /** Another owner's phone number arrives in a read while that save is open. */
  lemma ReadDuringSaveRun(trim: Trimmer) returns (events: seq<Event>)
    requires trim("a") != trim("") && trim("2") != trim("")
    ensures var p := Run(trim, events);
            var theirs := BLANK[ORGANIZATION_PHONE := "2"];
            && p.draft == theirs[LEGAL_NAME := "a"] && p.baseline == Some(theirs) && p.pending == None
            && p.openSaves == map[1 := SaveTicket(BLANK, map[LEGAL_NAME := trim("a")])]
            && Edits(trim, events) == Ledger(Some(theirs), map[LEGAL_NAME := "a"])
  {
    var theirs := BLANK[ORGANIZATION_PHONE := "2"];
    var e4 := OpenSaveRun(trim);
    var e5 := e4 + [StartRead];
    events := e5 + [ReadReply(2, theirs, 1, true)];
    OneMoreEvent(trim, e4, StartRead);
    OneMoreEvent(trim, e5, ReadReply(2, theirs, 1, true));
  }

  /**
   * That read disturbs the save's reply: the phone number then counts as dirty although this owner never
   * typed it and has no edit left, and the next save submits it.
   */
  lemma ReadDuringSaveResubmitsUntouchedField() returns (events: seq<Event>)
    ensures !AllUndisturbed(Trim, events)
    ensures Edits(Trim, events).edits == map[]
    ensures var p := Run(Trim, events);
            p.baseline.Some? && DirtyPatch(Trim, p.draft, p.baseline.value) == map[ORGANIZATION_PHONE := "2"]
  {
    TrimKeepsTrimmed("");
    TrimKeepsTrimmed("a");
    TrimKeepsTrimmed("2");
    events := ReadDuringSaveDisturbs(Trim);
  }

  lemma ReadDuringSaveDisturbs(trim: Trimmer) returns (events: seq<Event>)
    requires trim("a") != trim("") && trim("2") != trim("") && trim(trim("a")) == trim("a")
    ensures !AllUndisturbed(trim, events)
    ensures Edits(trim, events).edits == map[]
    ensures var p := Run(trim, events);
            p.baseline.Some? && DirtyPatch(trim, p.draft, p.baseline.value) == map[ORGANIZATION_PHONE := trim("2")]
  {
    var reply := SaveReply(1, ["STRIPE_US_LEGAL_NAME"], 2, true);
    var e6 := ReadDuringSaveRun(trim);
    events := e6 + [reply];
    OneMoreEvent(trim, e6, reply);
    var p6, p := Run(trim, e6), Run(trim, events);
    var values := map[LEGAL_NAME := trim("a")];
    assert Acknowledged(values, ["STRIPE_US_LEGAL_NAME"]) == values;
    assert LEGAL_NAME in values;
    assert p.draft == p6.draft && p.baseline == Some(Overlay(BLANK, values));
    assert events[..|e6|] == e6 && events[|e6|] == reply;
    DisturbedReplyOutcome(trim, p.draft, p.baseline.value, p6.baseline.value, values);
    assert !Undisturbed(Run(trim, events[..|e6|]), events[|e6|]);
  }

  lemma DisturbedReplyOutcome(trim: Trimmer, draft: Configuration, baseline: Configuration, theirs: Configuration,
                              values: Patch)
    requires trim("a") != trim("") && trim("2") != trim("") && trim(trim("a")) == trim("a")
    requires values == map[LEGAL_NAME := trim("a")]
    requires theirs == BLANK[ORGANIZATION_PHONE := "2"] && draft == theirs[LEGAL_NAME := "a"]
    requires baseline == Overlay(BLANK, values)
    ensures DirtyPatch(trim, draft, baseline) == map[ORGANIZATION_PHONE := trim("2")]
    ensures baseline != Overlay(theirs, values)
    ensures Record(trim, Ledger(Some(theirs), map[LEGAL_NAME := "a"]), SavedFields(values)).edits == map[]
  {
    assert baseline[ORGANIZATION_PHONE] != Overlay(theirs, values)[ORGANIZATION_PHONE];
  }
}
