/** The Stripe organization form: dirty patch, optimistic write overlay with a time to live, and draft rebase. */
module StripeOrganization {
  import opened Text

  /** A field is its position in the form's list of fields; a configuration holds one text per field. */
  const FIELD_COUNT := 8
  type Field = f: int | 0 <= f < FIELD_COUNT
  type Configuration = c: seq<string> | |c| == FIELD_COUNT witness seq(8, _ => "")
  type Patch = map<Field, string>

  const LEGAL_NAME: Field := 0
  const ORGANIZATION_PHONE: Field := 3

  /** The server's name for each field: legal name, EIN, time zone, phone, website, mailing address, signer. */
  const SECRET_NAMES: seq<string> := [
    "STRIPE_US_LEGAL_NAME", "STRIPE_US_EIN", "STRIPE_US_TIME_ZONE", "STRIPE_US_PHONE",
    "STRIPE_US_WEBSITE", "STRIPE_US_MAILING_ADDRESS", "STRIPE_US_SIGNER_NAME", "STRIPE_US_SIGNER_TITLE"
  ]

  const BLANK: Configuration := ["", "", "", "", "", "", "", ""]

  datatype PendingWrite = PendingWrite(values: Patch, savedAt: int)
  datatype Hydration = Hydration(configuration: Configuration, pendingWrite: Option<PendingWrite>)

  const PENDING_WRITE_TTL_MS := 120_000

  /** Comparisons ignore surrounding white space; nothing below depends on which characters count as such. */
  type Trimmer = string -> string

  predicate Same(trim: Trimmer, a: string, b: string) {
    trim(a) == trim(b)
  }

  // ----- What each operation means, field by field -----

  predicate Dirty(trim: Trimmer, draft: Configuration, baseline: Configuration, f: Field) {
    !Same(trim, draft[f], baseline[f])
  }

  function DirtyPatch(trim: Trimmer, draft: Configuration, baseline: Configuration): Patch {
    map f: Field | 0 <= f < FIELD_COUNT && Dirty(trim, draft, baseline, f) :: trim(draft[f])
  }

  /** The submitted fields whose secret the server reports as written. */
  function Acknowledged(patch: Patch, updated: seq<string>): Patch {
    map f: Field | f in patch && SECRET_NAMES[f] in updated :: patch[f]
  }

  /** The saved values a server configuration does not show yet. */
  function Unconfirmed(trim: Trimmer, server: Configuration, values: Patch): Patch {
    map f: Field | f in values && !Same(trim, server[f], values[f]) :: values[f]
  }

  function Overlay(c: Configuration, values: Patch): (r: Configuration)
    ensures forall f: Field :: r[f] == if f in values then values[f] else c[f]
  {
    seq(FIELD_COUNT, f requires 0 <= f < FIELD_COUNT => if f in values then values[f] else c[f])
  }

  predicate Expired(pending: PendingWrite, now: int) {
    now - pending.savedAt > PENDING_WRITE_TTL_MS
  }

  function Resolve(trim: Trimmer, server: Configuration, pending: Option<PendingWrite>, now: int): Hydration {
    if pending.None? || Expired(pending.value, now) then Hydration(server, None)
    else
      var values := Unconfirmed(trim, server, pending.value.values);
      if values == map[] then Hydration(server, None)
      else Hydration(Overlay(server, values), Some(PendingWrite(values, pending.value.savedAt)))
  }

  function Reconcile(trim: Trimmer, draft: Configuration, baseline: Configuration,
                     next: Configuration): (r: Configuration)
    ensures forall f: Field :: r[f] == if Dirty(trim, draft, baseline, f) then draft[f] else next[f]
  {
    seq(FIELD_COUNT, f requires 0 <= f < FIELD_COUNT => if Dirty(trim, draft, baseline, f) then draft[f] else next[f])
  }

  // ----- The loops over the fields -----

  method TrimmedStripeOrganization(trim: Trimmer, organization: Configuration) returns (trimmed: Configuration)
    ensures forall f: Field :: trimmed[f] == trim(organization[f])
  {
    var entries: seq<string> := [];
    for f := 0 to FIELD_COUNT
      invariant |entries| == f
      invariant forall g :: 0 <= g < f ==> entries[g] == trim(organization[g])
    {
      entries := entries + [trim(organization[f])];
    }
    trimmed := entries;
  }

  method StripeOrganizationDirtyPatch(trim: Trimmer, organization: Configuration, baseline: Configuration)
    returns (patch: Patch)
    ensures patch == DirtyPatch(trim, organization, baseline)
  {
    var submitted := TrimmedStripeOrganization(trim, organization);
    patch := map[];
    for f := 0 to FIELD_COUNT
      invariant forall g: Field :: g in patch <==> g < f && Dirty(trim, organization, baseline, g)
      invariant forall g: Field :: g in patch ==> patch[g] == trim(organization[g])
    {
      if submitted[f] != trim(baseline[f]) {
        patch := patch[f := submitted[f]];
      }
    }
  }

  method StripeOrganizationPendingWrite(patch: Patch, updated: seq<string>, savedAt: int)
    returns (pending: Option<PendingWrite>)
    ensures var values := Acknowledged(patch, updated);
            pending == if values == map[] then None else Some(PendingWrite(values, savedAt))
  {
    var updatedNames := set name | name in updated;
    var values: Patch := map[];
    for f := 0 to FIELD_COUNT
      invariant forall g: Field :: g in values <==> g in patch && g < f && SECRET_NAMES[g] in updatedNames
      invariant forall g: Field :: g in values ==> values[g] == patch[g]
    {
      if f in patch && SECRET_NAMES[f] in updatedNames {
        values := values[f := patch[f]];
      }
    }
    assert values == Acknowledged(patch, updated);
    pending := if |values| > 0 then Some(PendingWrite(values, savedAt)) else None;
  }

  lemma SameSizeSubmapIsAll(part: Patch, whole: Patch)
    requires part.Keys <= whole.Keys && forall f :: f in part ==> part[f] == whole[f]
    requires |part| == |whole|
    ensures part == whole
  {
    assert |whole.Keys - part.Keys| == |whole.Keys| - |part.Keys|;
    assert |part.Keys| == |part| && |whole.Keys| == |whole|;
    assert whole.Keys - part.Keys == {};
  }

  method ResolveStripeOrganizationHydration(
    trim: Trimmer, configuration: Configuration, pendingWrite: Option<PendingWrite>, now: int)
    returns (hydration: Hydration)
    ensures hydration == Resolve(trim, configuration, pendingWrite, now)
  {
    if pendingWrite.None? {
      return Hydration(configuration, None);
    }
    if now - pendingWrite.value.savedAt > PENDING_WRITE_TTL_MS {
      return Hydration(configuration, None);
    }
    var pending := pendingWrite.value;
    var pendingValues: Patch := map[];
    var effective := configuration;
    for f := 0 to FIELD_COUNT
      invariant forall g: Field :: g in pendingValues <==>
                  g in pending.values && g < f && !Same(trim, configuration[g], pending.values[g])
      invariant forall g: Field :: g in pendingValues ==> pendingValues[g] == pending.values[g]
      invariant effective == Overlay(configuration, pendingValues)
    {
      if f in pending.values && trim(configuration[f]) != trim(pending.values[f]) {
        pendingValues := pendingValues[f := pending.values[f]];
        effective := effective[f := pending.values[f]];
      }
    }
    assert pendingValues == Unconfirmed(trim, configuration, pending.values);
    if |pendingValues| == 0 {
      return Hydration(configuration, None);
    }
    if |pendingValues| == |pending.values| {
      SameSizeSubmapIsAll(pendingValues, pending.values);
      return Hydration(effective, Some(pending));
    }
    return Hydration(effective, Some(pending.(values := pendingValues)));
  }

  method ReconcileStripeOrganizationDraft(
    trim: Trimmer, current: Configuration, baseline: Configuration, nextBaseline: Configuration)
    returns (reconciled: Configuration)
    ensures reconciled == Reconcile(trim, current, baseline, nextBaseline)
  {
    reconciled := nextBaseline;
    for f := 0 to FIELD_COUNT
      invariant forall g: Field ::
                  reconciled[g] == (if g < f && Dirty(trim, current, baseline, g) then current[g] else nextBaseline[g])
    {
      if trim(current[f]) != trim(baseline[f]) {
        reconciled := reconciled[f := current[f]];
      }
    }
  }

  // ----- Rebase algebra -----

  /** After a rebase the dirty patch holds exactly the old edits that the new baseline does not already show. */
  lemma RebaseKeepsExactlyTheLiveEdits(trim: Trimmer, draft: Configuration, baseline: Configuration,
                                       next: Configuration)
    ensures var edits := DirtyPatch(trim, draft, baseline);
            DirtyPatch(trim, Reconcile(trim, draft, baseline, next), next)
            == map f: Field | f in edits && edits[f] != trim(next[f]) :: edits[f]
  {
    var edits := DirtyPatch(trim, draft, baseline);
    var rebased := DirtyPatch(trim, Reconcile(trim, draft, baseline, next), next);
    assert forall f: Field :: f in rebased <==> f in edits && edits[f] != trim(next[f]);
  }

  /** Rebasing through an intermediate baseline loses an edit exactly where that baseline had absorbed it. */
  lemma RebaseComposes(
    trim: Trimmer, draft: Configuration, baseline: Configuration, next1: Configuration, next2: Configuration, f: Field)
    ensures var stepwise := Reconcile(trim, Reconcile(trim, draft, baseline, next1), next1, next2)[f];
            var direct := Reconcile(trim, draft, baseline, next2)[f];
            var absorbed := Dirty(trim, draft, baseline, f) && Same(trim, draft[f], next1[f]);
            && stepwise == (if absorbed then next2[f] else direct)
            && (stepwise == direct <==> !absorbed || draft[f] == next2[f])
  {
  }

  /** Rebasing twice onto one baseline changes nothing but white space around an edit it already shows. */
  lemma RebaseIdempotent(trim: Trimmer, draft: Configuration, baseline: Configuration, next: Configuration, f: Field)
    ensures var once := Reconcile(trim, draft, baseline, next);
            var twice := Reconcile(trim, once, next, next);
            && Same(trim, twice[f], once[f])
            && (twice[f] != once[f] ==> Dirty(trim, draft, baseline, f) && Same(trim, draft[f], next[f]))
            && Reconcile(trim, twice, next, next) == twice
  {
  }

  // ----- Optimistic overlay over a run of reads -----

  datatype Read = Read(server: Configuration, at: int)

  function PendingAfter(trim: Trimmer, pending: PendingWrite, replies: seq<Read>): Option<PendingWrite> {
    if replies == [] then Some(pending)
    else
      var last := replies[|replies| - 1];
      Resolve(trim, last.server, PendingAfter(trim, pending, replies[..|replies| - 1]), last.at).pendingWrite
  }

  /** What the form takes from read `k`. */
  function Effective(trim: Trimmer, pending: PendingWrite, replies: seq<Read>, k: nat): Configuration
    requires k < |replies|
  {
    Resolve(trim, replies[k].server, PendingAfter(trim, pending, replies[..k]), replies[k].at).configuration
  }

  ghost predicate InTime(pending: PendingWrite, replies: seq<Read>) {
    forall r :: r in replies ==> !Expired(pending, r.at)
  }

  ghost predicate Confirmed(trim: Trimmer, pending: PendingWrite, replies: seq<Read>, f: Field)
    requires f in pending.values
  {
    exists r :: r in replies && Same(trim, r.server[f], pending.values[f])
  }

  lemma {:induction false} PendingOnlyShrinks(trim: Trimmer, pending: PendingWrite, replies: seq<Read>)
    requires pending.values != map[]
    ensures var after := PendingAfter(trim, pending, replies);
            after.Some? ==>
              && InTime(pending, replies) && after.value.savedAt == pending.savedAt
              && forall f :: f in after.value.values ==>
                   f in pending.values && after.value.values[f] == pending.values[f]
  {
    if replies != [] {
      var earlier, last := replies[..|replies| - 1], replies[|replies| - 1];
      PendingOnlyShrinks(trim, pending, earlier);
      assert replies == earlier + [last];
    }
  }

  lemma ResolveField(trim: Trimmer, server: Configuration, pending: Option<PendingWrite>, now: int, f: Field)
    ensures var r := Resolve(trim, server, pending, now);
            var guarded := pending.Some? && !Expired(pending.value, now) && f in pending.value.values;
            && (r.pendingWrite.Some? && f in r.pendingWrite.value.values
                <==> guarded && !Same(trim, server[f], pending.value.values[f]))
            && r.configuration[f] == if guarded && !Same(trim, server[f], pending.value.values[f])
                                     then pending.value.values[f] else server[f]
  {
    if pending.Some? && !Expired(pending.value, now) {
      var values := Unconfirmed(trim, server, pending.value.values);
      assert f in values <==> f in pending.value.values && !Same(trim, server[f], pending.value.values[f]);
    }
  }

  lemma OneMoreRead(trim: Trimmer, pending: PendingWrite, replies: seq<Read>, last: Read)
    ensures InTime(pending, replies + [last]) <==> InTime(pending, replies) && !Expired(pending, last.at)
    ensures forall f :: f in pending.values ==>
              (Confirmed(trim, pending, replies + [last], f) <==>
               Confirmed(trim, pending, replies, f) || Same(trim, last.server[f], pending.values[f]))
  {
    var all := replies + [last];
    assert last in all;
    assert forall r :: r in all <==> r in replies || r == last;
  }

  /** A field is still guarded after a run of reads exactly when none expired and none confirmed it. */
  lemma {:induction false} PendingIsTheUnconfirmed(trim: Trimmer, pending: PendingWrite, replies: seq<Read>, f: Field)
    requires f in pending.values
    ensures var after := PendingAfter(trim, pending, replies);
            after.Some? && f in after.value.values <==>
              InTime(pending, replies) && !Confirmed(trim, pending, replies, f)
  {
    if replies != [] {
      var earlier, last := replies[..|replies| - 1], replies[|replies| - 1];
      assert replies == earlier + [last];
      PendingIsTheUnconfirmed(trim, pending, earlier, f);
      PendingOnlyShrinks(trim, pending, earlier);
      ResolveField(trim, last.server, PendingAfter(trim, pending, earlier), last.at, f);
      OneMoreRead(trim, pending, earlier, last);
    }
  }

  /**
   * A saved field never flips back: while the write is in time it shows the saved value up to and including
   * the first read that confirms it, and from then on, or after an expired read, it follows the server.
   */
  lemma SavedFieldDoesNotFlipBack(trim: Trimmer, pending: PendingWrite, replies: seq<Read>, k: nat, f: Field)
    requires pending.values != map[] && k < |replies|
    ensures var shown := Effective(trim, pending, replies, k)[f];
            if f in pending.values && InTime(pending, replies[..k + 1]) && !Confirmed(trim, pending, replies[..k], f)
            then Same(trim, shown, pending.values[f])
            else shown == replies[k].server[f]
  {
    var earlier := replies[..k];
    PendingOnlyShrinks(trim, pending, earlier);
    if f in pending.values {
      PendingIsTheUnconfirmed(trim, pending, earlier, f);
    }
    ResolveField(trim, replies[k].server, PendingAfter(trim, pending, earlier), replies[k].at, f);
    assert replies[..k + 1] == earlier + [replies[k]];
    OneMoreRead(trim, pending, earlier, replies[k]);
  }
}
