/** The e-mail template editor: the two countries' submissions and the three-way merge after a save. */
module EmailTemplates {
  import opened Text

  datatype Template = Template(subject: string, body: string)
  type Templates = map<string, Template>
  datatype Definition = Definition(kind: string, scope: string)

  const US_STRIPE := "US_STRIPE"
  const SV_CDE := "SV_CDE"

  // ----- The two submissions -----

  /** Any unexpected scope falls on the Salvadoran side. */
  predicate IsEmailTemplateScope(scope: string, candidate: string) {
    if scope == US_STRIPE then candidate == US_STRIPE else candidate != US_STRIPE
  }

  predicate DefinedFor(definitions: seq<Definition>, kind: string, scope: string) {
    exists i :: 0 <= i < |definitions| && definitions[i].kind == kind
      && IsEmailTemplateScope(scope, definitions[i].scope)
  }

  /** What the button of `scope` submits; missing settings are no definitions. */
  function ScopedEmailTemplates(definitions: seq<Definition>, templates: Templates, scope: string): Templates {
    map kind | kind in templates && DefinedFor(definitions, kind, scope) :: templates[kind]
  }

  ghost predicate Defined(definitions: seq<Definition>, kind: string) {
    exists i :: 0 <= i < |definitions| && definitions[i].kind == kind
  }

  /** The two submissions together hold every defined type that has a draft, and no draft is altered. */
  lemma SubmissionsCover(definitions: seq<Definition>, templates: Templates, kind: string)
    ensures var us := ScopedEmailTemplates(definitions, templates, US_STRIPE);
            var sv := ScopedEmailTemplates(definitions, templates, SV_CDE);
            && (kind in us || kind in sv <==> kind in templates && Defined(definitions, kind))
            && (kind in us ==> us[kind] == templates[kind]) && (kind in sv ==> sv[kind] == templates[kind])
  {
    if kind in templates && Defined(definitions, kind) {
      var i :| 0 <= i < |definitions| && definitions[i].kind == kind;
      assert IsEmailTemplateScope(US_STRIPE, definitions[i].scope)
             || IsEmailTemplateScope(SV_CDE, definitions[i].scope);
    }
  }

  /** They share a type exactly when it has a draft and is defined for both countries. */
  lemma SubmissionsDisjoint(definitions: seq<Definition>, templates: Templates, kind: string)
    ensures kind in ScopedEmailTemplates(definitions, templates, US_STRIPE)
         && kind in ScopedEmailTemplates(definitions, templates, SV_CDE)
       <==> (kind in templates && exists i, j ::
              (0 <= i < |definitions| && 0 <= j < |definitions| && definitions[i] == Definition(kind, US_STRIPE)
               && definitions[j].kind == kind && definitions[j].scope != US_STRIPE))
  {
    if kind in templates && DefinedFor(definitions, kind, US_STRIPE) && DefinedFor(definitions, kind, SV_CDE) {
      var i :| 0 <= i < |definitions| && definitions[i].kind == kind
        && IsEmailTemplateScope(US_STRIPE, definitions[i].scope);
      var j :| 0 <= j < |definitions| && definitions[j].kind == kind
        && IsEmailTemplateScope(SV_CDE, definitions[j].scope);
      assert definitions[i] == Definition(kind, US_STRIPE);
    }
  }

  // ----- The merge -----

  datatype Part = Subject | Body

  function PartOf(t: Template, part: Part): string {
    if part == Subject then t.subject else t.body
  }

  function TextIn(templates: Templates, kind: string, part: Part): Option<string> {
    if kind in templates then Some(PartOf(templates[kind], part)) else None
  }

  /** A text is kept when it was typed since the request, or was unsaved and not part of the request. */
  predicate Keeps(current: Option<string>, requested: Option<string>, baseline: Option<string>, submitted: bool) {
    current != requested || (!submitted && requested != baseline)
  }

  function MergedPart(
    current: Templates, requested: Templates, server: Templates, baseline: Templates, submitted: set<string>,
    kind: string, part: Part): string
    requires kind in server
  {
    var now := TextIn(current, kind, part);
    if Keeps(now, TextIn(requested, kind, part), TextIn(baseline, kind, part), kind in submitted)
    then now.GetOr(PartOf(server[kind], part)) else PartOf(server[kind], part)
  }

  function MergedTemplate(
    current: Templates, requested: Templates, server: Templates, baseline: Templates, submitted: set<string>,
    kind: string): Template
    requires kind in server
  {
    Template(MergedPart(current, requested, server, baseline, submitted, kind, Subject),
             MergedPart(current, requested, server, baseline, submitted, kind, Body))
  }

  function Merged(
    current: Templates, requested: Templates, server: Templates, baseline: Templates, submitted: set<string>): Templates
  {
    map kind | kind in current.Keys + server.Keys ::
      if kind in server then MergedTemplate(current, requested, server, baseline, submitted, kind) else current[kind]
  }

  method ReconcileEmailTemplateDraft(
    current: Templates, requestDraft: Templates, server: Templates, baseline: Templates, submittedTypes: seq<string>)
    returns (reconciled: Templates)
    ensures reconciled == Merged(current, requestDraft, server, baseline, set kind | kind in submittedTypes)
  {
    reconciled := current;
    var submitted := set kind | kind in submittedTypes;
    var remaining := server.Keys;
    ghost var done: set<string> := {};
    while remaining != {}
      invariant forall kind :: kind in server <==> kind in remaining || kind in done
      invariant forall kind :: !(kind in remaining && kind in done)
      invariant forall kind :: kind in reconciled <==> kind in current || kind in done
      invariant forall kind :: kind in current && kind !in done ==> reconciled[kind] == current[kind]
      invariant forall kind :: kind in done ==>
                  reconciled[kind] == MergedTemplate(current, requestDraft, server, baseline, submitted, kind)
      decreases |remaining|
    {
      var kind :| kind in remaining;
      remaining, done := remaining - {kind}, done + {kind};
      var merged := ReconciledTemplate(current, requestDraft, server, baseline, submitted, kind);
      reconciled := reconciled[kind := merged];
    }
    MergedKindByKind(current, requestDraft, server, baseline, submitted, reconciled);
  }

  method ReconciledTemplate(
    current: Templates, requestDraft: Templates, server: Templates, baseline: Templates, submitted: set<string>,
    kind: string)
    returns (merged: Template)
    requires kind in server
    ensures merged == MergedTemplate(current, requestDraft, server, baseline, submitted, kind)
  {
    var next := server[kind];
    var currentSubject, currentBody := TextIn(current, kind, Subject), TextIn(current, kind, Body);
    var requestedSubject, requestedBody := TextIn(requestDraft, kind, Subject), TextIn(requestDraft, kind, Body);
    var preserveSubject := currentSubject != requestedSubject
      || (kind !in submitted && requestedSubject != TextIn(baseline, kind, Subject));
    var preserveBody := currentBody != requestedBody
      || (kind !in submitted && requestedBody != TextIn(baseline, kind, Body));
    merged := Template(if preserveSubject then currentSubject.GetOr(next.subject) else next.subject,
                       if preserveBody then currentBody.GetOr(next.body) else next.body);
  }

  lemma MergedKindByKind(
    current: Templates, requested: Templates, server: Templates, baseline: Templates, submitted: set<string>,
    r: Templates)
    requires forall kind :: kind in r <==> kind in current || kind in server
    requires forall kind :: kind in server ==>
               r[kind] == MergedTemplate(current, requested, server, baseline, submitted, kind)
    requires forall kind :: kind in current && kind !in server ==> r[kind] == current[kind]
    ensures r == Merged(current, requested, server, baseline, submitted)
  {
  }

  // ----- A save from the owner's side -----

  datatype Keystroke = Keystroke(kind: string, part: Part, text: string)

  function Typed(draft: Templates, k: Keystroke): Templates {
    var current := if k.kind in draft then draft[k.kind] else Template("", "");
    draft[k.kind := if k.part == Subject then current.(subject := k.text) else current.(body := k.text)]
  }

  function TypedAll(draft: Templates, typing: seq<Keystroke>): Templates {
    if typing == [] then draft else Typed(TypedAll(draft, typing[..|typing| - 1]), typing[|typing| - 1])
  }

  /** The last text typed into a part, if any. */
  function LastTyped(typing: seq<Keystroke>, kind: string, part: Part): Option<string> {
    if typing == [] then None
    else
      var last := typing[|typing| - 1];
      if last.kind == kind && last.part == part then Some(last.text) else LastTyped(typing[..|typing| - 1], kind, part)
  }

  /** The text in a part after some typing; a type without a draft gets one, blank but for what was typed. */
  function TextAfter(draft: Templates, typing: seq<Keystroke>, kind: string, part: Part): Option<string> {
    if LastTyped(typing, kind, part).Some? then LastTyped(typing, kind, part)
    else if kind in draft then Some(PartOf(draft[kind], part))
    else if exists k :: k in typing && k.kind == kind then Some("")
    else None
  }

  datatype Editor = Editor(definitions: seq<Definition>, saved: Templates, draft: Templates)

  function Submission(e: Editor, scope: string): Templates {
    ScopedEmailTemplates(e.definitions, e.draft, scope)
  }

  /** A save of `scope` with the typing done while it was on its way, answered with `server`. */
  function SaveRoundTrip(e: Editor, scope: string, typing: seq<Keystroke>, server: Templates): Editor {
    e.(saved := server,
       draft := Merged(TypedAll(e.draft, typing), e.draft, server, e.saved, Submission(e, scope).Keys))
  }

  predicate Unsaved(e: Editor, kind: string, part: Part) {
    TextIn(e.draft, kind, part) != TextIn(e.saved, kind, part)
  }

  lemma {:induction false} TypedText(draft: Templates, typing: seq<Keystroke>, kind: string, part: Part)
    ensures TextIn(TypedAll(draft, typing), kind, part) == TextAfter(draft, typing, kind, part)
  {
    if typing != [] {
      var earlier, last := typing[..|typing| - 1], typing[|typing| - 1];
      TypedText(draft, earlier, kind, part);
      assert forall k :: k in typing <==> k in earlier || k == last;
    }
  }

  /**
   * What the owner sees after a save: a text typed while the save was on its way stays unless it merely restored
   * the text that was sent; an unsaved text of the other country stays; any other text of a type the server
   * returns becomes the server's. A type the server does not return keeps its draft.
   */
  lemma SaveOutcome(e: Editor, scope: string, typing: seq<Keystroke>, server: Templates, kind: string, part: Part)
    ensures var sent := TextIn(e.draft, kind, part);
            var typed := TextAfter(e.draft, typing, kind, part);
            var theirs := !(kind in e.draft && DefinedFor(e.definitions, kind, scope));
            TextIn(SaveRoundTrip(e, scope, typing, server).draft, kind, part) ==
              if kind !in server || typed != sent || (theirs && Unsaved(e, kind, part) && sent.Some?) then typed
              else Some(PartOf(server[kind], part))
  {
    TypedText(e.draft, typing, kind, part);
  }

  /**
   * So after the save the texts still unsaved are exactly those typed meanwhile and the other country's unsaved
   * texts, where they differ from what the server returned.
   */
  lemma UnsavedAfterSave(e: Editor, scope: string, typing: seq<Keystroke>, server: Templates, kind: string, part: Part)
    requires kind in e.draft && kind in server
    ensures var sent := TextIn(e.draft, kind, part);
            var typed := TextAfter(e.draft, typing, kind, part);
            var kept := typed != sent || (!DefinedFor(e.definitions, kind, scope) && Unsaved(e, kind, part));
            Unsaved(SaveRoundTrip(e, scope, typing, server), kind, part) <==>
              kept && typed != Some(PartOf(server[kind], part))
  {
    SaveOutcome(e, scope, typing, server, kind, part);
  }

  /** The server merges the submitted group over what it has stored at that moment, and returns everything. */
  function Stored(stored: Templates, submission: Templates): Templates {
    stored + submission
  }

  /**
   * Saving both countries, one after the other, with other owners writing to the server in between: the second
   * submission carries this owner's unsaved texts untouched by the first save, takes the server's text for the
   * rest, and afterwards nothing is left unsaved.
   */
  lemma SavingBothCountriesLosesNothing(
    e: Editor, first: string, second: string, stored1: Templates, stored2: Templates, kind: string, part: Part)
    requires (first == US_STRIPE) != (second == US_STRIPE)
    requires forall i, j ::
               0 <= i < |e.definitions| && 0 <= j < |e.definitions|
                 && e.definitions[i].kind == e.definitions[j].kind ==>
                 (e.definitions[i].scope == US_STRIPE <==> e.definitions[j].scope == US_STRIPE)
    requires kind in e.draft && kind in stored1 && kind in stored2 && Defined(e.definitions, kind)
    ensures var one := SaveRoundTrip(e, first, [], Stored(stored1, Submission(e, first)));
            var two := SaveRoundTrip(one, second, [], Stored(stored2, Submission(one, second)));
            && (DefinedFor(e.definitions, kind, first) ==>
                  TextIn(Submission(e, first), kind, part) == Some(PartOf(e.draft[kind], part))
                  && kind !in Submission(one, second))
            && (DefinedFor(e.definitions, kind, second) ==>
                  TextIn(Submission(one, second), kind, part)
                  == Some(if Unsaved(e, kind, part) then PartOf(e.draft[kind], part) else PartOf(stored1[kind], part)))
            && !Unsaved(two, kind, part)
  {
    var server1 := Stored(stored1, Submission(e, first));
    var one := SaveRoundTrip(e, first, [], server1);
    SaveOutcome(e, first, [], server1, kind, part);
    SaveOutcome(one, second, [], Stored(stored2, Submission(one, second)), kind, part);
    assert DefinedFor(e.definitions, kind, first) != DefinedFor(e.definitions, kind, second) by {
      var i :| 0 <= i < |e.definitions| && e.definitions[i].kind == kind;
      assert IsEmailTemplateScope(first, e.definitions[i].scope) != IsEmailTemplateScope(second,
                                                                                         e.definitions[i].scope);
    }
  }
}
