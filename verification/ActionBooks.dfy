/**
 * Ownership of the panel's actions: which action may commit in each domain, and the busy books beside it.
 * A step is the start of an action, its end (the error handler and the `finally` block), or an account change.
 */
module ActionBooks {

  datatype Action = Action(name: string, domain: string, renderVersion: nat)

  /** Busy names keep the order in which their domains were inserted, as a browser `Map` does. */
  type BusyNames = seq<(string, string)>

  datatype Books = Books(
    version: nat,
    owners: map<string, nat>,
    busyNames: BusyNames,
    busyDomains: set<string>,
    annualReportAction: string,
    busy: string,
    running: map<nat, Action>,
    nextToken: nat)

  const INITIAL := Books(0, map[], [], {}, "", "", map[], 0)
  const ANNUAL_REPORT := "annual-report"

  datatype Failure = NoFailure | Unauthorized | OtherFailure

  /** `isCurrent` is the answer of the action's own currency check at that moment. */
  datatype Event =
    | Start(name: string, renderVersion: nat)
    | Finish(token: nat, failure: Failure, isCurrent: bool)
    | Reset

  function Domain(name: string): string {
    if "certificates-" <= name || "stripe-statements-" <= name then ANNUAL_REPORT
    else if "stripe-" <= name then "stripe-settings"
    else if name == "export-csv" || name == "export-xlsx" then "f960-export"
    else name
  }

  // ----- Which actions share a domain -----

  predicate IsAnnualReport(name: string) {
    "certificates-" <= name || "stripe-statements-" <= name || name == "annual-report"
  }

  predicate IsStripeSetting(name: string) {
    "stripe-" <= name && !("stripe-statements-" <= name)
  }

  predicate IsExport(name: string) {
    name == "export-csv" || name == "export-xlsx" || name == "f960-export"
  }

  /** Two actions that never hold a domain beside each other. */
  predicate Rivals(a: string, b: string) {
    || (IsAnnualReport(a) && IsAnnualReport(b))
    || (IsStripeSetting(a) && IsStripeSetting(b))
    || (IsExport(a) && IsExport(b))
    || a == b
  }

  lemma DomainOfKind(name: string)
    ensures IsAnnualReport(name) <==> Domain(name) == "annual-report"
    ensures IsStripeSetting(name) <==> Domain(name) == "stripe-settings"
    ensures IsExport(name) <==> Domain(name) == "f960-export"
    ensures !IsAnnualReport(name) && !IsStripeSetting(name) && !IsExport(name) ==> Domain(name) == name
  {
    assert "certificates-" <= name ==> name[0] == 'c';
    assert "stripe-" <= name ==> name[0] == 's';
    assert "stripe-statements-" <= name ==> name[0] == 's' && "stripe-" <= name;
    assert "annual-report"[0] == 'a' && "stripe-settings"[0] == 's' && "f960-export"[0] == 'f';
    assert "export-csv"[0] == 'e' && "export-xlsx"[0] == 'e';
    assert "stripe-" <= "stripe-settings" && "stripe-settings"[8] != "stripe-statements-"[8];
  }

  /** A start of one action takes the domain of another over exactly when they are rivals. */
  lemma RivalsShareTheirDomain(a: string, b: string)
    ensures Domain(a) == Domain(b) <==> Rivals(a, b)
  {
    DomainOfKind(a);
    DomainOfKind(b);
    assert "annual-report"[0] != "stripe-settings"[0] && "annual-report"[0] != "f960-export"[0];
    assert "stripe-settings"[0] != "f960-export"[0];
  }

  // ----- Insertion-ordered map -----

  function Names(m: BusyNames): set<string> {
    if m == [] then {} else {m[0].0} + Names(m[1..])
  }

  ghost predicate Distinct(m: BusyNames) {
    m != [] ==> m[0].0 !in Names(m[1..]) && Distinct(m[1..])
  }

  function Put(m: BusyNames, key: string, value: string): BusyNames {
    if m == [] then [(key, value)]
    else if m[0].0 == key then [(key, value)] + m[1..]
    else [m[0]] + Put(m[1..], key, value)
  }

  function Remove(m: BusyNames, key: string): BusyNames {
    if m == [] then [] else if m[0].0 == key then m[1..] else [m[0]] + Remove(m[1..], key)
  }

  function LastName(m: BusyNames): string {
    if m == [] then "" else m[|m| - 1].1
  }

  lemma {:induction false} PutSpec(m: BusyNames, key: string, value: string)
    requires Distinct(m)
    ensures var r := Put(m, key, value);
            Distinct(r) && Names(r) == Names(m) + {key}
              && (forall e :: e in r <==> e == (key, value) || (e in m && e.0 != key))
  {
    if m != [] {
      var r := Put(m, key, value);
      assert forall e :: e in m <==> e == m[0] || e in m[1..];
      assert forall e :: e in r <==> e == r[0] || e in r[1..];
      if m[0].0 == key {
        assert r[1..] == m[1..];
        NamesAreKeys(m[1..]);
      } else {
        PutSpec(m[1..], key, value);
        assert r[1..] == Put(m[1..], key, value);
      }
    }
  }

  /** The domains in the order in which they became busy. */
  function Order(m: BusyNames): seq<string> {
    if m == [] then [] else [m[0].0] + Order(m[1..])
  }

  function Without(order: seq<string>, key: string): seq<string> {
    if order == [] then [] else (if order[0] == key then [] else [order[0]]) + Without(order[1..], key)
  }

  /** A domain that is busy keeps its place, another comes last, and one that is done leaves the others in order. */
  lemma {:induction false} OrderKept(m: BusyNames, key: string, value: string)
    requires Distinct(m)
    ensures Order(Put(m, key, value)) == if key in Names(m) then Order(m) else Order(m) + [key]
    ensures Order(Remove(m, key)) == Without(Order(m), key)
  {
    if m != [] {
      OrderKept(m[1..], key, value);
      OrderWithoutAbsent(m[1..], key);
      var put := Put(m, key, value);
      assert put[1..] == if m[0].0 == key then m[1..] else Put(m[1..], key, value);
      var removed := Remove(m, key);
      assert m[0].0 != key ==> removed[1..] == Remove(m[1..], key);
      assert Order(m)[1..] == Order(m[1..]);
    }
  }

  lemma {:induction false} OrderWithoutAbsent(m: BusyNames, key: string)
    ensures key !in Names(m) ==> Without(Order(m), key) == Order(m)
  {
    if m != [] {
      OrderWithoutAbsent(m[1..], key);
      assert Order(m)[1..] == Order(m[1..]);
    }
  }

  lemma {:induction false} RemoveSpec(m: BusyNames, key: string)
    requires Distinct(m)
    ensures var r := Remove(m, key);
            Distinct(r) && Names(r) == Names(m) - {key} && (forall e :: e in r <==> e in m && e.0 != key)
  {
    if m != [] {
      var r := Remove(m, key);
      assert forall e :: e in m <==> e == m[0] || e in m[1..];
      if m[0].0 == key {
        NamesAreKeys(m[1..]);
      } else {
        RemoveSpec(m[1..], key);
        assert r[1..] == Remove(m[1..], key);
        assert forall e :: e in r <==> e == r[0] || e in r[1..];
      }
    }
  }

  lemma {:induction false} NamesAreKeys(m: BusyNames)
    ensures forall e :: e in m ==> e.0 in Names(m)
    ensures m == [] <==> Names(m) == {}
  {
    if m != [] {
      assert forall e :: e in m <==> e == m[0] || e in m[1..];
      NamesAreKeys(m[1..]);
      assert m[0].0 in Names(m);
    }
  }

  // ----- Steps -----

  /** A render captured its version earlier, so it is never ahead of the present one. */
  function Captured(b: Books, renderVersion: nat): nat {
    if renderVersion < b.version then renderVersion else b.version
  }

  function Started(b: Books, name: string, renderVersion: nat): Books {
    var domain := Domain(name);
    b.(owners := b.owners[domain := b.nextToken],
       busyNames := Put(b.busyNames, domain, name),
       busyDomains := b.busyDomains + {domain},
       annualReportAction := if domain == ANNUAL_REPORT then name else b.annualReportAction,
       busy := name,
       running := b.running[b.nextToken := Action(name, domain, Captured(b, renderVersion))],
       nextToken := b.nextToken + 1)
  }

  /** The action still owns its domain under its account version: the part of `isOwner` kept in the books. */
  predicate Owns(b: Books, token: nat) {
    && token in b.running
    && b.running[token].renderVersion == b.version
    && b.running[token].domain in b.owners && b.owners[b.running[token].domain] == token
  }

  predicate CommitTakesEffect(b: Books, token: nat, isCurrent: bool) {
    Owns(b, token) && isCurrent
  }

  function ResetBooks(b: Books): Books {
    b.(version := b.version + 1, owners := map[], busyNames := [], busyDomains := {}, annualReportAction := "",
       busy := "")
  }

  function Finished(b: Books, token: nat, failure: Failure, isCurrent: bool): Books {
    if token !in b.running then b
    else
      var action := b.running[token];
      // The error handler: an expired session resets the account, but only for an action that still owns its domain.
      var handled := if failure == Unauthorized && CommitTakesEffect(b, token, isCurrent) then ResetBooks(b) else b;
      var owned := Owns(handled, token);
      var released :=
        if !owned then handled
        else handled.(
          owners := handled.owners - {action.domain},
          busyNames := Remove(handled.busyNames, action.domain),
          busyDomains := handled.busyDomains - {action.domain},
          annualReportAction := if action.domain == ANNUAL_REPORT then "" else handled.annualReportAction);
      var labelled :=
        if handled.version == action.renderVersion then released.(busy := LastName(released.busyNames)) else released;
      labelled.(running := labelled.running - {token})
  }

  function Apply(b: Books, e: Event): Books {
    match e
    case Start(name, renderVersion) => Started(b, name, renderVersion)
    case Finish(token, failure, isCurrent) => Finished(b, token, failure, isCurrent)
    case Reset => ResetBooks(b)
  }

  function Run(events: seq<Event>): Books {
    if events == [] then INITIAL else Apply(Run(events[..|events| - 1]), events[|events| - 1])
  }

  // ----- The books agree in every reachable state -----

  ghost predicate BooksAgree(b: Books) {
    && Distinct(b.busyNames)
    && b.owners.Keys == Names(b.busyNames) == b.busyDomains
    && (forall e :: e in b.busyNames ==> Domain(e.1) == e.0)
  }

  /** Owners hold tokens already given out, each in the domain its running action names. */
  ghost predicate OwnersSound(b: Books) {
    && (forall d :: d in b.owners ==> b.owners[d] < b.nextToken)
    && (forall t :: t in b.running ==> t < b.nextToken && b.running[t].renderVersion <= b.version
                                       && b.running[t].domain == Domain(b.running[t].name))
    && (forall t, d :: t in b.running && d in b.owners && b.owners[d] == t ==> b.running[t].domain == d)
  }

  /** The annual-report label names that domain's busy action and is blank exactly when the domain is free. */
  ghost predicate ReportLabelAgrees(b: Books) {
    if ANNUAL_REPORT in b.owners
    then b.annualReportAction != "" && (ANNUAL_REPORT, b.annualReportAction) in b.busyNames
    else b.annualReportAction == ""
  }

  /** The busy label names a busy action and is blank exactly when there is none. */
  ghost predicate BusyLabelAgrees(b: Books) {
    if b.busyNames == [] then b.busy == "" else exists d :: (d, b.busy) in b.busyNames
  }

  ghost predicate LabelsAgree(b: Books) {
    ReportLabelAgrees(b) && BusyLabelAgrees(b)
  }

  lemma StepKeepsOwners(b: Books, e: Event)
    requires OwnersSound(b)
    ensures OwnersSound(Apply(b, e))
  {
  }

  lemma {:induction false} OwnersAlwaysSound(events: seq<Event>)
    ensures OwnersSound(Run(events))
  {
    if events != [] {
      OwnersAlwaysSound(events[..|events| - 1]);
      StepKeepsOwners(Run(events[..|events| - 1]), events[|events| - 1]);
    }
  }

  lemma StepKeepsBooks(b: Books, e: Event)
    requires BooksAgree(b) && OwnersSound(b)
    ensures BooksAgree(Apply(b, e))
  {
    match e {
      case Start(name, renderVersion) => PutSpec(b.busyNames, Domain(name), name);
      case Finish(token, failure, isCurrent) =>
        if token in b.running {
          RemoveSpec(b.busyNames, b.running[token].domain);
        }
      case Reset =>
    }
  }

  lemma LastIsListed(m: BusyNames)
    requires m != []
    ensures exists d :: (d, LastName(m)) in m
  {
    assert m[|m| - 1] == (m[|m| - 1].0, LastName(m));
  }

  lemma StartKeepsLabels(b: Books, name: string, renderVersion: nat)
    requires BooksAgree(b) && OwnersSound(b) && LabelsAgree(b)
    ensures LabelsAgree(Started(b, name, renderVersion))
  {
    PutSpec(b.busyNames, Domain(name), name);
    assert (Domain(name), name) in Put(b.busyNames, Domain(name), name);
  }

  lemma FinishKeepsReportLabel(b: Books, token: nat, failure: Failure, isCurrent: bool)
    requires BooksAgree(b) && ReportLabelAgrees(b)
    ensures ReportLabelAgrees(Finished(b, token, failure, isCurrent))
  {
    if token in b.running {
      RemoveSpec(b.busyNames, b.running[token].domain);
    }
  }

  lemma FinishKeepsBusyLabel(b: Books, token: nat, failure: Failure, isCurrent: bool)
    requires BusyLabelAgrees(b)
    ensures BusyLabelAgrees(Finished(b, token, failure, isCurrent))
  {
    var m := Finished(b, token, failure, isCurrent).busyNames;
    if m != [] {
      LastIsListed(m);
    }
  }

  lemma FinishKeepsLabels(b: Books, token: nat, failure: Failure, isCurrent: bool)
    requires BooksAgree(b) && LabelsAgree(b)
    ensures LabelsAgree(Finished(b, token, failure, isCurrent))
  {
    FinishKeepsReportLabel(b, token, failure, isCurrent);
    FinishKeepsBusyLabel(b, token, failure, isCurrent);
  }

  lemma StepKeepsLabels(b: Books, e: Event)
    requires BooksAgree(b) && OwnersSound(b) && LabelsAgree(b)
    ensures LabelsAgree(Apply(b, e))
  {
    match e {
      case Start(name, renderVersion) => StartKeepsLabels(b, name, renderVersion);
      case Finish(token, failure, isCurrent) => FinishKeepsLabels(b, token, failure, isCurrent);
      case Reset =>
    }
  }

  lemma StepKeepsAll(b: Books, e: Event)
    requires OwnersSound(b) && BooksAgree(b) && LabelsAgree(b)
    ensures OwnersSound(Apply(b, e)) && BooksAgree(Apply(b, e)) && LabelsAgree(Apply(b, e))
  {
    StepKeepsOwners(b, e);
    StepKeepsBooks(b, e);
    StepKeepsLabels(b, e);
  }

  /** A start names itself on the label, and on the reports' own label when it is an annual report. */
  lemma StartLabels(b: Books, name: string, renderVersion: nat)
    ensures var b' := Apply(b, Start(name, renderVersion));
            && b'.busy == name && b'.version == b.version
            && b'.annualReportAction == if IsAnnualReport(name) then name else b.annualReportAction
  {
    DomainOfKind(name);
  }

  /** When an action of the present account ends, the label names the busy domain that became busy last. */
  lemma LabelAfterFinish(b: Books, token: nat, failure: Failure, isCurrent: bool)
    requires token in b.running
    ensures var b' := Finished(b, token, failure, isCurrent);
            && (b'.version == b.running[token].renderVersion && b'.busyNames != [] ==>
                  b'.busy == b'.busyNames[|b'.busyNames| - 1].1)
            && (b'.version == b.running[token].renderVersion && b'.busyNames == [] ==> b'.busy == "")
            && (b'.version == b.version != b.running[token].renderVersion ==> b'.busy == b.busy)
  {
  }

  /**
   * The account changes with a reset, and with an expired session reported to an action that may still commit; with
   * nothing else, and by one version.
   */
  lemma AccountChangesIff(b: Books, e: Event)
    ensures Apply(b, e).version == b.version || Apply(b, e).version == b.version + 1
    ensures Apply(b, e).version == b.version + 1 <==>
            e.Reset? || (e.Finish? && e.failure == Unauthorized && CommitTakesEffect(b, e.token, e.isCurrent))
  {
  }

  /** In every reachable state owner keys, busy names and busy domains are one set and both labels are truthful. */
  lemma {:induction false} BooksAlwaysAgree(events: seq<Event>)
    ensures BooksAgree(Run(events)) && LabelsAgree(Run(events))
  {
    if events != [] {
      BooksAlwaysAgree(events[..|events| - 1]);
      OwnersAlwaysSound(events[..|events| - 1]);
      StepKeepsBooks(Run(events[..|events| - 1]), events[|events| - 1]);
      StepKeepsLabels(Run(events[..|events| - 1]), events[|events| - 1]);
    }
  }

  // ----- Latest wins -----

  /** The state after more events. */
  function RunFrom(b: Books, events: seq<Event>): Books
    decreases |events|
  {
    if events == [] then b else RunFrom(Apply(b, events[0]), events[1..])
  }

  /** The event takes the domain over or ends the action. */
  predicate Displaces(e: Event, domain: string, token: nat) {
    (e.Start? && Domain(e.name) == domain) || (e.Finish? && e.token == token)
  }

  lemma OwnershipStep(b: Books, e: Event, token: nat, domain: string)
    requires OwnersSound(b) && token < b.nextToken
    requires token in b.running ==> b.running[token].domain == domain
    ensures var b' := Apply(b, e);
            && b'.version >= b.version && token < b'.nextToken
            && (token in b'.running ==> b'.running[token].domain == domain)
            && (Owns(b', token) <==> Owns(b, token) && b'.version == b.version && !Displaces(e, domain, token))
  {
  }

  lemma {:induction false} OwnershipRun(b: Books, events: seq<Event>, token: nat, domain: string)
    requires OwnersSound(b) && token < b.nextToken
    requires token in b.running ==> b.running[token].domain == domain
    ensures RunFrom(b, events).version >= b.version
    ensures Owns(RunFrom(b, events), token) <==>
            && Owns(b, token) && RunFrom(b, events).version == b.version
            && forall e :: e in events ==> !Displaces(e, domain, token)
    decreases |events|
  {
    if events != [] {
      OwnershipStep(b, events[0], token, domain);
      StepKeepsOwners(b, events[0]);
      OwnershipRun(Apply(b, events[0]), events[1..], token, domain);
      assert forall e :: e in events <==> e == events[0] || e in events[1..];
    }
  }

  /**
   * Latest wins, for every run before and after a start: the action may commit if and only if its own check
   * says it is current, it was called from a render of the present account, and since it started no rival
   * started, the account did not change, and it has not itself finished.
   */
  lemma LatestWins(before: seq<Event>, name: string, renderVersion: nat, after: seq<Event>, isCurrent: bool)
    ensures var b := Run(before);
            var b' := RunFrom(Started(b, name, renderVersion), after);
            CommitTakesEffect(b', b.nextToken, isCurrent) <==>
              && isCurrent
              && renderVersion >= b.version && b'.version == b.version
              && forall e :: e in after ==>
                   !(e.Start? && Rivals(e.name, name)) && !(e.Finish? && e.token == b.nextToken)
  {
    var b := Run(before);
    forall e | e in after
      ensures Displaces(e, Domain(name), b.nextToken) <==>
              (e.Start? && Rivals(e.name, name)) || (e.Finish? && e.token == b.nextToken)
    {
      if e.Start? {
        RivalsShareTheirDomain(e.name, name);
      }
    }
    OwnersAlwaysSound(before);
    StepKeepsOwners(Run(before), Start(name, renderVersion));
    OwnershipRun(Started(Run(before), name, renderVersion), after, Run(before).nextToken, Domain(name));
  }

  // ----- The books drain -----

  /** The domains whose latest start under the present account was called from an older render. */
  function Strays(events: seq<Event>): set<string> {
    if events == [] then {}
    else
      var earlier, last := events[..|events| - 1], events[|events| - 1];
      StraysAfter(Run(earlier), Strays(earlier), last)
  }

  function StraysAfter(b: Books, strays: set<string>, e: Event): set<string> {
    if Apply(b, e).version != b.version then {}
    else if !e.Start? then strays
    else if e.renderVersion < b.version then strays + {Domain(e.name)}
    else strays - {Domain(e.name)}
  }

  /** Every booked domain either still has its action running under the present account, or is a stray. */
  ghost predicate EntriesExplained(b: Books, strays: set<string>) {
    && (forall d :: d in strays ==> d in b.owners && !Owns(b, b.owners[d]))
    && (forall d :: d in b.owners && d !in strays ==> Owns(b, b.owners[d]) && b.running[b.owners[d]].domain == d)
  }

  lemma StartExplained(b: Books, strays: set<string>, name: string, renderVersion: nat)
    requires OwnersSound(b) && EntriesExplained(b, strays)
    ensures EntriesExplained(Started(b, name, renderVersion), StraysAfter(b, strays, Start(name, renderVersion)))
  {
  }

  lemma FinishEffect(b: Books, token: nat, failure: Failure, isCurrent: bool)
    requires token in b.running
    ensures var b' := Finished(b, token, failure, isCurrent);
            var expires := failure == Unauthorized && CommitTakesEffect(b, token, isCurrent);
            && b'.running == b.running - {token} && b'.nextToken == b.nextToken
            && (expires ==> b'.version == b.version + 1 && b'.owners == map[])
            && (!expires ==> b'.version == b.version
                             && b'.owners == if Owns(b, token) then b.owners - {b.running[token].domain} else b.owners)
  {
  }

  lemma FinishExplained(b: Books, strays: set<string>, token: nat, failure: Failure, isCurrent: bool)
    requires OwnersSound(b) && EntriesExplained(b, strays)
    ensures EntriesExplained(Finished(b, token, failure, isCurrent),
                             StraysAfter(b, strays, Finish(token, failure, isCurrent)))
  {
    if token in b.running {
      FinishEffect(b, token, failure, isCurrent);
    }
  }

  lemma {:induction false} EntriesAlwaysExplained(events: seq<Event>)
    ensures EntriesExplained(Run(events), Strays(events))
  {
    if events != [] {
      var earlier := events[..|events| - 1];
      EntriesAlwaysExplained(earlier);
      OwnersAlwaysSound(earlier);
      match events[|events| - 1] {
        case Start(name, renderVersion) => StartExplained(Run(earlier), Strays(earlier), name, renderVersion);
        case Finish(token, failure, isCurrent) => FinishExplained(Run(earlier), Strays(earlier), token, failure,
                                                                  isCurrent);
        case Reset =>
      }
    }
  }

  /**
   * The books drain: once every action has finished, a domain is still booked if and only if the latest action
   * started in it under the present account was called from a render older than that account. So with no such
   * call the books are empty and every label is blank.
   */
  lemma BooksDrain(events: seq<Event>)
    requires Run(events).running == map[]
    ensures var b := Run(events);
            && b.owners.Keys == b.busyDomains == Names(b.busyNames) == Strays(events)
            && (Strays(events) == {} ==> b.busyNames == [] && b.annualReportAction == "" && b.busy == "")
  {
    EntriesAlwaysExplained(events);
    BooksAlwaysAgree(events);
    NamesAreKeys(Run(events).busyNames);
  }

  /** A call from the render before an account change leaves its domain booked and its name on the label for good. */
  lemma StaleCallStaysBooked(name: string) returns (events: seq<Event>)
    ensures var b := Run(events);
            && b.running == map[] && b.busyDomains == {Domain(name)} == b.owners.Keys
            && b.busyNames == [(Domain(name), name)] && b.busy == name
  {
    var e0: seq<Event> := [];
    var e1 := e0 + [Reset];
    var e2 := e1 + [Start(name, 0)];
    events := e2 + [Finish(0, NoFailure, true)];
    OneMoreEvent(e0, Reset);
    OneMoreEvent(e1, Start(name, 0));
    OneMoreEvent(e2, Finish(0, NoFailure, true));
  }

  lemma OneMoreEvent(events: seq<Event>, e: Event)
    ensures Run(events + [e]) == Apply(Run(events), e)
  {
    assert (events + [e])[..|events|] == events;
  }
}
