/** What the annual reports ask for follows the owner's inputs, over every run. */
module AnnualReportInputs {
  import opened Text
  import opened AnnualReports

  /** A lane's inputs: the year and the search asked for, the year of the bulk traversal, and how often it was typed. */
  datatype Inputs = Inputs(year: string, search: string, traversalYear: string, typed: nat)

  function InputsOf(ls: LaneState): Inputs {
    Inputs(ls.request.year, ls.request.search, ls.traversal.year, ls.inputGeneration)
  }

  /** The account changes with a reset, and with an expired session reported to an action that may still commit. */
  lemma AccountChangesIff(p: Panel, e: Event)
    ensures var p' := Apply(p, e);
            && (p'.version == p.version || p'.version == p.version + 1)
            && (p'.version == p.version + 1 <==>
                e.Reset? || (e.Finish? && e.token in p.ops && p.ops[e.token].stage == Answered
                             && e.expires.Some? && CanCommit(p, e.token)))
  {
  }

  /** The year an account change starts over with. */
  function YearOfNewAccount(p: Panel, e: Event): Option<string> {
    if e.Reset? then Some(e.year)
    else if e.Finish? && Apply(p, e).version != p.version then e.expires
    else None
  }

  /**
   * What one step does to a lane's inputs. A typed search counts at once; a settled one only if nothing was typed in
   * the lane since its timer was set; an account change empties the search and counts as typing.
   */
  function After(p: Panel, e: Event, lane: Lane, i: Inputs): Inputs {
    match e
    case ChangeYear(l, year) => if l == lane then i.(year := year, traversalYear := year) else i
    case ChangeSearch(l, search) => if l == lane then i.(search := search, typed := i.typed + 1) else i
    case SearchSettles(l, typed, search) => if l == lane && typed == i.typed then i.(search := search) else i
    case NewTraversal(l, year) => if l == lane then i.(traversalYear := year) else i
    case _ =>
      match YearOfNewAccount(p, e)
      case Some(year) => Inputs(year, "", year, i.typed + 1)
      case None => i
  }

  function AfterAll(p: Panel, events: seq<Event>, lane: Lane, i: Inputs): Inputs
    decreases |events|
  {
    if events == [] then i else AfterAll(Apply(p, events[0]), events[1..], lane, After(p, events[0], lane, i))
  }

  lemma InputFollows(p: Panel, e: Event, lane: Lane)
    requires e.ChangeYear? || e.ChangeSearch? || e.SearchSettles? || e.NewTraversal? || e.Reset?
    ensures InputsOf(LaneOf(Apply(p, e), lane)) == After(p, e, lane, InputsOf(LaneOf(p, lane)))
  {
  }

  lemma ReplyKeepsInputs(p: Panel, e: Event, lane: Lane)
    requires e.Reply?
    ensures InputsOf(LaneOf(Apply(p, e), lane)) == InputsOf(LaneOf(p, lane))
  {
    if e.answer.PageOf? {
      PageKeepsInputs(p, e, lane);
    }
  }

  lemma PageKeepsInputs(p: Panel, e: Event, lane: Lane)
    requires e.Reply? && e.answer.PageOf?
    ensures InputsOf(LaneOf(Apply(p, e), lane)) == InputsOf(LaneOf(p, lane))
  {
  }

  lemma ClickKeepsInputs(p: Panel, e: Event, lane: Lane)
    requires e.SendBulk? || e.LoadMore? || e.SendSingle? || e.StartRefresh? || e.Release?
    ensures InputsOf(LaneOf(Apply(p, e), lane)) == InputsOf(LaneOf(p, lane))
  {
  }

  lemma FinishFollows(p: Panel, e: Event, lane: Lane)
    requires e.Finish?
    ensures InputsOf(LaneOf(Apply(p, e), lane)) == After(p, e, lane, InputsOf(LaneOf(p, lane)))
  {
  }

  lemma StepFollowsInputs(p: Panel, e: Event, lane: Lane)
    ensures InputsOf(LaneOf(Apply(p, e), lane)) == After(p, e, lane, InputsOf(LaneOf(p, lane)))
  {
    if e.Reply? {
      ReplyKeepsInputs(p, e, lane);
    } else if e.Finish? {
      FinishFollows(p, e, lane);
    } else if e.SendBulk? || e.LoadMore? || e.SendSingle? || e.StartRefresh? || e.Release? {
      ClickKeepsInputs(p, e, lane);
    } else {
      InputFollows(p, e, lane);
    }
  }

  /**
   * Over every run: a lane asks for the year chosen last by a year change or an account change and for the search typed
   * or settled last, its traversal is for the year given to it last, and its inputs are counted.
   */
  lemma {:induction false} LanesFollowTheirInputs(p: Panel, events: seq<Event>, lane: Lane)
    ensures InputsOf(LaneOf(RunFrom(p, events), lane)) == AfterAll(p, events, lane, InputsOf(LaneOf(p, lane)))
    decreases |events|
  {
    if events != [] {
      StepFollowsInputs(p, events[0], lane);
      LanesFollowTheirInputs(Apply(p, events[0]), events[1..], lane);
    }
  }

  /** After its year change, a lane asks for that year as long as no other year and no other account comes. */
  lemma {:induction false} YearStaysChosen(p: Panel, events: seq<Event>, lane: Lane, year: string)
    requires LaneOf(p, lane).request.year == year
    requires RunFrom(p, events).version == p.version
    requires forall e :: e in events && e.ChangeYear? && e.lane == lane ==> e.year == year
    ensures LaneOf(RunFrom(p, events), lane).request.year == year
    decreases |events|
  {
    if events != [] {
      var e, next := events[0], Apply(p, events[0]);
      AccountChangesIff(p, e);
      VersionNeverFalls(next, events[1..]);
      StepFollowsInputs(p, e, lane);
      assert e in events && forall l :: l in events[1..] ==> l in events;
      YearStaysChosen(next, events[1..], lane, year);
    }
  }

  lemma {:induction false} VersionNeverFalls(p: Panel, events: seq<Event>)
    ensures RunFrom(p, events).version >= p.version
    decreases |events|
  {
    if events != [] {
      AccountChangesIff(p, events[0]);
      VersionNeverFalls(Apply(p, events[0]), events[1..]);
    }
  }

  /** Nothing is shown and the first page is to be asked for, under a later generation. */
  predicate ShowsNothingYet(before: LaneState, after: LaneState) {
    && after.preview.None? && after.previewCursor.None? && after.request.cursor.None?
    && after.request.generation == before.request.generation + 1
  }

  predicate StartsOver(before: LaneState, after: LaneState) {
    && after.traversal.generation == before.traversal.generation + 1
    && !after.traversal.started && after.traversal.cursor.None? && after.posts == []
  }

  /** A new year or search shows nothing until it is answered; a new year or traversal starts the bulk sending over. */
  lemma InputsClear(p: Panel, e: Event, lane: Lane)
    requires e.ChangeYear? || e.ChangeSearch? || e.SearchSettles? || e.NewTraversal?
    ensures var before, after := LaneOf(p, lane), LaneOf(Apply(p, e), lane);
            var settles :=
              e.SearchSettles? && e.inputGeneration == before.inputGeneration && e.search != before.request.search;
            && after.claims == before.claims
            && (if e.lane == lane && (e.ChangeYear? || e.ChangeSearch? || settles) then ShowsNothingYet(before, after)
                else after.request == before.request && after.preview == before.preview
                     && after.previewCursor == before.previewCursor)
            && (if e.lane == lane && (e.ChangeYear? || e.NewTraversal?) then StartsOver(before, after)
                else after.traversal == before.traversal && after.posts == before.posts)
            && Apply(p, e).shared == p.shared && Apply(p, e).owner == p.owner && Apply(p, e).ops == p.ops
  {
  }

  /** An account change clears both lanes, every claim and the owner. */
  lemma AccountChangeClears(p: Panel, e: Event, lane: Lane)
    requires Apply(p, e).version != p.version
    ensures var p' := Apply(p, e);
            && ShowsNothingYet(LaneOf(p, lane), LaneOf(p', lane)) && StartsOver(LaneOf(p, lane), LaneOf(p', lane))
            && LaneOf(p', lane).claims == map[] && p'.shared == map[] && p'.owner == None
  {
    AccountChangesIff(p, e);
  }

  /** The end of an answered action: without an account change it gives back only a domain it still owns. */
  lemma FinishGivesBack(p: Panel, token: nat, expires: Option<string>)
    requires token in p.ops && p.ops[token].stage == Answered
    ensures var p' := Apply(p, Finish(token, expires));
            && p'.ops == p.ops[token := p.ops[token].(stage := Ended)]
            && (p'.version == p.version ==>
                  && p'.lanes == p.lanes && p'.shared == p.shared
                  && p'.owner ==
                     if p.owner == Some(token) && p.ops[token].renderVersion == p.version then None else p.owner)
  {
  }
}
