/**
 * When the answer to a single send is used. Its request holds the cursor too, so a refresh that lands meanwhile with
 * a next cursor makes the answer count as outdated although year, search, generation and account are the same.
 */
module AnnualReportSingles {
  import opened Text
  import opened AnnualReports
  import opened AnnualReportClaims
  import opened AnnualReportPreview
  import opened AnnualReportAnswers

  /** A single send still waits for an answer, to its post or to the first page it asked for after that. */
  ghost predicate Waits(p: Panel, token: nat) {
    token in p.ops && p.ops[token].work.Single? && p.ops[token].stage == Waiting
  }

  ghost predicate SameAccount(p: Panel, op: Operation) {
    op.renderVersion == p.version
  }

  ghost predicate SameGeneration(p: Panel, op: Operation)
    requires op.work.Single?
  {
    LaneOf(p, op.lane).request.generation == op.work.request.generation
  }

  /** The step commits a refresh's first page, with more to come, to the lane in this generation. */
  ghost predicate RefreshLands(p: Panel, e: Event, lane: Lane, generation: nat) {
    && e.Reply? && e.allowed && e.answer.PageOf? && e.answer.page.nextCursor.Some?
    && e.token in p.ops
    && var op := p.ops[e.token];
       && op.work.Refresh? && op.stage == Waiting && op.lane == lane && op.renderVersion == p.version
       && op.work.request == LaneOf(p, lane).request && op.work.request.generation == generation
  }

  ghost predicate RefreshLanded(p: Panel, events: seq<Event>, lane: Lane, generation: nat)
    decreases |events|
  {
    events != [] &&
    (RefreshLands(p, events[0], lane, generation) || RefreshLanded(Apply(p, events[0]), events[1..], lane, generation))
  }

  // ----- One step -----

  /** What a waiting single send knows of its lane: `landed` says that a refresh landed since it asked. */
  ghost predicate Follows(p: Panel, op: Operation, landed: bool)
    requires op.work.Single?
  {
    var asked, current := op.work.request, LaneOf(p, op.lane).request;
    && op.renderVersion <= p.version && asked.generation <= current.generation
    && (SameAccount(p, op) && SameGeneration(p, op) ==>
          if landed then asked.cursor.None? && current.cursor.Some? else current == asked)
  }

  /** The lane's request stays, or moves to a later generation. */
  ghost predicate MovesOn(p: Panel, p': Panel, lane: Lane) {
    var before, after := LaneOf(p, lane).request, LaneOf(p', lane).request;
    p'.version >= p.version && (after == before || after.generation > before.generation)
  }

  lemma MovingOnKeepsFollowing(p: Panel, p': Panel, op: Operation, landed: bool)
    requires op.work.Single? && Follows(p, op, landed) && MovesOn(p, p', op.lane)
    ensures Follows(p', op, landed)
  {
  }

  /** Under the claim of a waiting single send no other claimed answer commits. */
  lemma OthersCommitNothing(p: Panel, token: nat, other: nat)
    requires Exclusive(p) && Waits(p, token) && SameAccount(p, p.ops[token]) && other != token
    ensures !CanCommit(p, other)
  {
    assert (p.ops[token].lane, p.ops[token].key.value) in p.shared;
  }

  lemma RefreshAnswerFollows(p: Panel, e: Event, op: Operation, landed: bool)
    requires AllInShape(p) && op.work.Single? && Follows(p, op, landed)
    requires e.Reply? && e.answer.PageOf? && e.token in p.ops
    requires p.ops[e.token].work.Refresh? && p.ops[e.token].stage == Waiting
    ensures Follows(RefreshAnswered(p, e.token, e.answer.page, e.allowed), op,
                    landed || RefreshLands(p, e, op.lane, op.work.request.generation))
  {
    assert AsksInShape(p.ops[e.token].work);
  }

  lemma PageAnswerFollows(p: Panel, token: nat, other: nat, page: Page, append: bool, landed: bool)
    requires Exclusive(p) && Waits(p, token) && Follows(p, p.ops[token], landed)
    requires other in p.ops && other != token && !p.ops[other].work.Bulk?
    ensures Follows(PageAnswered(p, other, page, append), p.ops[token], landed)
  {
    if SameAccount(p, p.ops[token]) {
      OthersCommitNothing(p, token, other);
    }
  }

  lemma AnswerMovesOn(p: Panel, e: Event, lane: Lane)
    requires e.Reply? && !e.answer.PageOf?
    ensures MovesOn(p, Apply(p, e), lane)
  {
  }

  lemma ReplyFollows(p: Panel, e: Event, token: nat, landed: bool)
    requires Exclusive(p) && AllInShape(p) && Waits(p, token) && Follows(p, p.ops[token], landed)
    requires e.Reply? && token in Apply(p, e).ops && Apply(p, e).ops[token] == p.ops[token]
    ensures var op := p.ops[token];
            Follows(Apply(p, e), op, landed || RefreshLands(p, e, op.lane, op.work.request.generation))
  {
    if !e.answer.PageOf? {
      AnswerMovesOn(p, e, p.ops[token].lane);
      MovingOnKeepsFollowing(p, Apply(p, e), p.ops[token], landed);
    } else if e.token in p.ops && p.ops[e.token].stage == Waiting && e.token != token {
      if p.ops[e.token].work.Refresh? {
        RefreshAnswerFollows(p, e, p.ops[token], landed);
      } else if !p.ops[e.token].work.Bulk? {
        PageAnswerFollows(p, token, e.token, e.answer.page, p.ops[e.token].work.More?, landed);
      }
    }
  }

  lemma ClickMovesOn(p: Panel, e: Event, lane: Lane)
    requires e.SendBulk? || e.LoadMore? || e.SendSingle? || e.StartRefresh?
    ensures MovesOn(p, Apply(p, e), lane)
  {
  }

  lemma InputMovesOn(p: Panel, e: Event, lane: Lane)
    requires e.ChangeYear? || e.ChangeSearch? || e.SearchSettles? || e.NewTraversal? || e.Reset?
    ensures MovesOn(p, Apply(p, e), lane)
  {
  }

  lemma EndMovesOn(p: Panel, e: Event, lane: Lane)
    requires e.Finish? || e.Release?
    ensures MovesOn(p, Apply(p, e), lane)
  {
  }

  lemma StepFollows(p: Panel, e: Event, token: nat, landed: bool)
    requires Exclusive(p) && AllInShape(p) && Waits(p, token) && Follows(p, p.ops[token], landed)
    requires token in Apply(p, e).ops && Apply(p, e).ops[token] == p.ops[token]
    ensures var op := p.ops[token];
            Follows(Apply(p, e), op, landed || RefreshLands(p, e, op.lane, op.work.request.generation))
  {
    var op := p.ops[token];
    if e.Reply? {
      ReplyFollows(p, e, token, landed);
    } else {
      if e.Finish? || e.Release? {
        EndMovesOn(p, e, op.lane);
      } else if e.SendBulk? || e.LoadMore? || e.SendSingle? || e.StartRefresh? {
        ClickMovesOn(p, e, op.lane);
      } else {
        InputMovesOn(p, e, op.lane);
      }
      MovingOnKeepsFollowing(p, Apply(p, e), op, landed);
    }
  }

  // ----- Whole runs -----

  /** With this step the send begins to wait under its present request: by the click, or after its post went out. */
  ghost predicate StartsWaiting(p: Panel, e: Event, token: nat) {
    || (e.SendSingle? && token == p.nextToken && Waits(Apply(p, e), token))
    || (e.Reply? && e.token == token && e.answer.SingleSent? && Waits(p, token) && !p.ops[token].work.replaced
        && CanCommit(p, token))
  }

  lemma WaitingWasAsked(p: Panel, e: Event, token: nat)
    requires TokensUsed(p) && Waits(Apply(p, e), token) && !StartsWaiting(p, e, token)
    ensures Waits(p, token) && Apply(p, e).ops[token] == p.ops[token]
  {
  }

  lemma StartFollows(p: Panel, e: Event, token: nat)
    requires TokensUsed(p) && StartsWaiting(p, e, token)
    ensures Waits(Apply(p, e), token) && Follows(Apply(p, e), Apply(p, e).ops[token], false)
  {
  }

  lemma {:induction false} RunSplits(p: Panel, events: seq<Event>, e: Event)
    ensures RunFrom(p, events + [e]) == Apply(RunFrom(p, events), e)
    ensures FreshRun(p, events + [e]) <==> FreshRun(p, events) && Fresh(RunFrom(p, events), e)
    decreases |events|
  {
    if events != [] {
      assert (events + [e])[1..] == events[1..] + [e];
      RunSplits(Apply(p, events[0]), events[1..], e);
    } else {
      assert (events + [e])[1..] == [];
    }
  }

  lemma {:induction false} LandedSplits(p: Panel, events: seq<Event>, e: Event, lane: Lane, generation: nat)
    ensures RefreshLanded(p, events + [e], lane, generation) <==>
            RefreshLanded(p, events, lane, generation) || RefreshLands(RunFrom(p, events), e, lane, generation)
    decreases |events|
  {
    if events != [] {
      assert (events + [e])[1..] == events[1..] + [e];
      LandedSplits(Apply(p, events[0]), events[1..], e, lane, generation);
    } else {
      assert (events + [e])[1..] == [];
    }
  }

  lemma {:induction false} ShapeOverRun(p: Panel, events: seq<Event>)
    requires AllInShape(p) && FreshRun(p, events)
    ensures AllInShape(RunFrom(p, events))
    decreases |events|
  {
    if events != [] {
      StepKeepsShape(p, events[0]);
      ShapeOverRun(Apply(p, events[0]), events[1..]);
    }
  }

  /** Where a waiting single send began to wait, and what its lane went through since. */
  ghost predicate AskedAt(p: Panel, events: seq<Event>, token: nat, asked: nat) {
    var now := RunFrom(p, events);
    && asked < |events| && StartsWaiting(RunFrom(p, events[..asked]), events[asked], token)
    && Waits(now, token)
    && var op := now.ops[token];
       var landed :=
         RefreshLanded(RunFrom(p, events[..asked + 1]), events[asked + 1..], op.lane, op.work.request.generation);
       Follows(now, op, landed)
  }

  lemma {:induction false} FollowsOverRun(p: Panel, events: seq<Event>, token: nat) returns (asked: nat)
    requires Exclusive(p) && AllInShape(p) && FreshRun(p, events) && p.ops == map[]
    requires Waits(RunFrom(p, events), token)
    ensures AskedAt(p, events, token, asked)
    decreases |events|
  {
    var n := |events| - 1;
    var earlier, last := events[..n], events[n];
    assert events == earlier + [last];
    RunSplits(p, earlier, last);
    RunKeepsExclusive(p, earlier);
    ShapeOverRun(p, earlier);
    var before := RunFrom(p, earlier);
    if StartsWaiting(before, last, token) {
      asked := n;
      StartFollows(before, last, token);
      assert events[..asked + 1] == events && events[asked + 1..] == [];
    } else {
      WaitingWasAsked(before, last, token);
      asked := FollowsOverRun(p, earlier, token);
      StepFollowsSince(p, earlier, last, token, asked);
    }
  }

  lemma StepFollowsSince(p: Panel, earlier: seq<Event>, last: Event, token: nat, asked: nat)
    requires var before := RunFrom(p, earlier);
             && Exclusive(before) && AllInShape(before) && Waits(before, token)
             && token in Apply(before, last).ops && Apply(before, last).ops[token] == before.ops[token]
    requires AskedAt(p, earlier, token, asked)
    ensures AskedAt(p, earlier + [last], token, asked)
  {
    var before, events := RunFrom(p, earlier), earlier + [last];
    var op := before.ops[token];
    var start := RunFrom(p, earlier[..asked + 1]);
    RunSplits(p, earlier, last);
    assert events[..asked] == earlier[..asked] && events[..asked + 1] == earlier[..asked + 1];
    assert events[asked + 1..] == earlier[asked + 1..] + [last];
    RunJoins(p, earlier, asked + 1);
    LandedSplits(start, earlier[asked + 1..], last, op.lane, op.work.request.generation);
    StepFollows(before, last, token, RefreshLanded(start, earlier[asked + 1..], op.lane, op.work.request.generation));
  }

  lemma {:induction false} RunJoins(p: Panel, events: seq<Event>, i: nat)
    requires i <= |events|
    ensures RunFrom(RunFrom(p, events[..i]), events[i..]) == RunFrom(p, events)
    decreases i
  {
    if i > 0 {
      assert events[..i][1..] == events[1..][..i - 1];
      assert events[i..] == events[1..][i - 1..];
      RunJoins(Apply(p, events[0]), events[1..], i - 1);
    } else {
      assert events[..0] == [] && events[0..] == events;
    }
  }

  /**
   * Over every run of fresh refreshes, the answer a single send waits for will be used if and only if neither the
   * account nor the lane's year, search or generation changed, and no refresh landed in the lane with more to come,
   * since the send began to wait under its request.
   */
  lemma SingleAnswerCommitsIff(year: string, events: seq<Event>, token: nat) returns (asked: nat)
    requires FreshRun(Initial(year), events) && Waits(RunFrom(Initial(year), events), token)
    ensures asked < |events| && StartsWaiting(RunFrom(Initial(year), events[..asked]), events[asked], token)
    ensures var p := RunFrom(Initial(year), events);
            var op := p.ops[token];
            var since := RunFrom(Initial(year), events[..asked + 1]);
            CanCommit(p, token) <==>
              && SameAccount(p, op) && SameGeneration(p, op)
              && !RefreshLanded(since, events[asked + 1..], op.lane, op.work.request.generation)
  {
    asked := FollowsOverRun(Initial(year), events, token);
    ReportsAreExclusive(year, events);
    AnswerCommitsIffCurrent(RunFrom(Initial(year), events), token);
  }

  // ----- What can be seen at the click -----

  /** A refresh of this very request is under way. */
  ghost predicate UnderWay(p: Panel, t: nat, lane: Lane, request: Request) {
    && t in p.ops && p.ops[t].work.Refresh? && p.ops[t].stage == Waiting
    && p.ops[t].lane == lane && p.ops[t].renderVersion == p.version && p.ops[t].work.request == request
  }

  ghost predicate SameQuestion(asked: Request, current: Request) {
    && asked.generation <= current.generation
    && (asked.generation == current.generation ==> asked.year == current.year && asked.search == current.search)
  }

  ghost predicate WaitingRefresh(p: Panel, t: nat) {
    t in p.ops && p.ops[t].work.Refresh? && p.ops[t].stage == Waiting
  }

  /** A refresh asks at most for the present generation, and then for its year and search. */
  ghost predicate RefreshesKeepUp(p: Panel) {
    forall t :: WaitingRefresh(p, t) ==> SameQuestion(p.ops[t].work.request, LaneOf(p, p.ops[t].lane).request)
  }

  /** The lane asks the same question as before, or a later one, and always a later one when the account changed. */
  ghost predicate AsksOn(p: Panel, p': Panel, lane: Lane) {
    var before, after := LaneOf(p, lane).request, LaneOf(p', lane).request;
    SameQuestion(before, after) && (p'.version != p.version ==> after.generation > before.generation)
  }

  lemma ClickAsksOn(p: Panel, e: Event, lane: Lane)
    requires e.SendBulk? || e.LoadMore? || e.SendSingle? || e.StartRefresh?
    ensures AsksOn(p, Apply(p, e), lane)
  {
  }

  lemma ReplyAsksOn(p: Panel, e: Event, lane: Lane)
    requires e.Reply?
    ensures AsksOn(p, Apply(p, e), lane)
  {
  }

  lemma OtherAsksOn(p: Panel, e: Event, lane: Lane)
    requires !(e.SendBulk? || e.LoadMore? || e.SendSingle? || e.StartRefresh? || e.Reply?)
    ensures AsksOn(p, Apply(p, e), lane)
  {
  }

  lemma StepAsksOn(p: Panel, e: Event, lane: Lane)
    ensures AsksOn(p, Apply(p, e), lane)
  {
    if e.Reply? {
      ReplyAsksOn(p, e, lane);
    } else if e.SendBulk? || e.LoadMore? || e.SendSingle? || e.StartRefresh? {
      ClickAsksOn(p, e, lane);
    } else {
      OtherAsksOn(p, e, lane);
    }
  }

  /** A refresh that waits now waited before, unless it is the one just started, which asks the present question. */
  ghost predicate RefreshWasThere(p: Panel, e: Event, t: nat) {
    var p' := Apply(p, e);
    WaitingRefresh(p', t) ==>
      || (WaitingRefresh(p, t) && p'.ops[t] == p.ops[t])
      || (e.StartRefresh? && p'.ops[t].lane == e.lane && p'.ops[t].work.request == LaneOf(p', e.lane).request
          && p'.version == p.version
          && (e.seenNull || LaneOf(p', e.lane).request.generation > LaneOf(p, e.lane).request.generation))
  }

  lemma ReplyStartsNoRefresh(p: Panel, e: Event, t: nat)
    requires e.Reply?
    ensures RefreshWasThere(p, e, t)
  {
  }

  lemma StepKeepsRefreshes(p: Panel, e: Event, t: nat)
    ensures RefreshWasThere(p, e, t)
  {
    if e.Reply? {
      ReplyStartsNoRefresh(p, e, t);
    }
  }

  lemma {:induction false} RefreshesKeepUpOverRun(p: Panel, events: seq<Event>)
    requires RefreshesKeepUp(p)
    ensures RefreshesKeepUp(RunFrom(p, events))
    decreases |events|
  {
    if events != [] {
      var e := events[0];
      var p' := Apply(p, e);
      forall t | WaitingRefresh(p', t)
        ensures SameQuestion(p'.ops[t].work.request, LaneOf(p', p'.ops[t].lane).request) {
        StepAsksOn(p, e, p'.ops[t].lane);
        StepKeepsRefreshes(p, e, t);
      }
      RefreshesKeepUpOverRun(p', events[1..]);
    }
  }

  /** A refresh of the lane called from a render without a preview: it may take up the present request. */
  predicate Blind(e: Event, lane: Lane) {
    e.StartRefresh? && e.lane == lane && e.seenNull
  }

  predicate NoneBlind(events: seq<Event>, lane: Lane) {
    forall e :: e in events ==> !Blind(e, lane)
  }

  /** No refresh of the generation can land any more. */
  ghost predicate Quiet(p: Panel, lane: Lane, generation: nat) {
    var current := LaneOf(p, lane).request;
    || current.generation > generation
    || (current.generation == generation
        && forall t, request: Request :: request.generation == generation ==> !UnderWay(p, t, lane, request))
  }

  lemma StaysQuiet(p: Panel, e: Event, lane: Lane, generation: nat)
    requires Quiet(p, lane, generation) && !Blind(e, lane)
    ensures Quiet(Apply(p, e), lane, generation)
  {
    var p' := Apply(p, e);
    StepAsksOn(p, e, lane);
    forall t, request: Request | request.generation == generation
      ensures LaneOf(p', lane).request.generation <= generation ==> !UnderWay(p', t, lane, request)
    {
      StepKeepsRefreshes(p, e, t);
      assert !UnderWay(p, t, lane, request) || LaneOf(p, lane).request.generation > generation;
    }
  }

  lemma {:induction false} QuietRunLandsNothing(p: Panel, events: seq<Event>, lane: Lane, generation: nat)
    requires Quiet(p, lane, generation) && NoneBlind(events, lane)
    ensures !RefreshLanded(p, events, lane, generation)
    decreases |events|
  {
    if events != [] {
      assert RefreshLands(p, events[0], lane, generation) ==>
          UnderWay(p, events[0].token, lane, p.ops[events[0].token].work.request);
      StaysQuiet(p, events[0], lane, generation);
      QuietRunLandsNothing(Apply(p, events[0]), events[1..], lane, generation);
    }
  }

  /** The operation stays as it is throughout the run. */
  ghost predicate StaysPut(p: Panel, events: seq<Event>, token: nat)
    requires token in p.ops
    decreases |events|
  {
    events != [] ==>
      var next := Apply(p, events[0]);
      token in next.ops && next.ops[token] == p.ops[token] && StaysPut(next, events[1..], token)
  }

  lemma {:induction false} FollowsForward(p: Panel, events: seq<Event>, token: nat, landed: bool)
    requires Exclusive(p) && AllInShape(p) && FreshRun(p, events)
    requires Waits(p, token) && StaysPut(p, events, token) && Follows(p, p.ops[token], landed)
    ensures var op, now := p.ops[token], RunFrom(p, events);
            && Exclusive(now) && token in now.ops && now.ops[token] == op
            && Follows(now, op, landed || RefreshLanded(p, events, op.lane, op.work.request.generation))
    decreases |events|
  {
    if events != [] {
      var op, e := p.ops[token], events[0];
      StepFollows(p, e, token, landed);
      StepKeepsExclusive(p, e);
      StepKeepsShape(p, e);
      FollowsForward(Apply(p, e), events[1..], token,
                     landed || RefreshLands(p, e, op.lane, op.work.request.generation));
    }
  }

  /** However the run goes on, pages honest and no refresh blind, the answer commits in its account and generation. */
  ghost predicate NeverLost(catalog: Catalog, p: Panel, token: nat)
    requires Waits(p, token)
  {
    var op := p.ops[token];
    forall events | HonestFreshRun(catalog, p, events) && StaysPut(p, events, token) && NoneBlind(events, op.lane) ::
      SameAccount(RunFrom(p, events), op) && SameGeneration(RunFrom(p, events), op) ==>
        CanCommit(RunFrom(p, events), token)
  }

  lemma {:induction false} HonestRunIsFresh(catalog: Catalog, p: Panel, events: seq<Event>)
    requires HonestFreshRun(catalog, p, events)
    ensures FreshRun(p, events)
    decreases |events|
  {
    if events != [] {
      HonestRunIsFresh(catalog, Apply(p, events[0]), events[1..]);
    }
  }

  lemma RefreshOfPresentGeneration(p: Panel, t: nat, lane: Lane, request: Request)
    requires AllInShape(p) && RefreshesKeepUp(p) && LaneOf(p, lane).request.cursor.None?
    requires request.generation == LaneOf(p, lane).request.generation
    ensures UnderWay(p, t, lane, request) ==> request == LaneOf(p, lane).request
  {
    if UnderWay(p, t, lane, request) {
      assert WaitingRefresh(p, t) && AsksInShape(p.ops[t].work);
    }
  }

  /** A first page of a list of at most one donor has nothing after it. */
  lemma ShortListLandsNothing(catalog: Catalog, p: Panel, e: Event, lane: Lane, asked: Request)
    requires AllInShape(p) && Honest(catalog, p, e) && SameQuestion(asked, LaneOf(p, lane).request)
    requires |catalog(lane, asked.year, asked.search)| < 2
    ensures !RefreshLands(p, e, lane, asked.generation)
  {
    assert e.Reply? && e.token in p.ops ==> AsksInShape(p.ops[e.token].work);
  }

  lemma {:induction false} ShortListNeverLands(
    catalog: Catalog, p: Panel, events: seq<Event>, lane: Lane, asked: Request)
    requires AllInShape(p) && HonestFreshRun(catalog, p, events) && SameQuestion(asked, LaneOf(p, lane).request)
    requires |catalog(lane, asked.year, asked.search)| < 2
    ensures !RefreshLanded(p, events, lane, asked.generation)
    decreases |events|
  {
    if events != [] {
      ShortListLandsNothing(catalog, p, events[0], lane, asked);
      StepKeepsShape(p, events[0]);
      StepAsksOn(p, events[0], lane);
      ShortListNeverLands(catalog, Apply(p, events[0]), events[1..], lane, asked);
    }
  }

  /** A refresh of this very request is under way, and its first page can have more after it. */
  ghost predicate Threatened(catalog: Catalog, p: Panel, op: Operation)
    requires op.work.Single?
  {
    && |catalog(op.lane, op.work.request.year, op.work.request.search)| >= 2
    && exists t :: UnderWay(p, t, op.lane, op.work.request)
  }

  lemma SafeSendLandsNothing(catalog: Catalog, p: Panel, token: nat, events: seq<Event>)
    requires AllInShape(p) && RefreshesKeepUp(p) && Waits(p, token) && CanCommit(p, token)
    requires HonestFreshRun(catalog, p, events) && NoneBlind(events, p.ops[token].lane)
    requires !Threatened(catalog, p, p.ops[token]) && p.ops[token].work.request.cursor.None?
    ensures !RefreshLanded(p, events, p.ops[token].lane, p.ops[token].work.request.generation)
  {
    var op := p.ops[token];
    var asked := op.work.request;
    if |catalog(op.lane, asked.year, asked.search)| < 2 {
      ShortListNeverLands(catalog, p, events, op.lane, asked);
    } else {
      forall t, request: Request | request.generation == asked.generation ensures !UnderWay(p, t, op.lane, request) {
        RefreshOfPresentGeneration(p, t, op.lane, request);
      }
      QuietRunLandsNothing(p, events, op.lane, asked.generation);
    }
  }

  lemma SafeSendCommits(catalog: Catalog, p: Panel, token: nat, events: seq<Event>)
    requires Exclusive(p) && AllInShape(p) && RefreshesKeepUp(p) && Waits(p, token) && CanCommit(p, token)
    requires HonestFreshRun(catalog, p, events) && StaysPut(p, events, token) && NoneBlind(events, p.ops[token].lane)
    requires !Threatened(catalog, p, p.ops[token])
    ensures var op, now := p.ops[token], RunFrom(p, events);
            SameAccount(now, op) && SameGeneration(now, op) ==> CanCommit(now, token)
  {
    HonestRunIsFresh(catalog, p, events);
    FollowsForward(p, events, token, false);
    AnswerCommitsIffCurrent(RunFrom(p, events), token);
    if p.ops[token].work.request.cursor.None? {
      SafeSendLandsNothing(catalog, p, token, events);
    }
  }

  lemma RefreshUnderWayCanLose(catalog: Catalog, p: Panel, token: nat, t: nat)
    requires Exclusive(p) && AllInShape(p) && Waits(p, token) && CanCommit(p, token)
    requires UnderWay(p, t, p.ops[token].lane, p.ops[token].work.request)
    requires var op := p.ops[token]; |catalog(op.lane, op.work.request.year, op.work.request.search)| >= 2
    ensures !NeverLost(catalog, p, token)
  {
    var op := p.ops[token];
    var results := catalog(op.lane, op.work.request.year, op.work.request.search);
    var e := Reply(t, PageOf(Page(op.work.request.year, results[..1], Some(1), true)), true);
    var now := Apply(p, e);
    assert AsksInShape(p.ops[t].work);
    assert [e][1..] == [];
    assert RunFrom(p, [e]) == RunFrom(now, []) == now;
    assert HonestFreshRun(catalog, now, []) && HonestFreshRun(catalog, p, [e]);
    assert StaysPut(now, [], token) && StaysPut(p, [e], token);
    assert LaneOf(now, op.lane).request == op.work.request.(cursor := Some(1));
  }

  /**
   * What the owner's click depends on: in any reachable state where a single send waits and would commit, some run with
   * honest pages and without blind refreshes loses its answer if and only if a refresh of its very request is under way
   * and the results number at least two.
   */
  lemma SendCanBeLostIff(catalog: Catalog, year: string, before: seq<Event>, token: nat)
    requires FreshRun(Initial(year), before)
    requires Waits(RunFrom(Initial(year), before), token) && CanCommit(RunFrom(Initial(year), before), token)
    ensures var p := RunFrom(Initial(year), before);
            !NeverLost(catalog, p, token) <==> Threatened(catalog, p, p.ops[token])
  {
    var p := RunFrom(Initial(year), before);
    var op := p.ops[token];
    ReportsAreExclusive(year, before);
    ShapeOverRun(Initial(year), before);
    RefreshesKeepUpOverRun(Initial(year), before);
    if Threatened(catalog, p, op) {
      var t :| UnderWay(p, t, op.lane, op.work.request);
      RefreshUnderWayCanLose(catalog, p, token, t);
    } else {
      forall events | HonestFreshRun(catalog, p, events) && StaysPut(p, events, token) && NoneBlind(events, op.lane)
        ensures SameAccount(RunFrom(p, events), op) && SameGeneration(RunFrom(p, events), op) ==>
                  CanCommit(RunFrom(p, events), token)
      {
        SafeSendCommits(catalog, p, token, events);
      }
    }
  }
}
