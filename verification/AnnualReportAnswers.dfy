/** When the answer to "load more" is used: always, unless its lane was asked for something else meanwhile. */
module AnnualReportAnswers {
  import opened Text
  import opened AnnualReports
  import opened AnnualReportClaims
  import opened AnnualReportPreview

  ghost predicate AllInShape(p: Panel) {
    forall t :: t in p.ops ==> AsksInShape(p.ops[t].work)
  }

  /** A page still wanted was asked for in this generation only from the cursor where the preview now ends. */
  ghost predicate Pinned(p: Panel, t: nat)
    requires t in p.ops
  {
    p.ops[t].work.More? && p.ops[t].stage == Waiting && p.ops[t].renderVersion == p.version ==>
      var asked, current := p.ops[t].work.request, LaneOf(p, p.ops[t].lane).request;
      asked.generation <= current.generation && (asked.generation == current.generation ==> asked == current)
  }

  ghost predicate AllPinned(p: Panel) {
    forall t :: t in p.ops ==> Pinned(p, t)
  }

  /** Each lane's request is the same or of a later generation, and no page request appears or wakes up. */
  ghost predicate OnlyMovesOn(p: Panel, p': Panel) {
    && p'.version == p.version
    && (forall lane :: LaneOf(p', lane).request == LaneOf(p, lane).request
                       || LaneOf(p', lane).request.generation > LaneOf(p, lane).request.generation)
    && (forall t :: t in p'.ops && p'.ops[t].work.More? && p'.ops[t].stage == Waiting ==>
          && t in p.ops && p.ops[t].work == p'.ops[t].work && p.ops[t].stage == Waiting
          && p.ops[t].lane == p'.ops[t].lane && p.ops[t].renderVersion == p'.ops[t].renderVersion)
  }

  lemma MovingOnKeepsPinned(p: Panel, p': Panel)
    requires AllPinned(p) && OnlyMovesOn(p, p')
    ensures AllPinned(p')
  {
    forall t | t in p'.ops && p'.ops[t].work.More? && p'.ops[t].stage == Waiting ensures Pinned(p', t) {
      assert Pinned(p, t);
    }
  }

  /** Under the claim of one operation there is no other page request of the present account. */
  lemma NoOtherPageWhileHeld(p: Panel, token: nat, t: nat)
    requires Exclusive(p) && Holds(p, token)
    requires t in p.ops && p.ops[t].work.More? && p.ops[t].renderVersion == p.version
    ensures t == token
  {
    assert (p.ops[token].lane, p.ops[token].key.value) in p.shared;
    assert (p.ops[t].lane, p.ops[t].key.value) in p.shared;
  }

  lemma BeginKeepsPinned(p: Panel, lane: Lane, key: ClaimKey, work: Work, renderVersion: nat)
    requires Exclusive(p) && AllPinned(p) && (work.More? ==> work.request == LaneOf(p, lane).request)
    ensures AllPinned(Begun(p, lane, key, work, renderVersion))
  {
    var p' := Begun(p, lane, key, work, renderVersion);
    forall t | t in p'.ops ensures Pinned(p', t) {
      if t in p.ops && p' != p {
        assert t != p.nextToken;
        assert Pinned(p, t);
      }
    }
  }

  lemma PageAnswerKeepsPinned(p: Panel, token: nat, page: Page, append: bool)
    requires Exclusive(p) && AllPinned(p) && token in p.ops && !p.ops[token].work.Bulk?
    ensures AllPinned(PageAnswered(p, token, page, append))
  {
    var p' := PageAnswered(p, token, page, append);
    if CanCommit(p, token) {
      forall t | t in p'.ops && p'.ops[t].work.More? && p'.ops[t].stage == Waiting
                 && p'.ops[t].renderVersion == p'.version
        ensures false
      {
        NoOtherPageWhileHeld(p, token, t);
      }
    } else {
      MovingOnKeepsPinned(p, p');
    }
  }

  lemma RefreshAnswerKeepsPinned(p: Panel, token: nat, page: Page, allowed: bool)
    requires AllPinned(p) && AllInShape(p) && token in p.ops && p.ops[token].work.Refresh?
    ensures AllPinned(RefreshAnswered(p, token, page, allowed))
  {
    var p' := RefreshAnswered(p, token, page, allowed);
    forall t | t in p'.ops ensures Pinned(p', t) {
      assert Pinned(p, t) && AsksInShape(p.ops[t].work) && AsksInShape(p.ops[token].work);
    }
  }

  lemma FailureKeepsPinned(p: Panel, token: nat)
    requires AllPinned(p) && token in p.ops
    ensures AllPinned(RequestFailed(p, token))
  {
    MovingOnKeepsPinned(p, RequestFailed(p, token));
  }

  lemma BulkAnswerKeepsPinned(p: Panel, token: nat, next: Cursor, hasMore: bool)
    requires AllPinned(p) && token in p.ops && p.ops[token].work.Bulk?
    ensures AllPinned(BulkAnswered(p, token, next, hasMore))
  {
    MovingOnKeepsPinned(p, BulkAnswered(p, token, next, hasMore));
  }

  lemma SingleAnswerKeepsPinned(p: Panel, token: nat)
    requires AllPinned(p) && token in p.ops && p.ops[token].work.Single?
    ensures AllPinned(SingleAnswered(p, token))
  {
    MovingOnKeepsPinned(p, SingleAnswered(p, token));
  }

  lemma ReplyKeepsPinned(p: Panel, token: nat, answer: Answer, allowed: bool)
    requires Exclusive(p) && AllPinned(p) && AllInShape(p)
    ensures AllPinned(Replied(p, token, answer, allowed))
  {
    if token in p.ops && p.ops[token].stage == Waiting {
      var work := p.ops[token].work;
      match answer {
        case Failure => FailureKeepsPinned(p, token);
        case BulkSent(next, hasMore) =>
          if work.Bulk? {
            BulkAnswerKeepsPinned(p, token, next, hasMore);
          }
        case SingleSent =>
          if work.Single? && !work.replaced {
            SingleAnswerKeepsPinned(p, token);
          }
        case PageOf(page) =>
          if work.Refresh? {
            RefreshAnswerKeepsPinned(p, token, page, allowed);
          } else if work.More? || (work.Single? && work.replaced) {
            PageAnswerKeepsPinned(p, token, page, work.More?);
          }
      }
    }
  }

  lemma StepKeepsShape(p: Panel, e: Event)
    requires AllInShape(p) && Fresh(p, e)
    ensures AllInShape(Apply(p, e))
  {
    match e {
      case SendBulk(lane, renderVersion, confirmed) =>
        assert AllInShape(BulkClicked(p, lane, renderVersion, confirmed));
      case LoadMore(_, _, _, _) =>
      case SendSingle(_, _, _, _, _) =>
      case StartRefresh(lane, renderVersion, year, search, seenNull) =>
        assert AllInShape(RefreshStarted(p, lane, renderVersion, year, search, seenNull));
      case Reply(token, answer, allowed) => ReplyKeepsShape(p, token, answer, allowed);
      case _ =>
    }
  }

  lemma ReplyKeepsShape(p: Panel, token: nat, answer: Answer, allowed: bool)
    requires AllInShape(p)
    ensures AllInShape(Replied(p, token, answer, allowed))
  {
  }

  lemma BulkClickKeepsPinned(p: Panel, lane: Lane, renderVersion: nat, confirmed: bool)
    requires Exclusive(p) && AllPinned(p)
    ensures AllPinned(BulkClicked(p, lane, renderVersion, confirmed))
  {
    var bulk := NextBulk(LaneOf(p, lane).traversal);
    var key := BulkKey(bulk.generation, bulk.year, bulk.cursor);
    BeginKeepsPinned(p, lane, key, Bulk(bulk), renderVersion);
    var p' := BulkClicked(p, lane, renderVersion, confirmed);
    if p' != p {
      MovingOnKeepsPinned(Begun(p, lane, key, Bulk(bulk), renderVersion), p');
    }
  }

  lemma InputKeepsPinned(p: Panel, e: Event)
    requires AllPinned(p)
    requires e.ChangeYear? || e.ChangeSearch? || e.SearchSettles? || e.NewTraversal?
    ensures AllPinned(Apply(p, e))
  {
    MovingOnKeepsPinned(p, Apply(p, e));
  }

  lemma RefreshKeepsPinned(p: Panel, lane: Lane, renderVersion: nat, year: string, search: string, seenNull: bool)
    requires AllPinned(p)
    ensures AllPinned(RefreshStarted(p, lane, renderVersion, year, search, seenNull))
  {
    MovingOnKeepsPinned(p, RefreshStarted(p, lane, renderVersion, year, search, seenNull));
  }

  lemma ReleaseKeepsPinned(p: Panel, token: nat)
    requires AllPinned(p)
    ensures AllPinned(Released(p, token))
  {
    MovingOnKeepsPinned(p, Released(p, token));
  }

  lemma StepKeepsPinned(p: Panel, e: Event)
    requires Exclusive(p) && AllPinned(p) && AllInShape(p) && Fresh(p, e)
    ensures AllPinned(Apply(p, e))
  {
    match e {
      case SendBulk(lane, renderVersion, confirmed) => BulkClickKeepsPinned(p, lane, renderVersion, confirmed);
      case LoadMore(lane, renderVersion, _, _) =>
        var request := LaneOf(p, lane).request;
        BeginKeepsPinned(p, lane, PageKey(request), More(request), renderVersion);
      case SendSingle(lane, renderVersion, _, _, _) =>
        var request := LaneOf(p, lane).request;
        BeginKeepsPinned(p, lane, SingleKey(request.generation, request.year), Single(request, false), renderVersion);
      case StartRefresh(lane, renderVersion, year, search, seenNull) =>
        RefreshKeepsPinned(p, lane, renderVersion, year, search, seenNull);
      case Reply(token, answer, allowed) => ReplyKeepsPinned(p, token, answer, allowed);
      case Finish(token, expires) => FinishKeepsPinned(p, token, expires);
      case Release(token) => ReleaseKeepsPinned(p, token);
      case Reset(year) => ResetKeepsPinned(p, year);
      case _ => InputKeepsPinned(p, e);
    }
  }

  lemma ResetKeepsPinned(p: Panel, year: string)
    requires TokensUsed(p)
    ensures AllPinned(ResetPanel(p, year))
  {
  }

  lemma FinishKeepsPinned(p: Panel, token: nat, expires: Option<string>)
    requires TokensUsed(p) && AllPinned(p)
    ensures AllPinned(Finished(p, token, expires))
  {
    if expires.Some? && CanCommit(p, token) {
      ResetKeepsPinned(p, expires.value);
    } else {
      MovingOnKeepsPinned(p, Finished(p, token, expires));
    }
  }

  ghost predicate FreshRun(p: Panel, events: seq<Event>)
    decreases |events|
  {
    events != [] ==> Fresh(p, events[0]) && FreshRun(Apply(p, events[0]), events[1..])
  }

  lemma {:induction false} RunKeepsPinned(p: Panel, events: seq<Event>)
    requires Exclusive(p) && AllPinned(p) && AllInShape(p) && FreshRun(p, events)
    ensures AllPinned(RunFrom(p, events))
    decreases |events|
  {
    if events != [] {
      StepKeepsExclusive(p, events[0]);
      StepKeepsPinned(p, events[0]);
      StepKeepsShape(p, events[0]);
      RunKeepsPinned(Apply(p, events[0]), events[1..]);
    }
  }

  /**
   * Over every run of fresh refreshes, the page that "load more" waits for will be used if and only if neither
   * the account nor the lane's year, search or generation changed since it was asked for.
   */
  lemma PageCommitsIffLaneUnchanged(year: string, events: seq<Event>, token: nat)
    requires FreshRun(Initial(year), events)
    requires var p := RunFrom(Initial(year), events);
             token in p.ops && p.ops[token].work.More? && p.ops[token].stage == Waiting
    ensures var p := RunFrom(Initial(year), events);
            CanCommit(p, token) <==>
              p.ops[token].renderVersion == p.version
              && p.ops[token].work.request.generation == LaneOf(p, p.ops[token].lane).request.generation
  {
    ReportsAreExclusive(year, events);
    RunKeepsPinned(Initial(year), events);
    assert Pinned(RunFrom(Initial(year), events), token);
    AnswerCommitsIffCurrent(RunFrom(Initial(year), events), token);
  }
}
