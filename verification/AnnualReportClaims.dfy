/** Mutual exclusion of the annual reports: what the claims keep over every run, and when an answer commits. */
module AnnualReportClaims {
  import opened Text
  import opened AnnualReports

  function ClaimsOf(p: Panel, lane: Lane): map<ClaimKey, nat> {
    LaneOf(p, lane).claims
  }

  /** The shared claims are exactly the two lanes' claims. */
  ghost predicate SharedIsUnion(p: Panel) {
    forall lane, key ::
      && ((lane, key) in p.shared <==> key in ClaimsOf(p, lane))
      && ((lane, key) in p.shared ==> p.shared[(lane, key)] == ClaimsOf(p, lane)[key])
  }

  ghost predicate AtMostOne(p: Panel) {
    forall x, y :: x in p.shared && y in p.shared ==> x == y
  }

  /** A claim belongs to the operation that took it, which owns the domain until its action has ended. */
  ghost predicate ClaimsHaveOwners(p: Panel) {
    forall x :: x in p.shared ==>
      var t := p.shared[x];
      && t in p.ops && p.ops[t].lane == x.0 && p.ops[t].key == Some(x.1)
      && (p.ops[t].stage != Ended ==> p.owner == Some(t))
  }

  /** An operation begun under the present account holds its claim until the claim is released. */
  ghost predicate OperationsHold(p: Panel) {
    forall t :: t in p.ops && p.ops[t].key.Some? && p.ops[t].renderVersion == p.version ==>
      var x := (p.ops[t].lane, p.ops[t].key.value);
      x in p.shared && p.shared[x] == t
  }

  ghost predicate TokensUsed(p: Panel) {
    forall t :: t in p.ops ==>
      t < p.nextToken && p.ops[t].renderVersion <= p.version && (p.ops[t].key.None? <==> p.ops[t].work.Refresh?)
  }

  ghost predicate Exclusive(p: Panel) {
    SharedIsUnion(p) && AtMostOne(p) && ClaimsHaveOwners(p) && OperationsHold(p) && TokensUsed(p)
  }

  // ----- Steps that leave the claims alone -----

  /** An operation that keeps its place: same lane, claim and render, not newly ended. */
  ghost predicate KeepsPlace(before: Operation, after: Operation) {
    && after.lane == before.lane && after.key == before.key && after.renderVersion == before.renderVersion
    && (after.stage == Ended <==> before.stage == Ended)
    && (after.work.Refresh? <==> before.work.Refresh?)
  }

  ghost predicate ClaimsUntouched(p: Panel, p': Panel) {
    && p'.version == p.version && p'.shared == p.shared && p'.owner == p.owner && p'.nextToken >= p.nextToken
    && ClaimsOf(p', Certificates) == ClaimsOf(p, Certificates) && ClaimsOf(p', Statements) == ClaimsOf(p, Statements)
    && (forall t :: t in p.ops && p.ops[t].key.Some? ==> t in p'.ops)
    && (forall t :: t in p'.ops ==>
          if t in p.ops then KeepsPlace(p.ops[t], p'.ops[t])
          else t < p'.nextToken && p'.ops[t].renderVersion <= p'.version
               && p'.ops[t].key.None? && p'.ops[t].work.Refresh?)
  }

  lemma UntouchedKeepsExclusive(p: Panel, p': Panel)
    requires Exclusive(p) && ClaimsUntouched(p, p')
    ensures Exclusive(p')
  {
    forall lane ensures ClaimsOf(p', lane) == ClaimsOf(p, lane) {
      match lane { case Certificates => case Statements => }
    }
  }

  lemma StagingLeavesClaims(p: Panel, lane: Lane, ls: LaneState, token: nat, stage: Stage)
    requires TokensUsed(p) && token in p.ops && p.ops[token].stage != Ended && stage != Ended
    requires ls.claims == ClaimsOf(p, lane)
    ensures ClaimsUntouched(p, Staged(p, token, stage))
    ensures ClaimsUntouched(p, Staged(SetLane(p, lane, ls), token, stage))
  {
  }

  lemma LaneLeavesClaims(p: Panel, lane: Lane, ls: LaneState)
    requires TokensUsed(p) && ls.claims == ClaimsOf(p, lane)
    ensures ClaimsUntouched(p, SetLane(p, lane, ls))
  {
  }

  lemma RefreshAnswerLeavesClaims(p: Panel, lane: Lane, ls: LaneState, token: nat)
    requires TokensUsed(p) && token in p.ops && p.ops[token].work.Refresh?
    requires ls.claims == ClaimsOf(p, lane)
    ensures ClaimsUntouched(p, p.(ops := p.ops - {token}))
    ensures ClaimsUntouched(p, SetLane(p.(ops := p.ops - {token}), lane, ls))
  {
  }

  lemma SingleLeavesClaims(p: Panel, token: nat)
    requires TokensUsed(p) && token in p.ops && p.ops[token].work.Single? && p.ops[token].stage == Waiting
    ensures ClaimsUntouched(p, SingleAnswered(p, token))
  {
  }

  lemma ReplyLeavesClaims(p: Panel, token: nat, answer: Answer, allowed: bool)
    requires TokensUsed(p)
    ensures ClaimsUntouched(p, Replied(p, token, answer, allowed))
  {
    if token in p.ops && p.ops[token].stage == Waiting {
      var op, ls := p.ops[token], LaneOf(p, p.ops[token].lane);
      match answer {
        case Failure =>
          if op.work.Refresh? {
            RefreshAnswerLeavesClaims(p, op.lane, ls, token);
          } else {
            StagingLeavesClaims(p, op.lane, ls.(posts := Settled(ls.posts, token, Failed)), token, Answered);
          }
        case BulkSent(next, hasMore) =>
          if op.work.Bulk? {
            var settled := ls.(posts := Settled(ls.posts, token, Sent(next, hasMore)));
            var advanced := if CanCommit(p, token) then Advanced(settled, op.work.bulk, next, hasMore) else settled;
            StagingLeavesClaims(p, op.lane, advanced,
                                token, Answered);
          }
        case SingleSent =>
          if op.work.Single? && !op.work.replaced {
            SingleLeavesClaims(p, token);
          }
        case PageOf(page) =>
          if op.work.Refresh? {
            RefreshAnswerLeavesClaims(p, op.lane, Committed(ls, op.work.request, page, false), token);
          } else if !op.work.Bulk? {
            StagingLeavesClaims(p, op.lane, Committed(ls, op.work.request, page, op.work.More?), token, Answered);
          }
      }
    }
  }

  lemma RefreshLeavesClaims(p: Panel, lane: Lane, renderVersion: nat, year: string, search: string, seenNull: bool)
    requires TokensUsed(p)
    ensures ClaimsUntouched(p, RefreshStarted(p, lane, renderVersion, year, search, seenNull))
  {
  }

  // ----- Steps that take, end or release -----

  lemma BeginKeepsExclusive(p: Panel, lane: Lane, key: ClaimKey, work: Work, renderVersion: nat)
    requires Exclusive(p) && !work.Refresh?
    ensures Exclusive(Begun(p, lane, key, work, renderVersion))
  {
    if Claimable(p, lane, key) {
      var p' := Begun(p, lane, key, work, renderVersion);
      assert p'.shared.Keys == {(lane, key)};
      forall l, k
        ensures (l, k) in p'.shared <==> k in ClaimsOf(p', l)
      {
        assert (l, k) !in p.shared;
      }
    }
  }

  lemma ResetKeepsExclusive(p: Panel, year: string)
    requires Exclusive(p)
    ensures Exclusive(ResetPanel(p, year))
  {
  }

  lemma EndKeepsExclusive(p: Panel, token: nat)
    requires Exclusive(p) && token in p.ops && p.ops[token].stage == Answered
    ensures Exclusive(Staged(p, token, Ended))
    ensures p.owner == Some(token) && p.version == p.ops[token].renderVersion ==>
              Exclusive(Staged(p.(owner := None), token, Ended))
  {
  }

  lemma FinishKeepsExclusive(p: Panel, token: nat, expires: Option<string>)
    requires Exclusive(p)
    ensures Exclusive(Finished(p, token, expires))
  {
    if token in p.ops && p.ops[token].stage == Answered {
      if expires.Some? && CanCommit(p, token) {
        ResetKeepsExclusive(p, expires.value);
        EndKeepsExclusive(ResetPanel(p, expires.value), token);
      } else {
        EndKeepsExclusive(p, token);
      }
    }
  }

  lemma ForgettingKeepsExclusive(p: Panel, token: nat)
    requires Exclusive(p) && token in p.ops && !Holds(p, token)
    ensures Exclusive(p.(ops := p.ops - {token}))
  {
  }

  lemma FreeingKeepsExclusive(p: Panel, token: nat)
    requires Exclusive(p) && Holds(p, token) && p.ops[token].stage == Ended
    ensures Exclusive(Released(p, token))
  {
    var x := (p.ops[token].lane, p.ops[token].key.value);
    assert x in p.shared && p.shared[x] == token;
    assert Released(p, token).shared == p.shared - {x} == map[];
  }

  lemma ReleaseKeepsExclusive(p: Panel, token: nat)
    requires Exclusive(p)
    ensures Exclusive(Released(p, token))
  {
    if token in p.ops && p.ops[token].stage == Ended {
      if Holds(p, token) {
        FreeingKeepsExclusive(p, token);
      } else {
        ForgettingKeepsExclusive(p, token);
      }
    }
  }

  lemma BulkKeepsExclusive(p: Panel, lane: Lane, renderVersion: nat, confirmed: bool)
    requires Exclusive(p)
    ensures Exclusive(BulkClicked(p, lane, renderVersion, confirmed))
  {
    var bulk := NextBulk(LaneOf(p, lane).traversal);
    var begun := Begun(p, lane, BulkKey(bulk.generation, bulk.year, bulk.cursor), Bulk(bulk), renderVersion);
    BeginKeepsExclusive(p, lane, BulkKey(bulk.generation, bulk.year, bulk.cursor), Bulk(bulk), renderVersion);
    var ls := LaneOf(begun, lane);
    var posted := ls.(posts := ls.posts + [Post(p.nextToken, bulk.cursor, Open)]);
    LaneLeavesClaims(begun, lane, posted);
    UntouchedKeepsExclusive(begun, SetLane(begun, lane, posted));
  }

  lemma InputKeepsExclusive(p: Panel, e: Event)
    requires Exclusive(p)
    requires e.ChangeYear? || e.ChangeSearch? || e.SearchSettles? || e.NewTraversal?
    ensures ClaimsUntouched(p, Apply(p, e)) && Exclusive(Apply(p, e))
  {
    LaneLeavesClaims(p, e.lane, LaneOf(Apply(p, e), e.lane));
    UntouchedKeepsExclusive(p, Apply(p, e));
  }

  lemma StepKeepsExclusive(p: Panel, e: Event)
    requires Exclusive(p)
    ensures Exclusive(Apply(p, e))
  {
    match e {
      case SendBulk(lane, renderVersion, confirmed) => BulkKeepsExclusive(p, lane, renderVersion, confirmed);
      case LoadMore(lane, renderVersion, seenHasMore, seenCursor) =>
        BeginKeepsExclusive(p, lane, PageKey(LaneOf(p, lane).request), More(LaneOf(p, lane).request), renderVersion);
      case SendSingle(lane, renderVersion, seenYear, sendable, confirmed) =>
        var request := LaneOf(p, lane).request;
        BeginKeepsExclusive(p, lane, SingleKey(request.generation, request.year), Single(request, false),
                            renderVersion);
      case StartRefresh(lane, renderVersion, year, search, seenNull) =>
        RefreshLeavesClaims(p, lane, renderVersion, year, search, seenNull);
        UntouchedKeepsExclusive(p, RefreshStarted(p, lane, renderVersion, year, search, seenNull));
      case Reply(token, answer, allowed) =>
        ReplyLeavesClaims(p, token, answer, allowed);
        UntouchedKeepsExclusive(p, Replied(p, token, answer, allowed));
      case Finish(token, expires) => FinishKeepsExclusive(p, token, expires);
      case Release(token) => ReleaseKeepsExclusive(p, token);
      case Reset(year) => ResetKeepsExclusive(p, year);
      case _ => InputKeepsExclusive(p, e);
    }
  }

  lemma {:induction false} RunKeepsExclusive(p: Panel, events: seq<Event>)
    requires Exclusive(p)
    ensures Exclusive(RunFrom(p, events))
    decreases |events|
  {
    if events != [] {
      StepKeepsExclusive(p, events[0]);
      RunKeepsExclusive(Apply(p, events[0]), events[1..]);
    }
  }

  /** In every reachable state at most one claim is held over both lanes, and its operation owns the domain. */
  lemma ReportsAreExclusive(year: string, events: seq<Event>)
    ensures Exclusive(RunFrom(Initial(year), events))
  {
    RunKeepsExclusive(Initial(year), events);
  }

  lemma NotClaimableWhileHeld(p: Panel, token: nat, lane: Lane, key: ClaimKey)
    requires Exclusive(p) && Holds(p, token)
    ensures !Claimable(p, lane, key)
  {
    assert (p.ops[token].lane, p.ops[token].key.value) in p.shared;
  }

  lemma UntouchedKeepsHolding(p: Panel, p': Panel, token: nat)
    requires Exclusive(p) && Holds(p, token) && ClaimsUntouched(p, p')
    ensures Holds(p', token)
  {
  }

  /**
   * While an operation holds its claim and its action has not ended, that action owns the annual-report domain,
   * and only its own end or an account change can take the domain from it.
   */
  lemma ClaimedActionIsNotSuperseded(p: Panel, e: Event, token: nat)
    requires Exclusive(p) && Holds(p, token) && p.ops[token].stage != Ended
    ensures p.owner == Some(token)
    ensures var p' := Apply(p, e);
            p'.version == p.version && !(e.Finish? && e.token == token) ==> Holds(p', token) && p'.owner == Some(token)
  {
    assert (p.ops[token].lane, p.ops[token].key.value) in p.shared;
    match e {
      case SendBulk(lane, _, _) =>
        var bulk := NextBulk(LaneOf(p, lane).traversal);
        NotClaimableWhileHeld(p, token, lane, BulkKey(bulk.generation, bulk.year, bulk.cursor));
      case LoadMore(lane, _, _, _) => NotClaimableWhileHeld(p, token, lane, PageKey(LaneOf(p, lane).request));
      case SendSingle(lane, _, _, _, _) =>
        NotClaimableWhileHeld(p, token, lane,
                              SingleKey(LaneOf(p, lane).request.generation, LaneOf(p, lane).request.year));
      case StartRefresh(lane, renderVersion, year, search, seenNull) =>
        RefreshLeavesClaims(p, lane, renderVersion, year, search, seenNull);
        UntouchedKeepsHolding(p, RefreshStarted(p, lane, renderVersion, year, search, seenNull), token);
      case Reply(t, answer, allowed) =>
        ReplyLeavesClaims(p, t, answer, allowed);
        UntouchedKeepsHolding(p, Replied(p, t, answer, allowed), token);
      case Finish(t, expires) =>
        if t != token {
          FinishOfOther(p, t, expires, token);
        }
      case Release(t) => ReleaseOfOther(p, t, token);
      case Reset(year) =>
      case _ =>
        InputKeepsExclusive(p, e);
        UntouchedKeepsHolding(p, Apply(p, e), token);
    }
  }

  lemma FinishOfOther(p: Panel, other: nat, expires: Option<string>, token: nat)
    requires Exclusive(p) && Holds(p, token) && p.owner == Some(token) && other != token
    ensures var p' := Finished(p, other, expires);
            p'.version == p.version ==> Holds(p', token) && p'.owner == Some(token)
  {
  }

  lemma ReleaseOfOther(p: Panel, other: nat, token: nat)
    requires Exclusive(p) && Holds(p, token) && p.owner == Some(token) && p.ops[token].stage != Ended
    ensures Holds(Released(p, other), token) && Released(p, other).owner == Some(token)
  {
  }

  /** Releasing frees at most the operation's own claim, so a late release never frees a newer one. */
  lemma LateReleaseFreesNothingElse(p: Panel, token: nat, lane: Lane, key: ClaimKey)
    requires Exclusive(p) && key in ClaimsOf(p, lane) && ClaimsOf(p, lane)[key] != token
    ensures var p' := Apply(p, Release(token));
            && key in ClaimsOf(p', lane) && ClaimsOf(p', lane)[key] == ClaimsOf(p, lane)[key]
            && (lane, key) in p'.shared && p'.owner == p.owner
  {
  }

  /** A waiting answer commits if and only if the account and the state it was asked for are still current. */
  lemma AnswerCommitsIffCurrent(p: Panel, token: nat)
    requires Exclusive(p) && token in p.ops && p.ops[token].key.Some? && p.ops[token].stage == Waiting
    ensures CanCommit(p, token) <==>
            p.ops[token].renderVersion == p.version && IsCurrent(LaneOf(p, p.ops[token].lane), p.ops[token].work)
  {
    if p.ops[token].renderVersion == p.version {
      var x := (p.ops[token].lane, p.ops[token].key.value);
      assert x in p.shared;
    }
  }
}
