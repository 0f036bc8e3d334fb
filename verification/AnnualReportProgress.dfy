/** That the annual reports get somewhere: what a click starts, what an answer brings on screen, and that claims end. */
module AnnualReportProgress {
  import opened Text
  import opened AnnualReports
  import opened AnnualReportClaims
  import opened AnnualReportPreview

  // ----- Claims -----

  /** A claim is to be had exactly when neither lane holds one. */
  lemma ClaimableIffFree(p: Panel, lane: Lane, key: ClaimKey)
    requires Exclusive(p)
    ensures Claimable(p, lane, key) <==> ClaimsOf(p, Certificates) == map[] && ClaimsOf(p, Statements) == map[]
  {
    if p.shared == map[] {
      assert forall l, k :: k in ClaimsOf(p, l) ==> (l, k) in p.shared;
    } else {
      var x :| x in p.shared;
      assert x.1 in ClaimsOf(p, x.0);
      assert x.0 == Certificates || x.0 == Statements;
    }
  }

  /** When no operation is left, nothing is claimed. */
  lemma ClaimsDrain(year: string, events: seq<Event>)
    ensures var p := RunFrom(Initial(year), events);
            p.ops == map[] ==> p.shared == map[] && ClaimsOf(p, Certificates) == ClaimsOf(p, Statements) == map[]
  {
    ReportsAreExclusive(year, events);
    var p := RunFrom(Initial(year), events);
    if p.ops == map[] {
      assert forall x :: x !in p.shared;
      ClaimableIffFree(p, Certificates, SingleKey(0, ""));
    }
  }

  /** An operation that fails ends, gives the domain back and frees its claim. */
  lemma FailedOperationEnds(p: Panel, token: nat)
    requires Exclusive(p) && token in p.ops && p.ops[token].key.Some? && p.ops[token].stage == Waiting
    requires p.ops[token].renderVersion == p.version
    ensures var failed := Apply(p, Reply(token, Failure, true));
            var ended := Apply(failed, Finish(token, None));
            var freed := Apply(ended, Release(token));
            && p.shared != map[] && p.owner == Some(token)
            && ended.owner == None && token !in freed.ops && freed.shared == map[]
            && freed.version == p.version
  {
    var op := p.ops[token];
    var x := (op.lane, op.key.value);
    assert x in p.shared && p.shared[x] == token;
    var failed := Apply(p, Reply(token, Failure, true));
    StepKeepsExclusive(p, Reply(token, Failure, true));
    assert failed.shared == p.shared && failed.owner == p.owner && failed.ops[token].stage == Answered;
    var ended := Apply(failed, Finish(token, None));
    StepKeepsExclusive(failed, Finish(token, None));
    assert ended.shared == p.shared && ended.ops[token].stage == Ended && ended.owner == None;
    EndedOperationFrees(ended, token);
  }

  /** A failed refresh is over, and leaves everything else as it was. */
  lemma FailedRefreshIsOver(p: Panel, token: nat, allowed: bool)
    requires token in p.ops && p.ops[token].work.Refresh? && p.ops[token].stage == Waiting
    ensures var p' := Apply(p, Reply(token, Failure, allowed));
            && p'.ops.Keys == p.ops.Keys - {token}
            && (forall t :: t in p'.ops ==> p'.ops[t] == p.ops[t])
            && p'.(ops := p.ops) == p
  {
  }

  lemma EndedOperationFrees(p: Panel, token: nat)
    requires Exclusive(p) && token in p.ops && p.ops[token].stage == Ended && p.ops[token].key.Some?
    requires (p.ops[token].lane, p.ops[token].key.value) in p.shared
    requires p.shared[(p.ops[token].lane, p.ops[token].key.value)] == token
    ensures var freed := Apply(p, Release(token));
            token !in freed.ops && freed.shared == map[] && freed.version == p.version
  {
    var x := (p.ops[token].lane, p.ops[token].key.value);
    assert Released(p, token).shared == p.shared - {x};
    assert forall y :: y in p.shared ==> y == x;
  }

  // ----- Clicks -----

  /** Neither lane holds a claim. */
  predicate Free(p: Panel) {
    p.lanes.certificates.claims == map[] && p.lanes.statements.claims == map[]
  }

  /** The operation a click begins, under the present account or an older one. */
  ghost predicate Begins(p: Panel, p': Panel, lane: Lane, work: Work, renderVersion: nat) {
    && p'.nextToken == p.nextToken + 1 && p.nextToken in p'.ops && p'.owner == Some(p.nextToken)
    && p'.ops[p.nextToken].lane == lane && p'.ops[p.nextToken].work == work
    && (renderVersion >= p.version <==> p'.ops[p.nextToken].stage == Waiting)
    && (renderVersion >= p.version <==> p'.ops[p.nextToken].renderVersion == p.version)
    && Holds(p', p.nextToken)
  }

  /** "Load more" asks under the request in the ref exactly when its render saw that cursor and nothing is claimed. */
  lemma LoadMoreBegins(p: Panel, lane: Lane, renderVersion: nat, seenHasMore: bool, seenCursor: Cursor)
    requires Exclusive(p)
    ensures var p' := Apply(p, LoadMore(lane, renderVersion, seenHasMore, seenCursor));
            var request := LaneOf(p, lane).request;
            if seenHasMore && seenCursor.Some? && request.cursor == seenCursor && Free(p)
            then Begins(p, p', lane, More(request), renderVersion)
            else p' == p
  {
    ClaimableIffFree(p, lane, PageKey(LaneOf(p, lane).request));
  }

  /** A single send begins exactly when confirmed, sendable, for the year on screen, and nothing is claimed. */
  lemma SendSingleBegins(
    p: Panel, lane: Lane, renderVersion: nat, seenYear: Option<string>, sendable: bool, confirmed: bool)
    requires Exclusive(p)
    ensures var p' := Apply(p, SendSingle(lane, renderVersion, seenYear, sendable, confirmed));
            var request := LaneOf(p, lane).request;
            if seenYear == Some(request.year) && sendable && confirmed && Free(p)
            then Begins(p, p', lane, Single(request, false), renderVersion)
            else p' == p
  {
    ClaimableIffFree(p, lane, SingleKey(LaneOf(p, lane).request.generation, LaneOf(p, lane).request.year));
  }

  /**
   * A bulk click begins exactly when confirmed, with a batch left and nothing claimed. It asks for the first batch, or
   * for the one after the last that was sent, in the traversal's year, and under the present account it is posted.
   */
  lemma SendBulkBegins(p: Panel, lane: Lane, renderVersion: nat, confirmed: bool)
    requires Exclusive(p)
    ensures var p' := Apply(p, SendBulk(lane, renderVersion, confirmed));
            var t := LaneOf(p, lane).traversal;
            var bulk := BulkRequest(t.generation, t.year, if t.started then t.cursor else None);
            if confirmed && (t.started ==> t.hasMore && t.cursor.Some?) && Free(p)
            then
              && Begins(p, p', lane, Bulk(bulk), renderVersion)
              && var posted := if renderVersion >= p.version then [Post(p.nextToken, bulk.cursor, Open)] else [];
                 LaneOf(p', lane).posts == LaneOf(p, lane).posts + posted
            else p' == p
  {
    var bulk := NextBulk(LaneOf(p, lane).traversal);
    ClaimableIffFree(p, lane, BulkKey(bulk.generation, bulk.year, bulk.cursor));
    assert LaneOf(p, lane).posts + [] == LaneOf(p, lane).posts;
  }

  /**
   * A refresh asks exactly for the year and search of the ref, and only from a render without a preview or with nothing
   * claimed in the lane; the first takes the request up, the other replaces it by one for the first page.
   */
  lemma RefreshBegins(p: Panel, lane: Lane, renderVersion: nat, year: string, search: string, seenNull: bool)
    ensures var p' := Apply(p, StartRefresh(lane, renderVersion, year, search, seenNull));
            var current := LaneOf(p, lane).request;
            var asked := if seenNull then current else Request(current.generation + 1, year, search, None);
            if current.year == year && current.search == search && (seenNull || LaneOf(p, lane).claims == map[])
            then
              && p'.nextToken == p.nextToken + 1 && p.nextToken in p'.ops && LaneOf(p', lane).request == asked
              && p'.ops[p.nextToken].work == Refresh(asked) && p'.ops[p.nextToken].stage == Waiting
              && p'.ops[p.nextToken].lane == lane
              && (renderVersion >= p.version <==> p'.ops[p.nextToken].renderVersion == p.version)
            else p' == p
  {
  }

  // ----- Answers -----

  ghost predicate ShowsPage(ls: LaneState, donors: seq<Donor>, page: Page) {
    && ls.preview == Some(Preview(page.year, donors, page.hasMore))
    && ls.previewCursor == page.nextCursor && ls.request.cursor == page.nextCursor
  }

  /** A "load more" page that may commit extends what is shown to its own end; another changes nothing shown. */
  lemma MoreAnswerShows(catalog: Catalog, p: Panel, token: nat, page: Page, allowed: bool)
    requires PreviewSound(catalog, p) && token in p.ops && p.ops[token].work.More? && p.ops[token].stage == Waiting
    requires HonestPage(catalog, p.ops[token].lane, p.ops[token].work.request, page)
    ensures var p' := Apply(p, Reply(token, PageOf(page), allowed));
            var request, lane := p.ops[token].work.request, p.ops[token].lane;
            && p'.ops == p.ops[token := p.ops[token].(stage := Answered)]
            && (CanCommit(p, token) ==>
                  var results, end := catalog(lane, request.year,
                                              request.search), request.cursor.GetOr(0) + |page.donors|;
                  ShowsPage(LaneOf(p', lane), results[..end], page))
            && (!CanCommit(p, token) ==> p'.lanes == p.lanes)
  {
    if CanCommit(p, token) {
      var request, lane := p.ops[token].work.request, p.ops[token].lane;
      var results, start := catalog(lane, request.year, request.search), request.cursor.GetOr(0);
      LaneIsShown(catalog, p, lane);
      assert AsksInShape(p.ops[token].work);
      assert results[..start] + results[start..start + |page.donors|] == results[..start + |page.donors|];
      assert LaneOf(p, lane).preview.value.donors == results[..start];
    }
  }

  /** A first page is shown exactly when its refresh may write and its request is still the one in the ref. */
  lemma RefreshAnswerShows(p: Panel, token: nat, page: Page, allowed: bool)
    requires token in p.ops && p.ops[token].work.Refresh? && p.ops[token].stage == Waiting
    ensures var p' := Apply(p, Reply(token, PageOf(page), allowed));
            var lane := p.ops[token].lane;
            && p'.ops == p.ops - {token}
            && var wanted := LaneOf(p, lane).request == p.ops[token].work.request;
               if allowed && p.ops[token].renderVersion == p.version && wanted
               then ShowsPage(LaneOf(p', lane), page.donors, page)
               else p'.lanes == p.lanes
  {
  }

  /** A single send that may commit asks for the first page anew and keeps waiting; one that may not is over. */
  lemma SingleAnswerAsksAnew(p: Panel, token: nat, allowed: bool)
    requires token in p.ops && p.ops[token].work.Single? && !p.ops[token].work.replaced && p.ops[token].stage == Waiting
    ensures var p' := Apply(p, Reply(token, SingleSent, allowed));
            var lane, was := p.ops[token].lane, LaneOf(p, p.ops[token].lane);
            var anew := Request(was.request.generation + 1, was.request.year, was.request.search, None);
            if CanCommit(p, token)
            then
              && LaneOf(p', lane).request == anew && LaneOf(p', lane).preview == was.preview
              && LaneOf(p', lane).previewCursor == None
              && p'.ops == p.ops[token := p.ops[token].(work := Single(anew, true))]
            else p'.lanes == p.lanes && p'.ops == p.ops[token := p.ops[token].(stage := Answered)]
  {
  }

  /** The first page a single send asked for anew is shown exactly when it may commit. */
  lemma SinglePageShows(p: Panel, token: nat, page: Page, allowed: bool)
    requires token in p.ops && p.ops[token].work.Single? && p.ops[token].work.replaced && p.ops[token].stage == Waiting
    ensures var p' := Apply(p, Reply(token, PageOf(page), allowed));
            && p'.ops == p.ops[token := p.ops[token].(stage := Answered)]
            && if CanCommit(p, token) then ShowsPage(LaneOf(p', p.ops[token].lane), page.donors, page)
               else p'.lanes == p.lanes
  {
  }

  /** A bulk answer that may commit moves the traversal to where the server stopped; a failed post leaves it. */
  lemma BulkAnswerMovesOn(p: Panel, token: nat, next: Cursor, hasMore: bool, allowed: bool)
    requires token in p.ops && p.ops[token].work.Bulk? && p.ops[token].stage == Waiting
    ensures var sent := Apply(p, Reply(token, BulkSent(next, hasMore), allowed));
            var failed := Apply(p, Reply(token, Failure, allowed));
            var lane, bulk := p.ops[token].lane, p.ops[token].work.bulk;
            var posts := LaneOf(p, lane).posts;
            && LaneOf(sent, lane).traversal ==
               (if CanCommit(p, token) then Traversal(bulk.generation, bulk.year, next, true, hasMore)
                else LaneOf(p, lane).traversal)
            && LaneOf(failed, lane).traversal == LaneOf(p, lane).traversal
            && (posts != [] && posts[|posts| - 1].token == token ==>
                  && LaneOf(sent, lane).posts[|posts| - 1].outcome == Sent(next, hasMore)
                  && LaneOf(failed, lane).posts[|posts| - 1].outcome == Failed)
            && LaneOf(sent, lane).request == LaneOf(failed, lane).request == LaneOf(p, lane).request
            && LaneOf(sent, lane).preview == LaneOf(failed, lane).preview == LaneOf(p, lane).preview
            && sent.ops == failed.ops == p.ops[token := p.ops[token].(stage := Answered)]
  {
  }
}
