/** The refs and handlers of the annual reports; every handler refines one step of `AnnualReports`. */
module AnnualReportPanel {
  import opened Text
  import A = AnnualReports
  import C = AnnualReportClaims

  class Panel {
    var accountVersion: nat
    var previewRequest: A.PerLane<A.Request>
    var preview: A.PerLane<Option<A.Preview>>
    var previewCursor: A.PerLane<A.Cursor>
    var bulkTraversal: A.PerLane<A.Traversal>
    var operationClaims: A.PerLane<map<A.ClaimKey, nat>>
    var searchInputGeneration: A.PerLane<nat>
    var annualReportClaims: map<(A.Lane, A.ClaimKey), nat>
    var annualReportOwner: Option<nat>
    var operations: map<nat, A.Operation>
    var nextToken: nat
    /** What was posted in each lane's present traversal; a record, not part of the panel. */
    ghost var posts: A.PerLane<seq<A.Post>>

    ghost function Lane(l: A.Lane): A.LaneState
      reads this
    {
      A.LaneState(previewRequest.At(l), preview.At(l), previewCursor.At(l), bulkTraversal.At(l), posts.At(l),
                  operationClaims.At(l), searchInputGeneration.At(l))
    }

    ghost function State(): A.Panel
      reads this
    {
      A.Panel(accountVersion, A.PerLane(Lane(A.Certificates), Lane(A.Statements)),
              annualReportClaims, annualReportOwner, operations, nextToken)
    }

    /** What every step keeps: at most one claim over both lanes, held by the operation that owns the domain. */
    ghost predicate Valid()
      reads this
    {
      C.Exclusive(State())
    }

    constructor (year: string)
      ensures Valid() && State() == A.Initial(year)
    {
      accountVersion, nextToken := 0, 0;
      previewRequest := A.PerLane(A.Request(0, year, "", None), A.Request(0, year, "", None));
      preview, previewCursor := A.PerLane(None, None), A.PerLane(None, None);
      bulkTraversal := A.PerLane(A.Traversal(0, year, None, false, false), A.Traversal(0, year, None, false, false));
      operationClaims, searchInputGeneration := A.PerLane(map[], map[]), A.PerLane(0, 0);
      annualReportClaims, annualReportOwner, operations := map[], None, map[];
      posts := A.PerLane([], []);
    }

    // ----- Preview -----

    method BeginPreviewReplacement(l: A.Lane) returns (request: A.Request)
      modifies this`previewRequest, this`previewCursor
      ensures State() == A.SetLane(old(State()), l, A.Replaced(old(Lane(l))))
      ensures request == Lane(l).request
    {
      var current := previewRequest.At(l);
      request := A.Request(current.generation + 1, current.year, current.search, None);
      previewRequest := previewRequest.With(l, request);
      previewCursor := previewCursor.With(l, None);
    }

    method CommitPreview(l: A.Lane, request: A.Request, page: A.Page, append: bool) returns (committed: bool)
      modifies this`previewRequest, this`preview, this`previewCursor
      ensures committed == (old(Lane(l)).request == request)
      ensures State() == A.SetLane(old(State()), l, A.Committed(old(Lane(l)), request, page, append))
    {
      if previewRequest.At(l) != request {
        return false;
      }
      previewRequest := previewRequest.With(l, request.(cursor := page.nextCursor));
      var shown := preview.At(l);
      if append && shown.Some? && shown.value.year == page.year {
        preview := preview.With(l, Some(A.Preview(page.year, shown.value.donors + page.donors, page.hasMore)));
      } else {
        preview := preview.With(l, Some(A.Preview(page.year, page.donors, page.hasMore)));
      }
      previewCursor := previewCursor.With(l, page.nextCursor);
      return true;
    }

    method InvalidatePreview(l: A.Lane, year: string, search: string)
      modifies this`previewRequest, this`preview, this`previewCursor
      ensures State() == A.SetLane(old(State()), l, A.Invalidated(old(Lane(l)), year, search))
    {
      var current := previewRequest.At(l);
      previewRequest := previewRequest.With(l, A.Request(current.generation + 1, year, search, None));
      preview := preview.With(l, None);
      previewCursor := previewCursor.With(l, None);
    }

    method ResetBulkTraversal(l: A.Lane, year: string)
      modifies this`bulkTraversal, this`posts
      ensures State() == A.SetLane(old(State()), l, A.Restarted(old(Lane(l)), year))
    {
      var current := bulkTraversal.At(l);
      bulkTraversal := bulkTraversal.With(l, A.Traversal(current.generation + 1, year, None, false, false));
      posts := posts.With(l, []);
    }

    // ----- Claims -----

    method ClaimOperation(l: A.Lane, key: A.ClaimKey) returns (claimed: bool)
      modifies this`operationClaims, this`annualReportClaims
      ensures claimed == A.Claimable(old(State()), l, key)
      ensures claimed ==> operationClaims == old(operationClaims).With(l, old(operationClaims).At(l)[key := nextToken])
                          && annualReportClaims == old(annualReportClaims)[(l, key) := nextToken]
      ensures !claimed ==> operationClaims == old(operationClaims) && annualReportClaims == old(annualReportClaims)
    {
      if key in operationClaims.At(l) {
        return false;
      }
      if |annualReportClaims| > 0 {
        return false;
      }
      annualReportClaims := annualReportClaims[(l, key) := nextToken];
      operationClaims := operationClaims.With(l, operationClaims.At(l)[key := nextToken]);
      return true;
    }

    method ReleaseOperation(l: A.Lane, key: A.ClaimKey, token: nat)
      modifies this`operationClaims, this`annualReportClaims
      ensures key in old(operationClaims).At(l) && old(operationClaims).At(l)[key] == token ==>
                var shared := old(annualReportClaims);
                && operationClaims == old(operationClaims).With(l, old(operationClaims).At(l) - {key})
                && annualReportClaims == if (l, key) in shared && shared[(l, key)] == token
                                         then shared - {(l, key)} else shared
      ensures !(key in old(operationClaims).At(l) && old(operationClaims).At(l)[key] == token) ==>
                operationClaims == old(operationClaims) && annualReportClaims == old(annualReportClaims)
    {
      var claims := operationClaims.At(l);
      if key in claims && claims[key] == token {
        operationClaims := operationClaims.With(l, claims - {key});
        if (l, key) in annualReportClaims && annualReportClaims[(l, key)] == token {
          annualReportClaims := annualReportClaims - {(l, key)};
        }
      }
    }

    /** Take the annual-report domain over; under an older render the work itself is rejected at once. */
    method StartOperation(l: A.Lane, key: A.ClaimKey, work: A.Work, renderVersion: nat)
      modifies this`annualReportOwner, this`operations, this`nextToken
      ensures annualReportOwner == Some(old(nextToken)) && nextToken == old(nextToken) + 1
      ensures var captured := if renderVersion < accountVersion then renderVersion else accountVersion;
              var stage := if captured == accountVersion then A.Waiting else A.Answered;
              operations == old(operations)[old(nextToken) := A.Operation(l, work, Some(key), captured, stage)]
    {
      annualReportOwner := Some(nextToken);
      var captured := if renderVersion < accountVersion then renderVersion else accountVersion;
      var stage := if captured == accountVersion then A.Waiting else A.Answered;
      operations := operations[nextToken := A.Operation(l, work, Some(key), captured, stage)];
      nextToken := nextToken + 1;
    }

    /** Claim, then ask for confirmation; a declined confirmation gives the claim back. */
    method ClaimConfirmed(l: A.Lane, key: A.ClaimKey, confirmed: bool) returns (claimed: bool)
      modifies this`operationClaims, this`annualReportClaims
      ensures claimed == (confirmed && A.Claimable(old(State()), l, key))
      ensures claimed ==> operationClaims == old(operationClaims).With(l, old(operationClaims).At(l)[key := nextToken])
                          && annualReportClaims == old(annualReportClaims)[(l, key) := nextToken]
      ensures !claimed ==> operationClaims == old(operationClaims) && annualReportClaims == old(annualReportClaims)
    {
      claimed := ClaimOperation(l, key);
      if claimed && !confirmed {
        ReleaseOperation(l, key, nextToken);
        assert operationClaims.At(l) == old(operationClaims).At(l);
        assert annualReportClaims == old(annualReportClaims);
        claimed := false;
      }
    }

    /** Claim with confirmation, and start the action. */
    method BeginOperation(l: A.Lane, key: A.ClaimKey, work: A.Work, renderVersion: nat, confirmed: bool)
      returns (begun: bool)
      modifies this`operationClaims, this`annualReportClaims, this`annualReportOwner, this`operations, this`nextToken
      ensures begun == (confirmed && A.Claimable(old(State()), l, key))
      ensures State() == if confirmed then A.Begun(old(State()), l, key, work, renderVersion) else old(State())
    {
      begun := ClaimConfirmed(l, key, confirmed);
      if begun {
        StartOperation(l, key, work, renderVersion);
      }
    }

    // ----- Clicks -----

    method SendBulk(l: A.Lane, renderVersion: nat, confirmed: bool)
      requires Valid()
      modifies this
      ensures Valid()
      ensures State() == A.Apply(old(State()), A.SendBulk(l, renderVersion, confirmed))
    {
      C.StepKeepsExclusive(State(), A.SendBulk(l, renderVersion, confirmed));
      var traversal := bulkTraversal.At(l);
      if traversal.started && (!traversal.hasMore || traversal.cursor.None?) {
        return;
      }
      var cursor := if traversal.started then traversal.cursor else None;
      var request := A.BulkRequest(traversal.generation, traversal.year, cursor);
      var token := nextToken;
      var begun := BeginOperation(l, A.BulkKey(request.generation, request.year, request.cursor), A.Bulk(request),
                                  renderVersion, confirmed);
      if begun && renderVersion >= accountVersion {
        posts := posts.With(l, posts.At(l) + [A.Post(token, request.cursor, A.Open)]);
      }
    }

    method LoadMorePreview(l: A.Lane, renderVersion: nat, seenHasMore: bool, seenCursor: A.Cursor)
      requires Valid()
      modifies this
      ensures Valid()
      ensures State() == A.Apply(old(State()), A.LoadMore(l, renderVersion, seenHasMore, seenCursor))
    {
      C.StepKeepsExclusive(State(), A.LoadMore(l, renderVersion, seenHasMore, seenCursor));
      if !seenHasMore || seenCursor.None? {
        return;
      }
      var request := previewRequest.At(l);
      if request.cursor != seenCursor {
        return;
      }
      var _ := BeginOperation(l, A.PageKey(request), A.More(request), renderVersion, true);
    }

    method SendSingle(l: A.Lane, renderVersion: nat, seenYear: Option<string>, sendable: bool, confirmed: bool)
      requires Valid()
      modifies this
      ensures Valid()
      ensures State() == A.Apply(old(State()), A.SendSingle(l, renderVersion, seenYear, sendable, confirmed))
    {
      C.StepKeepsExclusive(State(), A.SendSingle(l, renderVersion, seenYear, sendable, confirmed));
      if seenYear.None? || !sendable {
        return;
      }
      var request := previewRequest.At(l);
      if request.year != seenYear.value {
        return;
      }
      var _ := BeginOperation(l, A.SingleKey(request.generation, request.year), A.Single(request, false),
                              renderVersion, confirmed);
    }

    method RefreshPreview(l: A.Lane, renderVersion: nat, year: string, search: string, seenNull: bool)
      requires Valid()
      modifies this
      ensures Valid()
      ensures State() == A.Apply(old(State()), A.StartRefresh(l, renderVersion, year, search, seenNull))
    {
      C.StepKeepsExclusive(State(), A.StartRefresh(l, renderVersion, year, search, seenNull));
      AskAgain(l, renderVersion, year, search, seenNull);
    }

    method AskAgain(l: A.Lane, renderVersion: nat, year: string, search: string, seenNull: bool)
      modifies this
      ensures State() == A.Apply(old(State()), A.StartRefresh(l, renderVersion, year, search, seenNull))
    {
      var current := previewRequest.At(l);
      if current.year != year || current.search != search {
        return;
      }
      var request: A.Request;
      if seenNull {
        request := current;
      } else if |operationClaims.At(l)| == 0 {
        request := BeginPreviewReplacement(l);
      } else {
        return;
      }
      var captured := if renderVersion < accountVersion then renderVersion else accountVersion;
      operations := operations[nextToken := A.Operation(l, A.Refresh(request), None, captured, A.Waiting)];
      nextToken := nextToken + 1;
    }

    // ----- Answers -----

    method Owns(token: nat) returns (owns: bool)
      requires token in operations
      ensures owns == A.CanCommit(State(), token)
      ensures Valid() && operations[token].stage == A.Waiting && operations[token].key.Some? ==>
                (owns <==> operations[token].renderVersion == accountVersion
                           && A.IsCurrent(Lane(operations[token].lane), operations[token].work))
    {
      var op := operations[token];
      var current := match op.work
        case Bulk(request) =>
          var traversal := bulkTraversal.At(op.lane);
          traversal.generation == request.generation && traversal.year == request.year
          && (if traversal.started then traversal.cursor else None) == request.cursor
        case More(request) => previewRequest.At(op.lane) == request
        case Single(request, _) => previewRequest.At(op.lane) == request
        case Refresh(request) => previewRequest.At(op.lane) == request;
      var claims := operationClaims.At(op.lane);
      owns := && op.key.Some? && op.key.value in claims && claims[op.key.value] == token
              && op.renderVersion == accountVersion && annualReportOwner == Some(token) && current;
      if Valid() && op.stage == A.Waiting && op.key.Some? {
        C.AnswerCommitsIffCurrent(State(), token);
      }
    }

    method AnswerBulk(token: nat, next: A.Cursor, hasMore: bool)
      requires token in operations && operations[token].stage == A.Waiting && operations[token].work.Bulk?
      requires Valid()
      modifies this
      ensures Valid()
      ensures State() == A.Apply(old(State()), A.Reply(token, A.BulkSent(next, hasMore), true))
    {
      C.StepKeepsExclusive(State(), A.Reply(token, A.BulkSent(next, hasMore), true));
      CommitBulk(token, next, hasMore);
    }

    method CommitBulk(token: nat, next: A.Cursor, hasMore: bool)
      requires token in operations && operations[token].stage == A.Waiting && operations[token].work.Bulk?
      modifies this
      ensures State() == A.Apply(old(State()), A.Reply(token, A.BulkSent(next, hasMore), true))
    {
      var op := operations[token];
      var owns := Owns(token);
      posts := posts.With(op.lane, A.Settled(posts.At(op.lane), token, A.Sent(next, hasMore)));
      if owns {
        bulkTraversal := bulkTraversal.With(op.lane,
          A.Traversal(op.work.bulk.generation, op.work.bulk.year, next, true, hasMore));
      }
      operations := operations[token := op.(stage := A.Answered)];
    }

    method AnswerPage(token: nat, page: A.Page, allowed: bool)
      requires token in operations && operations[token].stage == A.Waiting
      requires operations[token].work.More? || operations[token].work.Refresh?
               || (operations[token].work.Single? && operations[token].work.replaced)
      requires Valid()
      modifies this
      ensures Valid()
      ensures State() == A.Apply(old(State()), A.Reply(token, A.PageOf(page), allowed))
    {
      C.StepKeepsExclusive(State(), A.Reply(token, A.PageOf(page), allowed));
      CommitAnswer(token, page, allowed);
    }

    method CommitAnswer(token: nat, page: A.Page, allowed: bool)
      requires token in operations && operations[token].stage == A.Waiting
      requires operations[token].work.More? || operations[token].work.Refresh?
               || (operations[token].work.Single? && operations[token].work.replaced)
      modifies this
      ensures State() == A.Apply(old(State()), A.Reply(token, A.PageOf(page), allowed))
    {
      var op := operations[token];
      if op.work.Refresh? {
        operations := operations - {token};
        if allowed && op.renderVersion == accountVersion {
          var _ := CommitPreview(op.lane, op.work.request, page, false);
        }
        return;
      }
      var owns := Owns(token);
      if owns {
        var _ := CommitPreview(op.lane, op.work.request, page, op.work.More?);
      }
      operations := operations[token := op.(stage := A.Answered)];
    }

    method AnswerSingle(token: nat)
      requires token in operations && operations[token].stage == A.Waiting
      requires operations[token].work.Single? && !operations[token].work.replaced
      requires Valid()
      modifies this
      ensures Valid()
      ensures State() == A.Apply(old(State()), A.Reply(token, A.SingleSent, true))
    {
      C.StepKeepsExclusive(State(), A.Reply(token, A.SingleSent, true));
      var op := operations[token];
      var owns := Owns(token);
      if !owns {
        operations := operations[token := op.(stage := A.Answered)];
        return;
      }
      var request := BeginPreviewReplacement(op.lane);
      operations := operations[token := op.(work := A.Single(request, true))];
    }

    method AnswerFailure(token: nat)
      requires token in operations && operations[token].stage == A.Waiting
      requires Valid()
      modifies this
      ensures Valid()
      ensures State() == A.Apply(old(State()), A.Reply(token, A.Failure, true))
    {
      C.StepKeepsExclusive(State(), A.Reply(token, A.Failure, true));
      var op := operations[token];
      if op.work.Refresh? {
        operations := operations - {token};
        return;
      }
      if op.work.Bulk? {
        posts := posts.With(op.lane, A.Settled(posts.At(op.lane), token, A.Failed));
      }
      operations := operations[token := op.(stage := A.Answered)];
    }

    // ----- Ends -----

    method FinishAction(token: nat, expires: Option<string>)
      requires Valid()
      modifies this
      ensures Valid()
      ensures State() == A.Apply(old(State()), A.Finish(token, expires))
    {
      C.StepKeepsExclusive(State(), A.Finish(token, expires));
      if token !in operations || operations[token].stage != A.Answered {
        return;
      }
      var op := operations[token];
      if expires.Some? {
        var owns := Owns(token);
        if owns {
          ResetReports(expires.value);
        }
      }
      if accountVersion == op.renderVersion && annualReportOwner == Some(token) {
        annualReportOwner := None;
      }
      operations := operations[token := op.(stage := A.Ended)];
    }

    method ReleaseClaim(token: nat)
      requires Valid()
      modifies this
      ensures Valid()
      ensures State() == A.Apply(old(State()), A.Release(token))
    {
      C.StepKeepsExclusive(State(), A.Release(token));
      FreeClaim(token);
    }

    method FreeClaim(token: nat)
      modifies this
      ensures State() == A.Apply(old(State()), A.Release(token))
    {
      if token !in operations || operations[token].stage != A.Ended {
        return;
      }
      var op := operations[token];
      operations := operations - {token};
      if op.key.Some? {
        ReleaseOperation(op.lane, op.key.value, token);
      }
    }

    // ----- Inputs -----

    method ChangeYear(l: A.Lane, year: string)
      requires Valid()
      modifies this
      ensures Valid()
      ensures State() == A.Apply(old(State()), A.ChangeYear(l, year))
    {
      C.StepKeepsExclusive(State(), A.ChangeYear(l, year));
      InvalidatePreview(l, year, previewRequest.At(l).search);
      ResetBulkTraversal(l, year);
    }

    method ChangeSearch(l: A.Lane, search: string)
      requires Valid()
      modifies this
      ensures Valid()
      ensures State() == A.Apply(old(State()), A.ChangeSearch(l, search))
    {
      C.StepKeepsExclusive(State(), A.ChangeSearch(l, search));
      searchInputGeneration := searchInputGeneration.With(l, searchInputGeneration.At(l) + 1);
      InvalidatePreview(l, previewRequest.At(l).year, search);
    }

    method SettleSearch(l: A.Lane, inputGeneration: nat, search: string)
      requires Valid()
      modifies this
      ensures Valid()
      ensures State() == A.Apply(old(State()), A.SearchSettles(l, inputGeneration, search))
    {
      C.StepKeepsExclusive(State(), A.SearchSettles(l, inputGeneration, search));
      if searchInputGeneration.At(l) != inputGeneration {
        return;
      }
      if previewRequest.At(l).search != search {
        InvalidatePreview(l, previewRequest.At(l).year, search);
      }
    }

    method StartNewTraversal(l: A.Lane, year: string)
      requires Valid()
      modifies this
      ensures Valid()
      ensures State() == A.Apply(old(State()), A.NewTraversal(l, year))
    {
      C.StepKeepsExclusive(State(), A.NewTraversal(l, year));
      ResetBulkTraversal(l, year);
    }

    method ResetReport(l: A.Lane, year: string)
      modifies this`operationClaims, this`searchInputGeneration, this`previewRequest, this`preview, this`previewCursor,
               this`bulkTraversal, this`posts
      ensures Lane(l) == A.ResetLane(old(Lane(l)), year)
      ensures l == A.Certificates ==> Lane(A.Statements) == old(Lane(A.Statements))
      ensures l == A.Statements ==> Lane(A.Certificates) == old(Lane(A.Certificates))
    {
      operationClaims := operationClaims.With(l, map[]);
      searchInputGeneration := searchInputGeneration.With(l, searchInputGeneration.At(l) + 1);
      InvalidatePreview(l, year, "");
      ResetBulkTraversal(l, year);
    }

    method ResetAccountState(year: string)
      requires Valid()
      modifies this
      ensures Valid()
      ensures State() == A.Apply(old(State()), A.Reset(year))
    {
      C.StepKeepsExclusive(State(), A.Reset(year));
      ResetReports(year);
    }

    method ResetReports(year: string)
      modifies this
      ensures State() == A.ResetPanel(old(State()), year)
    {
      ghost var certificates, statements := Lane(A.Certificates), Lane(A.Statements);
      accountVersion := accountVersion + 1;
      annualReportOwner := None;
      annualReportClaims := map[];
      assert Lane(A.Certificates) == certificates && Lane(A.Statements) == statements;
      ResetReport(A.Certificates, year);
      ResetReport(A.Statements, year);
      assert Lane(A.Certificates) == A.ResetLane(certificates, year);
      assert Lane(A.Statements) == A.ResetLane(statements, year);
    }
  }
}
