/**
 * The annual reports of the panel, two twin lanes that share one claim: preview paging, bulk sending and single
 * sending. Every step is one uninterrupted piece of code: a click, an answer to a request, the end of an action,
 * the release of its claim, a changed input, or an account change.
 */
module AnnualReports {
  import opened Text

  datatype Lane = Certificates | Statements

  datatype PerLane<T> = PerLane(certificates: T, statements: T) {
    function At(l: Lane): T {
      if l == Certificates then certificates else statements
    }

    function With(l: Lane, value: T): PerLane<T> {
      if l == Certificates then PerLane(value, statements) else PerLane(certificates, value)
    }
  }

  // ----- State -----

  /** A cursor is the position in the server's list where the next page starts. */
  type Cursor = Option<nat>
  type Donor = string

  datatype Request = Request(generation: nat, year: string, search: string, cursor: Cursor)
  datatype Page = Page(year: string, donors: seq<Donor>, nextCursor: Cursor, hasMore: bool)
  datatype Preview = Preview(year: string, donors: seq<Donor>, hasMore: bool)

  datatype BulkRequest = BulkRequest(generation: nat, year: string, cursor: Cursor)
  datatype Traversal = Traversal(generation: nat, year: string, cursor: Cursor, started: bool, hasMore: bool)

  /** The record of a bulk post in the present traversal. */
  datatype Outcome = Open | Failed | Sent(next: Cursor, hasMore: bool)
  datatype Post = Post(token: nat, cursor: Cursor, outcome: Outcome)

  datatype ClaimKey =
    | BulkKey(generation: nat, year: string, cursor: Cursor)
    | PageKey(request: Request)
    | SingleKey(generation: nat, year: string)

  datatype LaneState = LaneState(
    request: Request,
    preview: Option<Preview>,
    previewCursor: Cursor,
    traversal: Traversal,
    posts: seq<Post>,
    claims: map<ClaimKey, nat>,
    inputGeneration: nat)

  datatype Work =
    | Bulk(bulk: BulkRequest)
    | More(request: Request)
    | Single(request: Request, replaced: bool)
    | Refresh(request: Request)

  datatype Stage = Waiting | Answered | Ended
  datatype Operation = Operation(lane: Lane, work: Work, key: Option<ClaimKey>, renderVersion: nat, stage: Stage)

  /** `shared` are the annual-report claims; `owner` is the action that owns the annual-report domain. */
  datatype Panel = Panel(
    version: nat,
    lanes: PerLane<LaneState>,
    shared: map<(Lane, ClaimKey), nat>,
    owner: Option<nat>,
    ops: map<nat, Operation>,
    nextToken: nat)

  function InitialLane(year: string): LaneState {
    LaneState(Request(0, year, "", None), None, None, Traversal(0, year, None, false, false), [], map[], 0)
  }

  function Initial(year: string): Panel {
    Panel(0, PerLane(InitialLane(year), InitialLane(year)), map[], None, map[], 0)
  }

  datatype Answer =
    | Failure
    | BulkSent(next: Cursor, hasMore: bool)
    | SingleSent
    | PageOf(page: Page)

  /** `seen...` are values captured by the render that was clicked, however old it is. */
  datatype Event =
    | SendBulk(lane: Lane, renderVersion: nat, confirmed: bool)
    | LoadMore(lane: Lane, renderVersion: nat, seenHasMore: bool, seenCursor: Cursor)
    | SendSingle(lane: Lane, renderVersion: nat, seenYear: Option<string>, sendable: bool, confirmed: bool)
    | StartRefresh(lane: Lane, renderVersion: nat, year: string, search: string, seenNull: bool)
    | Reply(token: nat, answer: Answer, allowed: bool)
    | Finish(token: nat, expires: Option<string>)
    | Release(token: nat)
    | ChangeYear(lane: Lane, year: string)
    | ChangeSearch(lane: Lane, search: string)
    | SearchSettles(lane: Lane, inputGeneration: nat, search: string)
    | NewTraversal(lane: Lane, year: string)
    | Reset(year: string)

  // ----- Pieces of a lane -----

  function Replaced(ls: LaneState): LaneState {
    ls.(request := Request(ls.request.generation + 1, ls.request.year, ls.request.search, None), previewCursor := None)
  }

  function Invalidated(ls: LaneState, year: string, search: string): LaneState {
    ls.(request := Request(ls.request.generation + 1, year, search, None), preview := None, previewCursor := None)
  }

  function Restarted(ls: LaneState, year: string): LaneState {
    ls.(traversal := Traversal(ls.traversal.generation + 1, year, None, false, false), posts := [])
  }

  function Committed(ls: LaneState, request: Request, page: Page, append: bool): LaneState {
    if ls.request != request then ls
    else
      var donors := if append && ls.preview.Some? && ls.preview.value.year == page.year
                    then ls.preview.value.donors + page.donors else page.donors;
      ls.(request := request.(cursor := page.nextCursor),
          preview := Some(Preview(page.year, donors, page.hasMore)),
          previewCursor := page.nextCursor)
  }

  predicate TraversalOver(t: Traversal) {
    t.started && (!t.hasMore || t.cursor.None?)
  }

  function NextBulk(t: Traversal): BulkRequest {
    BulkRequest(t.generation, t.year, if t.started then t.cursor else None)
  }

  function Advanced(ls: LaneState, bulk: BulkRequest, next: Cursor, hasMore: bool): LaneState {
    ls.(traversal := Traversal(bulk.generation, bulk.year, next, true, hasMore))
  }

  function Settled(posts: seq<Post>, token: nat, outcome: Outcome): seq<Post> {
    var last := |posts| - 1;
    if posts != [] && posts[last].token == token then posts[last := posts[last].(outcome := outcome)] else posts
  }

  predicate IsCurrent(ls: LaneState, work: Work) {
    match work
    case Bulk(bulk) => bulk == NextBulk(ls.traversal)
    case More(request) => ls.request == request
    case Single(request, _) => ls.request == request
    case Refresh(request) => ls.request == request
  }

  // ----- Claims and ownership -----

  function LaneOf(p: Panel, lane: Lane): LaneState {
    p.lanes.At(lane)
  }

  function SetLane(p: Panel, lane: Lane, ls: LaneState): Panel {
    p.(lanes := p.lanes.With(lane, ls))
  }

  predicate Claimable(p: Panel, lane: Lane, key: ClaimKey) {
    key !in LaneOf(p, lane).claims && p.shared == map[]
  }

  predicate Holds(p: Panel, token: nat) {
    && token in p.ops && p.ops[token].key.Some?
    && var claims := LaneOf(p, p.ops[token].lane).claims;
       p.ops[token].key.value in claims && claims[p.ops[token].key.value] == token
  }

  predicate CanCommit(p: Panel, token: nat) {
    && Holds(p, token)
    && p.ops[token].renderVersion == p.version
    && p.owner == Some(token)
    && IsCurrent(LaneOf(p, p.ops[token].lane), p.ops[token].work)
  }

  /** Claim, then take the annual-report domain over; under an older render the work itself is rejected at once. */
  function Begun(p: Panel, lane: Lane, key: ClaimKey, work: Work, renderVersion: nat): Panel {
    if !Claimable(p, lane, key) then p
    else
      var ls := LaneOf(p, lane);
      var captured := if renderVersion < p.version then renderVersion else p.version;
      var stage := if captured == p.version then Waiting else Answered;
      SetLane(p, lane, ls.(claims := ls.claims[key := p.nextToken])).(
        shared := p.shared[(lane, key) := p.nextToken],
        owner := Some(p.nextToken),
        ops := p.ops[p.nextToken := Operation(lane, work, Some(key), captured, stage)],
        nextToken := p.nextToken + 1)
  }

  function Staged(p: Panel, token: nat, stage: Stage): Panel
    requires token in p.ops
  {
    p.(ops := p.ops[token := p.ops[token].(stage := stage)])
  }

  function Released(p: Panel, token: nat): Panel {
    if token !in p.ops || p.ops[token].stage != Ended then p
    else
      var op := p.ops[token];
      var ls := LaneOf(p, op.lane);
      var ended := p.(ops := p.ops - {token});
      if !Holds(p, token) then ended
      else
        var shared := if (op.lane, op.key.value) in p.shared && p.shared[(op.lane, op.key.value)] == token
                      then p.shared - {(op.lane, op.key.value)} else p.shared;
        SetLane(ended, op.lane, ls.(claims := ls.claims - {op.key.value})).(shared := shared)
  }

  function ResetLane(ls: LaneState, year: string): LaneState {
    Restarted(Invalidated(ls, year, ""), year).(claims := map[], inputGeneration := ls.inputGeneration + 1)
  }

  function ResetPanel(p: Panel, year: string): Panel {
    p.(version := p.version + 1,
       lanes := PerLane(ResetLane(p.lanes.certificates, year), ResetLane(p.lanes.statements, year)),
       shared := map[], owner := None)
  }

  function Finished(p: Panel, token: nat, expires: Option<string>): Panel {
    if token !in p.ops || p.ops[token].stage != Answered then p
    else
      var handled := if expires.Some? && CanCommit(p, token) then ResetPanel(p, expires.value) else p;
      var freed := if handled.owner == Some(token) && handled.version == p.ops[token].renderVersion
                   then handled.(owner := None) else handled;
      Staged(freed, token, Ended)
  }

  // ----- Clicks -----

  function BulkClicked(p: Panel, lane: Lane, renderVersion: nat, confirmed: bool): Panel {
    var ls := LaneOf(p, lane);
    var bulk := NextBulk(ls.traversal);
    var key := BulkKey(bulk.generation, bulk.year, bulk.cursor);
    if TraversalOver(ls.traversal) || !confirmed || !Claimable(p, lane, key) then p
    else
      var begun := Begun(p, lane, key, Bulk(bulk), renderVersion);
      if renderVersion < p.version then begun
      else
        var ls' := LaneOf(begun, lane);
        SetLane(begun, lane, ls'.(posts := ls'.posts + [Post(p.nextToken, bulk.cursor, Open)]))
  }

  function MoreClicked(p: Panel, lane: Lane, renderVersion: nat, seenHasMore: bool, seenCursor: Cursor): Panel {
    var request := LaneOf(p, lane).request;
    if !seenHasMore || seenCursor.None? || request.cursor != seenCursor then p
    else Begun(p, lane, PageKey(request), More(request), renderVersion)
  }

  function SingleClicked(
    p: Panel, lane: Lane, renderVersion: nat, seenYear: Option<string>, sendable: bool, confirmed: bool): Panel
  {
    var request := LaneOf(p, lane).request;
    if seenYear.None? || !sendable || request.year != seenYear.value || !confirmed then p
    else Begun(p, lane, SingleKey(request.generation, request.year), Single(request, false), renderVersion)
  }

  /** The preview part of a panel refresh; `seenNull` says that its render had no preview. */
  predicate RefreshAsks(p: Panel, lane: Lane, year: string, search: string, seenNull: bool) {
    var ls := LaneOf(p, lane);
    ls.request.year == year && ls.request.search == search && (seenNull || ls.claims == map[])
  }

  function RefreshStarted(
    p: Panel, lane: Lane, renderVersion: nat, year: string, search: string, seenNull: bool): Panel
  {
    if !RefreshAsks(p, lane, year, search, seenNull) then p
    else
      var ls := if seenNull then LaneOf(p, lane) else Replaced(LaneOf(p, lane));
      var captured := if renderVersion < p.version then renderVersion else p.version;
      SetLane(p, lane, ls).(
        ops := p.ops[p.nextToken := Operation(lane, Refresh(ls.request), None, captured, Waiting)],
        nextToken := p.nextToken + 1)
  }

  // ----- Answers -----

  function BulkAnswered(p: Panel, token: nat, next: Cursor, hasMore: bool): Panel
    requires token in p.ops && p.ops[token].work.Bulk?
  {
    var op := p.ops[token];
    var ls := LaneOf(p, op.lane);
    var settled := ls.(posts := Settled(ls.posts, token, Sent(next, hasMore)));
    Staged(SetLane(p, op.lane, if CanCommit(p, token) then Advanced(settled, op.work.bulk, next, hasMore) else settled),
           token, Answered)
  }

  function PageAnswered(p: Panel, token: nat, page: Page, append: bool): Panel
    requires token in p.ops && !p.ops[token].work.Bulk?
  {
    var op := p.ops[token];
    var committed := SetLane(p, op.lane, Committed(LaneOf(p, op.lane), op.work.request, page, append));
    Staged(if CanCommit(p, token) then committed else p, token, Answered)
  }

  /** The single send went out: replace the preview and ask for its first page again, still under the claim. */
  function SingleAnswered(p: Panel, token: nat): Panel
    requires token in p.ops
  {
    if !CanCommit(p, token) then Staged(p, token, Answered)
    else
      var op := p.ops[token];
      var ls := Replaced(LaneOf(p, op.lane));
      SetLane(p, op.lane, ls).(ops := p.ops[token := op.(work := Single(ls.request, true))])
  }

  function RefreshAnswered(p: Panel, token: nat, page: Page, allowed: bool): Panel
    requires token in p.ops && p.ops[token].work.Refresh?
  {
    var op := p.ops[token];
    var landed := p.(ops := p.ops - {token});
    if !allowed || op.renderVersion != p.version then landed
    else SetLane(landed, op.lane, Committed(LaneOf(p, op.lane), op.work.request, page, false))
  }

  function RequestFailed(p: Panel, token: nat): Panel
    requires token in p.ops
  {
    var op := p.ops[token];
    if op.work.Refresh? then p.(ops := p.ops - {token})
    else
      var ls := LaneOf(p, op.lane);
      Staged(if op.work.Bulk? then SetLane(p, op.lane, ls.(posts := Settled(ls.posts, token, Failed))) else p,
             token, Answered)
  }

  function Replied(p: Panel, token: nat, answer: Answer, allowed: bool): Panel {
    if token !in p.ops || p.ops[token].stage != Waiting then p
    else
      var work := p.ops[token].work;
      match answer
      case Failure => RequestFailed(p, token)
      case BulkSent(next, hasMore) => if work.Bulk? then BulkAnswered(p, token, next, hasMore) else p
      case SingleSent => if work.Single? && !work.replaced then SingleAnswered(p, token) else p
      case PageOf(page) =>
        if work.Refresh? then RefreshAnswered(p, token, page, allowed)
        else if work.More? then PageAnswered(p, token, page, true)
        else if work.Single? && work.replaced then PageAnswered(p, token, page, false)
        else p
  }

  function Apply(p: Panel, e: Event): Panel {
    match e
    case SendBulk(lane, renderVersion, confirmed) => BulkClicked(p, lane, renderVersion, confirmed)
    case LoadMore(lane, renderVersion, seenHasMore, seenCursor) =>
      MoreClicked(p, lane, renderVersion, seenHasMore, seenCursor)
    case SendSingle(lane, renderVersion, seenYear, sendable, confirmed) =>
      SingleClicked(p, lane, renderVersion, seenYear, sendable, confirmed)
    case StartRefresh(lane, renderVersion, year, search, seenNull) =>
      RefreshStarted(p, lane, renderVersion, year, search, seenNull)
    case Reply(token, answer, allowed) => Replied(p, token, answer, allowed)
    case Finish(token, expires) => Finished(p, token, expires)
    case Release(token) => Released(p, token)
    case ChangeYear(lane, year) =>
      SetLane(p, lane, Restarted(Invalidated(LaneOf(p, lane), year, LaneOf(p, lane).request.search), year))
    case ChangeSearch(lane, search) =>
      var ls := LaneOf(p, lane);
      SetLane(p, lane, Invalidated(ls, ls.request.year, search).(inputGeneration := ls.inputGeneration + 1))
    case SearchSettles(lane, inputGeneration, search) =>
      var ls := LaneOf(p, lane);
      if ls.inputGeneration != inputGeneration || ls.request.search == search then p
      else SetLane(p, lane, Invalidated(ls, ls.request.year, search))
    case NewTraversal(lane, year) => SetLane(p, lane, Restarted(LaneOf(p, lane), year))
    case Reset(year) => ResetPanel(p, year)
  }

  function RunFrom(p: Panel, events: seq<Event>): Panel
    decreases |events|
  {
    if events == [] then p else RunFrom(Apply(p, events[0]), events[1..])
  }
}
