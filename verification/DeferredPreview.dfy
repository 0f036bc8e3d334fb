/**
 * The preview of one lane when React runs state updaters later: an updater reads the request ref at the moment it
 * runs, and drops its page when the request has moved on since. An updater may run at once or at any later time, in
 * the order of the updates; the panel is rendered when none is left.
 */
module DeferredPreview {
  import opened Text
  import opened AnnualReports
  import opened AnnualReportClaims
  import opened AnnualReportPreview
  import opened AnnualReportProgress

  datatype Update =
    | Show(request: Request, page: Page, append: bool)
    | Clear
    | ClearCursor

  /** The ref and React's state so far, the updates still to run, and the "load more" request on its way. */
  datatype Deferred = Deferred(lane: LaneState, queue: seq<Update>, asked: Option<Request>)

  /** `seen` is the cursor of the render that was clicked, however old it is. */
  datatype Callback =
    | Replace
    | Invalidate(year: string, search: string)
    | FirstAnswer(request: Request, page: Page)
    | AskMore(seen: Cursor)
    | MoreAnswer(page: Page)
    | RunNext

  /** Where a page leaves the ref. */
  function Left(u: Update): Request
    requires u.Show?
  {
    u.request.(cursor := u.page.nextCursor)
  }

  function Shown(ls: LaneState, page: Page, append: bool): LaneState {
    var donors := if append && ls.preview.Some? && ls.preview.value.year == page.year
                  then ls.preview.value.donors + page.donors else page.donors;
    ls.(preview := Some(Preview(page.year, donors, page.hasMore)), previewCursor := page.nextCursor)
  }

  function Ran(ls: LaneState, u: Update): LaneState {
    match u
    case Clear => ls.(preview := None, previewCursor := None)
    case ClearCursor => ls.(previewCursor := None)
    case Show(_, page, append) => if ls.request == Left(u) then Shown(ls, page, append) else ls
  }

  /** What is rendered when every update left runs now. */
  function Rendered(ls: LaneState, queue: seq<Update>): LaneState
    decreases |queue|
  {
    if queue == [] then ls else Rendered(Ran(ls, queue[0]), queue[1..])
  }

  function Moved(d: Deferred, request: Request, update: Update): Deferred {
    d.(lane := d.lane.(request := request), queue := d.queue + [update])
  }

  function Taken(d: Deferred, request: Request, page: Page, append: bool): Deferred {
    if d.lane.request != request then d
    else Moved(d, request.(cursor := page.nextCursor), Show(request, page, append))
  }

  predicate MayAsk(d: Deferred, seen: Cursor) {
    d.lane.request.cursor.Some? && seen == d.lane.request.cursor
  }

  function Called(d: Deferred, c: Callback): Deferred {
    var current := d.lane.request;
    match c
    case Replace => Moved(d, Request(current.generation + 1, current.year, current.search, None), ClearCursor)
    case Invalidate(year, search) => Moved(d, Request(current.generation + 1, year, search, None), Clear)
    case FirstAnswer(request, page) => Taken(d, request, page, false)
    case AskMore(seen) => if MayAsk(d, seen) then d.(asked := Some(current)) else d
    case MoreAnswer(page) => if d.asked.None? then d else Taken(d.(asked := None), d.asked.value, page, true)
    case RunNext => if d.queue == [] then d else d.(lane := Ran(d.lane, d.queue[0]), queue := d.queue[1..])
  }

  function CalledAll(d: Deferred, run: seq<Callback>): Deferred
    decreases |run|
  {
    if run == [] then d else CalledAll(Called(d, run[0]), run[1..])
  }

  /** An updater that runs before anything else happens does what the handlers say at once. */
  lemma RunAtOnceIsImmediate(d: Deferred, c: Callback)
    requires d.queue == []
    ensures var now := Called(Called(d, c), RunNext);
            match c
            case Replace => now.lane == Replaced(d.lane)
            case Invalidate(year, search) => now.lane == Invalidated(d.lane, year, search)
            case FirstAnswer(request, page) => now.lane == Committed(d.lane, request, page, false)
            case MoreAnswer(page) => d.asked.Some? ==> now.lane == Committed(d.lane, d.asked.value, page, true)
            case _ => now.lane == d.lane
  {
  }

  /** With nothing claimed, a click asks for the next page here exactly when it does in the panel. */
  lemma ClickAsksLikeThePanel(p: Panel, lane: Lane, d: Deferred, seen: Cursor)
    requires Exclusive(p) && p.shared == map[] && d.lane == LaneOf(p, lane)
    ensures var clicked, p' := Called(d, AskMore(seen)), Apply(p, LoadMore(lane, p.version, true, seen));
            if p' == p then clicked == d
            else
              && p.nextToken in p'.ops && p'.ops[p.nextToken].work == More(d.lane.request)
              && clicked == d.(asked := Some(d.lane.request))
  {
    ClaimableIffFree(p, lane, SingleKey(0, ""));
    LoadMoreBegins(p, lane, p.version, true, seen);
  }

  // ----- When "load more" may be clicked -----

  /** A page of the present generation is still to be shown. */
  predicate Present(d: Deferred, i: nat)
    requires i < |d.queue|
  {
    d.queue[i].Show? && d.queue[i].request.generation == d.lane.request.generation
  }

  /**
   * What is shown reaches up to the cursor, no invalidation is left to render, and no page left to show completes the
   * list. A panel rendered to the end is like that.
   */
  ghost predicate Undisturbed(d: Deferred) {
    && d.lane.request.cursor.Some? && d.lane.preview.Some?
    && |d.lane.preview.value.donors| == d.lane.request.cursor.value
    && Clear !in d.queue
    && forall i :: 0 <= i < |d.queue| && Present(d, i) ==> d.queue[i].page.nextCursor.Some?
  }

  /** Answers are stretches of the results, and "load more" is clicked on an undisturbed panel. */
  ghost predicate Ordinary(catalog: Catalog, lane: Lane, d: Deferred, c: Callback) {
    match c
    case FirstAnswer(request, page) => request.cursor.None? && HonestPage(catalog, lane, request, page)
    case MoreAnswer(page) => d.asked.Some? ==> HonestPage(catalog, lane, d.asked.value, page)
    case AskMore(seen) => MayAsk(d, seen) ==> Undisturbed(d)
    case _ => true
  }

  // ----- What every callback keeps -----

  function Results(catalog: Catalog, lane: Lane, ls: LaneState): seq<Donor> {
    catalog(lane, ls.request.year, ls.request.search)
  }

  /** The preview, whatever the cursor, is a prefix of what the request asks for. */
  ghost predicate Prefix(results: seq<Donor>, ls: LaneState) {
    ls.preview.Some? ==> ls.preview.value.year == ls.request.year && ls.preview.value.donors <= results
  }

  /** The preview is exactly the first `n` results. */
  ghost predicate Exact(results: seq<Donor>, ls: LaneState, n: nat) {
    && ls.preview.Some? && ls.preview.value.year == ls.request.year
    && n <= |results| && ls.preview.value.donors == results[..n]
  }

  /** The state reached when every page still to be shown is dropped. */
  function Dropped(ls: LaneState, queue: seq<Update>): LaneState
    decreases |queue|
  {
    if queue == [] then ls else Dropped(if queue[0].Show? then ls else Ran(ls, queue[0]), queue[1..])
  }

  /** A page left to show answers its request; those of the present generation come last. */
  ghost predicate PageInPlace(catalog: Catalog, lane: Lane, d: Deferred, i: nat)
    requires i < |d.queue|
  {
    d.queue[i].Show? ==>
      var asked, current := d.queue[i].request, d.lane.request;
      && HonestPage(catalog, lane, asked, d.queue[i].page)
      && (d.queue[i].append <==> asked.cursor.Some?)
      && (d.queue[i].append ==> 0 < asked.cursor.value < |catalog(lane, asked.year, asked.search)|)
      && asked.generation <= current.generation
      && (Present(d, i) ==>
            && asked.year == current.year && asked.search == current.search
            && forall j :: i <= j < |d.queue| ==> Present(d, j))
  }

  ghost predicate PagesInPlace(catalog: Catalog, lane: Lane, d: Deferred) {
    forall i :: 0 <= i < |d.queue| ==> PageInPlace(catalog, lane, d, i)
  }

  /** Each page of the present generation was asked for where the one before left the ref. */
  ghost predicate Linked(d: Deferred, i: nat)
    requires i < |d.queue|
  {
    Present(d, i) ==>
      if i + 1 < |d.queue| then d.queue[i + 1].Show? && d.queue[i + 1].request == Left(d.queue[i])
      else d.lane.request == Left(d.queue[i])
  }

  ghost predicate Chain(d: Deferred) {
    forall i :: 0 <= i < |d.queue| ==> Linked(d, i)
  }

  /** Before a page to be appended stand only first pages that left the ref where it starts. */
  ghost predicate OnlyFirstPages(d: Deferred, n: nat, cursor: Cursor)
    requires n <= |d.queue|
  {
    forall i :: 0 <= i < n && Present(d, i) ==> !d.queue[i].append && d.queue[i].page.nextCursor == cursor
  }

  /** A page to be appended finds exactly what comes before it. */
  ghost predicate AppendFits(results: seq<Donor>, d: Deferred, i: nat)
    requires i < |d.queue|
  {
    Present(d, i) && d.queue[i].append && d.queue[i].request.cursor.Some? ==>
      && Exact(results, Dropped(d.lane, d.queue[..i]), d.queue[i].request.cursor.value)
      && OnlyFirstPages(d, i, d.queue[i].request.cursor)
  }

  ghost predicate AppendsFit(results: seq<Donor>, d: Deferred) {
    forall i :: 0 <= i < |d.queue| ==> AppendFits(results, d, i)
  }

  /** The answer to a click will find exactly what comes before it. */
  ghost predicate AskedFits(results: seq<Donor>, d: Deferred) {
    d.asked.Some? ==>
      && d.asked.value.cursor.Some? && d.asked.value.generation <= d.lane.request.generation
      && (d.asked.value.generation == d.lane.request.generation ==>
            && d.asked.value == d.lane.request
            && Exact(results, Dropped(d.lane, d.queue), d.asked.value.cursor.value)
            && OnlyFirstPages(d, |d.queue|, d.asked.value.cursor))
  }

  ghost predicate Sound(catalog: Catalog, lane: Lane, d: Deferred) {
    var results := Results(catalog, lane, d.lane);
    && Shows(results, Rendered(d.lane, d.queue)) && Prefix(results, Dropped(d.lane, d.queue))
    && PagesInPlace(catalog, lane, d) && Chain(d) && AppendsFit(results, d) && AskedFits(results, d)
  }

  // ----- Running and dropping a queue -----

  lemma {:induction false} RenderedSplits(ls: LaneState, queue: seq<Update>, u: Update)
    ensures Rendered(ls, queue + [u]) == Ran(Rendered(ls, queue), u)
    decreases |queue|
  {
    if queue != [] {
      assert (queue + [u])[1..] == queue[1..] + [u];
      RenderedSplits(Ran(ls, queue[0]), queue[1..], u);
    } else {
      assert (queue + [u])[1..] == [];
    }
  }

  lemma {:induction false} DroppedSplits(ls: LaneState, queue: seq<Update>, u: Update)
    ensures Dropped(ls, queue + [u]) == if u.Show? then Dropped(ls, queue) else Ran(Dropped(ls, queue), u)
    decreases |queue|
  {
    if queue != [] {
      assert (queue + [u])[1..] == queue[1..] + [u];
      DroppedSplits(if queue[0].Show? then ls else Ran(ls, queue[0]), queue[1..], u);
    } else {
      assert (queue + [u])[1..] == [];
    }
  }

  lemma {:induction false} RenderedKeepsRequest(ls: LaneState, queue: seq<Update>)
    ensures Rendered(ls, queue).request == ls.request
    decreases |queue|
  {
    if queue != [] {
      RenderedKeepsRequest(Ran(ls, queue[0]), queue[1..]);
    }
  }

  /** Which pages are dropped depends on the ref; what is left when all are dropped does not. */
  lemma {:induction false} DroppedIgnoresRequest(ls: LaneState, queue: seq<Update>, request: Request)
    ensures Dropped(ls.(request := request), queue) == Dropped(ls, queue).(request := request)
    ensures Dropped(ls, queue).request == ls.request
    decreases |queue|
  {
    if queue != [] {
      DroppedIgnoresRequest(if queue[0].Show? then ls else Ran(ls, queue[0]), queue[1..], request);
    }
  }

  /** When the ref has moved on from every page left, all are dropped. */
  lemma {:induction false} RenderedIsDropped(ls: LaneState, queue: seq<Update>)
    requires forall i :: 0 <= i < |queue| && queue[i].Show? ==> ls.request != Left(queue[i])
    ensures Rendered(ls, queue) == Dropped(ls, queue)
    decreases |queue|
  {
    if queue != [] {
      RenderedIsDropped(Ran(ls, queue[0]), queue[1..]);
    }
  }

  lemma {:induction false} DroppedPages(ls: LaneState, queue: seq<Update>)
    requires forall i :: 0 <= i < |queue| ==> queue[i].Show?
    ensures Dropped(ls, queue) == ls
    decreases |queue|
  {
    if queue != [] {
      DroppedPages(ls, queue[1..]);
    }
  }

  /** Only an invalidation takes the preview away. */
  lemma {:induction false} DroppedPreview(ls: LaneState, queue: seq<Update>)
    ensures Dropped(ls, queue).preview == if Clear in queue then None else ls.preview
    decreases |queue|
  {
    if queue != [] {
      DroppedPreview(if queue[0].Show? then ls else Ran(ls, queue[0]), queue[1..]);
      assert queue == [queue[0]] + queue[1..];
    }
  }

  // ----- A later generation -----

  lemma MovingRenders(catalog: Catalog, lane: Lane, d: Deferred, request: Request, update: Update)
    requires Sound(catalog, lane, d) && request.generation == d.lane.request.generation + 1 && request.cursor.None?
    requires update == Clear || (update == ClearCursor && request.year == d.lane.request.year
                                 && request.search == d.lane.request.search)
    ensures var d' := Moved(d, request, update);
            var results := Results(catalog, lane, d'.lane);
            Shows(results, Rendered(d'.lane, d'.queue)) && Prefix(results, Dropped(d'.lane, d'.queue))
  {
    var ls := d.lane.(request := request);
    forall i | 0 <= i < |d.queue| && d.queue[i].Show? ensures ls.request != Left(d.queue[i]) {
      assert PageInPlace(catalog, lane, d, i);
    }
    RenderedIsDropped(ls, d.queue);
    DroppedIgnoresRequest(d.lane, d.queue, request);
    RenderedSplits(ls, d.queue, update);
    DroppedSplits(ls, d.queue, update);
  }

  lemma MovingLeavesNonePresent(catalog: Catalog, lane: Lane, d: Deferred, request: Request, update: Update)
    requires PagesInPlace(catalog, lane, d) && request.generation == d.lane.request.generation + 1 && !update.Show?
    ensures var d' := Moved(d, request, update);
            && PagesInPlace(catalog, lane, d')
            && forall i :: 0 <= i < |d'.queue| ==> !Present(d', i)
  {
    var d' := Moved(d, request, update);
    forall i | 0 <= i < |d'.queue| ensures PageInPlace(catalog, lane, d', i) && !Present(d', i) {
      assert i < |d.queue| ==> PageInPlace(catalog, lane, d, i);
    }
  }

  lemma MovingKeepsSound(catalog: Catalog, lane: Lane, d: Deferred, request: Request, update: Update)
    requires Sound(catalog, lane, d) && request.generation == d.lane.request.generation + 1 && request.cursor.None?
    requires update == Clear || (update == ClearCursor && request.year == d.lane.request.year
                                 && request.search == d.lane.request.search)
    ensures Sound(catalog, lane, Moved(d, request, update))
  {
    MovingRenders(catalog, lane, d, request, update);
    MovingLeavesNonePresent(catalog, lane, d, request, update);
  }

  // ----- Answers -----

  /** A page added at the end stands in its place, and links to the one before. */
  lemma TakingKeepsPlaces(catalog: Catalog, lane: Lane, d: Deferred, page: Page, append: bool)
    requires PagesInPlace(catalog, lane, d) && Chain(d) && HonestPage(catalog, lane, d.lane.request, page)
    requires append <==> d.lane.request.cursor.Some?
    requires append ==> 0 < d.lane.request.cursor.value < |Results(catalog, lane, d.lane)|
    ensures var d' := Taken(d, d.lane.request, page, append);
            PagesInPlace(catalog, lane, d') && Chain(d')
  {
    var d' := Taken(d, d.lane.request, page, append);
    forall i | 0 <= i < |d'.queue| ensures PageInPlace(catalog, lane, d', i) && Linked(d', i) {
      if i < |d.queue| {
        assert PageInPlace(catalog, lane, d, i) && Linked(d, i);
        if Present(d, i) {
          forall j | i <= j < |d'.queue| ensures Present(d', j) {
            assert j < |d.queue| ==> Present(d, j);
          }
        }
      }
    }
  }

  /** What a pending page finds does not depend on where the ref is. */
  lemma TakingKeepsFits(results: seq<Donor>, d: Deferred, page: Page, append: bool, i: nat)
    requires i < |d.queue| && AppendFits(results, d, i)
    ensures AppendFits(results, Taken(d, d.lane.request, page, append), i)
  {
    var d' := Taken(d, d.lane.request, page, append);
    assert d'.queue[..i] == d.queue[..i];
    DroppedIgnoresRequest(d.lane, d.queue[..i], d'.lane.request);
    forall j | 0 <= j < i ensures Present(d', j) <==> Present(d, j) {
    }
  }

  lemma FirstPageIsPrefix(catalog: Catalog, lane: Lane, ls: LaneState, page: Page, request: Request)
    requires request.cursor.None? && HonestPage(catalog, lane, request, page)
    requires ls.request == request.(cursor := page.nextCursor)
    ensures Shows(Results(catalog, lane, ls), Shown(ls, page, false))
  {
  }

  lemma FirstAnswerKeepsSound(catalog: Catalog, lane: Lane, d: Deferred, request: Request, page: Page)
    requires Sound(catalog, lane, d) && request.cursor.None? && HonestPage(catalog, lane, request, page)
    ensures Sound(catalog, lane, Taken(d, request, page, false))
  {
    if d.lane.request == request {
      var update := Show(request, page, false);
      var d' := Taken(d, request, page, false);
      RenderedSplits(d'.lane, d.queue, update);
      RenderedKeepsRequest(d'.lane, d.queue);
      FirstPageIsPrefix(catalog, lane, Rendered(d'.lane, d.queue), page, request);
      DroppedSplits(d'.lane, d.queue, update);
      DroppedIgnoresRequest(d.lane, d.queue, d'.lane.request);
      TakingKeepsPlaces(catalog, lane, d, page, false);
      var results := Results(catalog, lane, d.lane);
      forall i | 0 <= i < |d'.queue| ensures AppendFits(results, d', i) {
        if i < |d.queue| {
          assert AppendFits(results, d, i);
          TakingKeepsFits(results, d, page, false, i);
        }
      }
    }
  }

  lemma NextPageFits(catalog: Catalog, lane: Lane, ls: LaneState, request: Request, page: Page)
    requires request.cursor.Some? && HonestPage(catalog, lane, request, page)
    requires 0 < request.cursor.value && ls.request == request.(cursor := page.nextCursor)
    requires Exact(Results(catalog, lane, ls), ls, request.cursor.value)
    ensures Shows(Results(catalog, lane, ls), Shown(ls, page, true))
    ensures Exact(Results(catalog, lane, ls), Shown(ls, page, true), request.cursor.value + |page.donors|)
  {
    var results, n := Results(catalog, lane, ls), request.cursor.value;
    assert results[..n] + results[n..n + |page.donors|] == results[..n + |page.donors|];
  }

  lemma CursorIsInside(catalog: Catalog, lane: Lane, d: Deferred)
    requires Sound(catalog, lane, d)
    ensures d.lane.request.cursor.Some? ==> 0 < d.lane.request.cursor.value < |Results(catalog, lane, d.lane)|
  {
    RenderedKeepsRequest(d.lane, d.queue);
  }

  /** When no page left to show ends where the answer does, all are dropped before it is appended. */
  lemma NoneEndsThere(catalog: Catalog, lane: Lane, d: Deferred, request: Request)
    requires PagesInPlace(catalog, lane, d)
    requires request == d.lane.request.(cursor := request.cursor)
    requires forall i :: 0 <= i < |d.queue| && Present(d, i) ==> d.queue[i].page.nextCursor != request.cursor
    ensures Rendered(d.lane.(request := request), d.queue) == Dropped(d.lane, d.queue).(request := request)
  {
    forall i | 0 <= i < |d.queue| && d.queue[i].Show? ensures request != Left(d.queue[i]) {
      assert PageInPlace(catalog, lane, d, i);
      assert Present(d, i) || d.queue[i].request.generation < d.lane.request.generation;
    }
    RenderedIsDropped(d.lane.(request := request), d.queue);
    DroppedIgnoresRequest(d.lane, d.queue, request);
  }

  lemma MoreAnswerKeepsSound(catalog: Catalog, lane: Lane, d: Deferred, page: Page)
    requires Sound(catalog, lane, d) && d.asked.Some? && HonestPage(catalog, lane, d.asked.value, page)
    ensures Sound(catalog, lane, Taken(d.(asked := None), d.asked.value, page, true))
  {
    var d0, request := d.(asked := None), d.asked.value;
    ForgettingKeepsSound(catalog, lane, d);
    if d.lane.request == request {
      CursorIsInside(catalog, lane, d);
      var results := Results(catalog, lane, d.lane);
      var d' := Taken(d0, request, page, true);
      AppendedPage(catalog, lane, d, page);
      TakingKeepsPlaces(catalog, lane, d0, page, true);
      forall i | 0 <= i < |d'.queue| ensures AppendFits(results, d', i) {
        if i < |d.queue| {
          assert AppendFits(results, d0, i);
          TakingKeepsFits(results, d0, page, true, i);
        } else {
          assert d'.queue[..i] == d.queue;
          DroppedIgnoresRequest(d.lane, d.queue, d'.lane.request);
          assert forall j :: 0 <= j < i ==> (Present(d', j) <==> Present(d, j));
        }
      }
    }
  }

  lemma ForgettingKeepsSound(catalog: Catalog, lane: Lane, d: Deferred)
    requires Sound(catalog, lane, d)
    ensures Sound(catalog, lane, d.(asked := None))
  {
    var d', results := d.(asked := None), Results(catalog, lane, d.lane);
    forall i | 0 <= i < |d'.queue|
      ensures PageInPlace(catalog, lane, d', i) && Linked(d', i) && AppendFits(results, d', i)
    {
      assert PageInPlace(catalog, lane, d, i) && Linked(d, i) && AppendFits(results, d, i);
      assert forall j :: 0 <= j < |d.queue| ==> (Present(d', j) <==> Present(d, j));
    }
  }

  lemma AppendedPage(catalog: Catalog, lane: Lane, d: Deferred, page: Page)
    requires Sound(catalog, lane, d) && d.asked == Some(d.lane.request)
    requires HonestPage(catalog, lane, d.lane.request, page)
    ensures var d' := Taken(d.(asked := None), d.lane.request, page, true);
            var results := Results(catalog, lane, d.lane);
            Shows(results, Rendered(d'.lane, d'.queue)) && Prefix(results, Dropped(d'.lane, d'.queue))
  {
    var request := d.lane.request;
    var update := Show(request, page, true);
    var d' := Taken(d.(asked := None), request, page, true);
    CursorIsInside(catalog, lane, d);
    RenderedSplits(d'.lane, d.queue, update);
    NoneEndsThere(catalog, lane, d, d'.lane.request);
    DroppedSplits(d'.lane, d.queue, update);
    DroppedIgnoresRequest(d.lane, d.queue, d'.lane.request);
    NextPageFits(catalog, lane, Dropped(d'.lane, d.queue), request, page);
  }

  // ----- The click -----

  /** On an undisturbed panel the only page left to show, if any, is the first page that left the ref where it is. */
  lemma UndisturbedFits(catalog: Catalog, lane: Lane, d: Deferred)
    requires Sound(catalog, lane, d) && Undisturbed(d)
    ensures Exact(Results(catalog, lane, d.lane), Dropped(d.lane, d.queue), d.lane.request.cursor.value)
    ensures OnlyFirstPages(d, |d.queue|, d.lane.request.cursor)
  {
    DroppedPreview(d.lane, d.queue);
    DroppedIgnoresRequest(d.lane, d.queue, d.lane.request);
    CursorIsInside(catalog, lane, d);
    forall i | 0 <= i < |d.queue| && Present(d, i)
      ensures !d.queue[i].append && d.queue[i].page.nextCursor == d.lane.request.cursor
    {
      NothingAppended(catalog, lane, d, i);
      assert Linked(d, i) && PageInPlace(catalog, lane, d, i);
      if i + 1 < |d.queue| {
        assert Present(d, i + 1) && PageInPlace(catalog, lane, d, i + 1);
        NothingAppended(catalog, lane, d, i + 1);
      }
    }
  }

  lemma NothingAppended(catalog: Catalog, lane: Lane, d: Deferred, i: nat)
    requires Sound(catalog, lane, d) && Undisturbed(d) && i < |d.queue| && Present(d, i)
    ensures !d.queue[i].append
  {
    var results := Results(catalog, lane, d.lane);
    assert PageInPlace(catalog, lane, d, i) && Linked(d, i) && AppendFits(results, d, i);
    assert i + 1 < |d.queue| ==>
        PageInPlace(catalog, lane, d, i + 1) && AppendFits(results, d, i + 1) && Present(d, i + 1);
    DroppedPreview(d.lane, d.queue[..i]);
  }

  lemma AskMoreKeepsSound(catalog: Catalog, lane: Lane, d: Deferred, seen: Cursor)
    requires Sound(catalog, lane, d) && (MayAsk(d, seen) ==> Undisturbed(d))
    ensures Sound(catalog, lane, Called(d, AskMore(seen)))
  {
    if MayAsk(d, seen) {
      UndisturbedFits(catalog, lane, d);
      var d', results := d.(asked := Some(d.lane.request)), Results(catalog, lane, d.lane);
      forall i | 0 <= i < |d'.queue|
        ensures PageInPlace(catalog, lane, d', i) && Linked(d', i) && AppendFits(results, d', i)
      {
        assert PageInPlace(catalog, lane, d, i) && Linked(d, i) && AppendFits(results, d, i);
        assert forall j :: 0 <= j < |d.queue| ==> (Present(d', j) <==> Present(d, j));
      }
    }
  }

  // ----- An updater runs -----

  /** The first update, when it shows a page, makes what is shown an exact start of the results. */
  lemma HeadShows(catalog: Catalog, lane: Lane, d: Deferred)
    requires Sound(catalog, lane, d) && d.queue != []
    requires d.queue[0].Show? && d.lane.request == Left(d.queue[0])
    ensures var results, u := Results(catalog, lane, d.lane), d.queue[0];
            var ls := Shown(d.lane, u.page, u.append);
            && Prefix(results, ls)
            && (u.page.nextCursor.Some? ==> Exact(results, ls, u.page.nextCursor.value))
  {
    var results, u := Results(catalog, lane, d.lane), d.queue[0];
    assert PageInPlace(catalog, lane, d, 0) && AppendFits(results, d, 0);
    if u.append {
      assert d.queue[..0] == [];
      NextPageFits(catalog, lane, d.lane, u.request, u.page);
    } else {
      FirstPageIsPrefix(catalog, lane, d.lane, u.page, u.request);
    }
  }

  /** What is left when all pages are dropped changes only when the first update shows a page, the last to be shown. */
  lemma HeadDrops(catalog: Catalog, lane: Lane, d: Deferred, n: nat)
    requires Sound(catalog, lane, d) && 0 < n <= |d.queue|
    ensures var d' := Called(d, RunNext);
            && d'.queue[..n - 1] == d.queue[1..n]
            && Dropped(d'.lane, d'.queue[..n - 1]) ==
               if d.queue[0].Show? && d.lane.request == Left(d.queue[0]) then d'.lane else Dropped(d.lane, d.queue[..n])
  {
    var d' := Called(d, RunNext);
    assert d.queue[..n][1..] == d'.queue[..n - 1];
    assert PageInPlace(catalog, lane, d, 0);
    if d.queue[0].Show? && d.lane.request == Left(d.queue[0]) {
      var rest := d'.queue[..n - 1];
      forall i | 0 <= i < |rest| ensures rest[i].Show? {
        assert Present(d, i + 1);
      }
      DroppedPages(d'.lane, rest);
    }
  }

  lemma RunNextKeepsPlaces(catalog: Catalog, lane: Lane, d: Deferred)
    requires Sound(catalog, lane, d) && d.queue != []
    ensures var d' := Called(d, RunNext);
            && d'.lane.request == d.lane.request && PagesInPlace(catalog, lane, d') && Chain(d')
  {
    var d' := Called(d, RunNext);
    forall i | 0 <= i < |d'.queue| ensures PageInPlace(catalog, lane, d', i) && Linked(d', i) {
      assert PageInPlace(catalog, lane, d, i + 1) && Linked(d, i + 1);
      assert forall j :: 0 <= j < |d'.queue| ==> (Present(d', j) <==> Present(d, j + 1));
    }
  }

  lemma RunNextKeepsFits(catalog: Catalog, lane: Lane, d: Deferred, i: nat)
    requires Sound(catalog, lane, d) && i + 1 < |d.queue|
    ensures AppendFits(Results(catalog, lane, d.lane), Called(d, RunNext), i)
  {
    var d', results := Called(d, RunNext), Results(catalog, lane, d.lane);
    assert AppendFits(results, d, i + 1) && PageInPlace(catalog, lane, d, 0);
    assert forall j :: 0 <= j < |d'.queue| ==> (Present(d', j) <==> Present(d, j + 1));
    HeadDrops(catalog, lane, d, i + 1);
    if Present(d', i) && d.queue[0].Show? && d.lane.request == Left(d.queue[0]) {
      HeadShows(catalog, lane, d);
    }
  }

  lemma RunNextKeepsAsked(catalog: Catalog, lane: Lane, d: Deferred)
    requires Sound(catalog, lane, d) && d.queue != []
    ensures AskedFits(Results(catalog, lane, d.lane), Called(d, RunNext))
  {
    var d' := Called(d, RunNext);
    assert forall j :: 0 <= j < |d'.queue| ==> (Present(d', j) <==> Present(d, j + 1));
    HeadDrops(catalog, lane, d, |d.queue|);
    assert d'.queue[..|d.queue| - 1] == d'.queue && d.queue[..|d.queue|] == d.queue;
    assert PageInPlace(catalog, lane, d, 0);
    if d.queue[0].Show? && d.lane.request == Left(d.queue[0]) {
      HeadShows(catalog, lane, d);
    }
  }

  lemma RunNextKeepsSound(catalog: Catalog, lane: Lane, d: Deferred)
    requires Sound(catalog, lane, d) && d.queue != []
    ensures Sound(catalog, lane, Called(d, RunNext))
  {
    var d' := Called(d, RunNext);
    RunNextKeepsPlaces(catalog, lane, d);
    RunNextKeepsAsked(catalog, lane, d);
    forall i | 0 <= i < |d'.queue| ensures AppendFits(Results(catalog, lane, d.lane), d', i) {
      RunNextKeepsFits(catalog, lane, d, i);
    }
    HeadDrops(catalog, lane, d, |d.queue|);
    assert d'.queue[..|d.queue| - 1] == d'.queue && d.queue[..|d.queue|] == d.queue;
    if d.queue[0].Show? && d.lane.request == Left(d.queue[0]) {
      HeadShows(catalog, lane, d);
    }
  }

  // ----- Whole runs -----

  lemma CallbackKeepsSound(catalog: Catalog, lane: Lane, d: Deferred, c: Callback)
    requires Sound(catalog, lane, d) && Ordinary(catalog, lane, d, c)
    ensures Sound(catalog, lane, Called(d, c))
  {
    var current := d.lane.request;
    match c {
      case Replace =>
        var request := Request(current.generation + 1, current.year, current.search, None);
        MovingKeepsSound(catalog, lane, d, request, ClearCursor);
      case Invalidate(year, search) =>
        MovingKeepsSound(catalog, lane, d, Request(current.generation + 1, year, search, None), Clear);
      case FirstAnswer(request, page) => FirstAnswerKeepsSound(catalog, lane, d, request, page);
      case MoreAnswer(page) =>
        if d.asked.Some? {
          MoreAnswerKeepsSound(catalog, lane, d, page);
        }
      case AskMore(seen) => AskMoreKeepsSound(catalog, lane, d, seen);
      case RunNext =>
        if d.queue != [] {
          RunNextKeepsSound(catalog, lane, d);
        }
    }
  }

  ghost predicate OrdinaryRun(catalog: Catalog, lane: Lane, d: Deferred, run: seq<Callback>)
    decreases |run|
  {
    run != [] ==> Ordinary(catalog, lane, d, run[0]) && OrdinaryRun(catalog, lane, Called(d, run[0]), run[1..])
  }

  lemma {:induction false} CallbacksKeepSound(catalog: Catalog, lane: Lane, d: Deferred, run: seq<Callback>)
    requires Sound(catalog, lane, d) && OrdinaryRun(catalog, lane, d, run)
    ensures Sound(catalog, lane, CalledAll(d, run))
    decreases |run|
  {
    if run != [] {
      CallbackKeepsSound(catalog, lane, d, run[0]);
      CallbacksKeepSound(catalog, lane, Called(d, run[0]), run[1..]);
    }
  }

  function FirstRender(year: string): Deferred {
    Deferred(InitialLane(year), [], None)
  }

  /**
   * Over every run, however late React runs the updaters: what is rendered once none is left is a prefix of the results
   * for the year and search now asked for, and a cursor marks exactly its end.
   */
  lemma RenderedPreviewIsPrefix(catalog: Catalog, lane: Lane, year: string, run: seq<Callback>)
    requires OrdinaryRun(catalog, lane, FirstRender(year), run)
    ensures var d := CalledAll(FirstRender(year), run);
            var rendered := Rendered(d.lane, d.queue);
            && rendered.request == d.lane.request
            && Shows(Results(catalog, lane, rendered), rendered)
  {
    CallbacksKeepSound(catalog, lane, FirstRender(year), run);
    var d := CalledAll(FirstRender(year), run);
    RenderedKeepsRequest(d.lane, d.queue);
  }

  // ----- Exactly which clicks are safe -----

  /** "Load more" is clicked and answered before any further update runs. */
  function ClickedAndAnswered(d: Deferred, page: Page): LaneState {
    var answered := Called(Called(d, AskMore(d.lane.request.cursor)), MoreAnswer(page));
    Rendered(answered.lane, answered.queue)
  }

  /** Whatever stretch of the results answers the click, a prefix is rendered. */
  ghost predicate ClickIsSafe(catalog: Catalog, lane: Lane, d: Deferred) {
    forall page | HonestPage(catalog, lane, d.lane.request, page) ::
      Shows(Results(catalog, lane, d.lane), ClickedAndAnswered(d, page))
  }

  ghost predicate AllDifferent(results: seq<Donor>) {
    forall i, j :: 0 <= i < j < |results| ==> results[i] != results[j]
  }

  /** A panel rendered to the end is undisturbed. */
  lemma RenderedIsUndisturbed(catalog: Catalog, lane: Lane, d: Deferred)
    requires Sound(catalog, lane, d) && d.queue == [] && d.lane.request.cursor.Some?
    ensures Undisturbed(d)
  {
  }

  lemma UndisturbedIsSafe(catalog: Catalog, lane: Lane, d: Deferred, page: Page)
    requires Sound(catalog, lane, d) && Undisturbed(d) && HonestPage(catalog, lane, d.lane.request, page)
    ensures Shows(Results(catalog, lane, d.lane), ClickedAndAnswered(d, page))
  {
    var asked := Called(d, AskMore(d.lane.request.cursor));
    AskMoreKeepsSound(catalog, lane, d, d.lane.request.cursor);
    MoreAnswerKeepsSound(catalog, lane, asked, page);
  }

  /** The rest of the results, in one page. */
  function RestOf(catalog: Catalog, lane: Lane, request: Request): Page
    requires request.cursor.Some? && request.cursor.value <= |catalog(lane, request.year, request.search)|
  {
    Page(request.year, catalog(lane, request.year, request.search)[request.cursor.value..], None, false)
  }

  lemma AppendedNeedsExact(results: seq<Donor>, before: seq<Donor>, n: nat)
    requires AllDifferent(results) && n < |results| && before + results[n..] <= results
    ensures |before| == n
  {
    assert (before + results[n..])[|before|] == results[n];
  }

  ghost predicate EndsWith(ls: LaneState, last: Donor) {
    && ls.preview.Some? && ls.preview.value.donors != []
    && ls.preview.value.donors[|ls.preview.value.donors| - 1] == last
  }

  /** A page that the ref wants ends with the last result. */
  ghost predicate BringsLast(ls: LaneState, u: Update, last: Donor)
    requires u.Show?
  {
    ls.request == Left(u) ==> u.page.donors != [] && u.page.donors[|u.page.donors| - 1] == last
  }

  lemma {:induction false} StaysEnding(ls: LaneState, queue: seq<Update>, last: Donor)
    requires EndsWith(ls, last)
    requires forall i :: 0 <= i < |queue| ==> queue[i].Show? && BringsLast(ls, queue[i], last)
    ensures EndsWith(Rendered(ls, queue), last)
    decreases |queue|
  {
    if queue != [] {
      var next, rest := Ran(ls, queue[0]), queue[1..];
      assert BringsLast(ls, queue[0], last);
      forall i | 0 <= i < |rest| ensures rest[i].Show? && BringsLast(next, rest[i], last) {
        assert queue[i + 1].Show? && BringsLast(ls, queue[i + 1], last);
      }
      StaysEnding(next, rest, last);
    }
  }

  lemma {:induction false} CompletingPageStays(ls: LaneState, queue: seq<Update>, last: Donor, k: nat)
    requires k < |queue|
    requires forall i :: k <= i < |queue| ==> queue[i].Show? && BringsLast(ls, queue[i], last)
    requires queue[k].Show? && ls.request == Left(queue[k])
    ensures EndsWith(Rendered(ls, queue), last)
    decreases |queue|
  {
    var next, rest := Ran(ls, queue[0]), queue[1..];
    forall i | 0 <= i < |rest| && k <= i + 1 ensures rest[i].Show? && BringsLast(next, rest[i], last) {
      assert queue[i + 1].Show? && BringsLast(ls, queue[i + 1], last);
    }
    if k == 0 {
      assert BringsLast(ls, queue[0], last);
      StaysEnding(next, rest, last);
    } else {
      CompletingPageStays(next, rest, last, k - 1);
    }
  }

  /** With a page left to show that completes the list, the rest of the list would come twice. */
  lemma CompletingPageIsNotSafe(catalog: Catalog, lane: Lane, d: Deferred, k: nat)
    requires Sound(catalog, lane, d) && d.lane.request.cursor.Some? && AllDifferent(Results(catalog, lane, d.lane))
    requires k < |d.queue| && Present(d, k) && d.queue[k].page.nextCursor.None?
    ensures var full := d.lane.(request := d.lane.request.(cursor := None));
            var results := Results(catalog, lane, d.lane);
            results != [] && EndsWith(Rendered(full, d.queue), results[|results| - 1])
  {
    var full := d.lane.(request := d.lane.request.(cursor := None));
    var results := Results(catalog, lane, d.lane);
    CursorIsInside(catalog, lane, d);
    assert PageInPlace(catalog, lane, d, k);
    forall i | k <= i < |d.queue|
      ensures d.queue[i].Show? && BringsLast(full, d.queue[i], results[|results| - 1])
    {
      assert Present(d, i) && PageInPlace(catalog, lane, d, i);
    }
    CompletingPageStays(full, d.queue, results[|results| - 1], k);
  }

  /** A click that is safe finds a panel that, once rendered, shows exactly the results up to the cursor. */
  lemma SafeShowsUpToTheCursor(catalog: Catalog, lane: Lane, d: Deferred)
    requires Sound(catalog, lane, d) && d.lane.request.cursor.Some? && AllDifferent(Results(catalog, lane, d.lane))
    requires ClickIsSafe(catalog, lane, d)
    ensures var full := d.lane.(request := d.lane.request.(cursor := None));
            && 0 < d.lane.request.cursor.value < |Results(catalog, lane, d.lane)|
            && Exact(Results(catalog, lane, d.lane), Rendered(full, d.queue), d.lane.request.cursor.value)
  {
    var results, n := Results(catalog, lane, d.lane), d.lane.request.cursor.value;
    CursorIsInside(catalog, lane, d);
    var page := RestOf(catalog, lane, d.lane.request);
    assert HonestPage(catalog, lane, d.lane.request, page);
    var full := d.lane.(request := d.lane.request.(cursor := None));
    var before := Rendered(full, d.queue);
    RenderedSplits(full, d.queue, Show(d.lane.request, page, true));
    RenderedKeepsRequest(full, d.queue);
    assert ClickedAndAnswered(d, page) == Shown(before, page, true);
    var kept :=
      if before.preview.Some? && before.preview.value.year == page.year then before.preview.value.donors else [];
    assert Shown(before, page, true).preview.value.donors == kept + results[n..];
    AppendedNeedsExact(results, kept, n);
    assert kept == (kept + results[n..])[..n] == results[..n];
  }

  lemma SafeIsUndisturbed(catalog: Catalog, lane: Lane, d: Deferred)
    requires Sound(catalog, lane, d) && d.lane.request.cursor.Some? && AllDifferent(Results(catalog, lane, d.lane))
    requires ClickIsSafe(catalog, lane, d)
    ensures Undisturbed(d)
  {
    SafeShowsUpToTheCursor(catalog, lane, d);
    var full := d.lane.(request := d.lane.request.(cursor := None));
    forall k: nat | k < |d.queue| && Present(d, k) ensures d.queue[k].page.nextCursor.Some? {
      if d.queue[k].page.nextCursor.None? {
        CompletingPageIsNotSafe(catalog, lane, d, k);
        assert false;
      }
    }
    NoneEndsThere(catalog, lane, d, full.request);
    DroppedPreview(d.lane, d.queue);
  }

  /**
   * In every reachable state where the ref has a cursor, and with results that are all different: a click, answered
   * before any further update runs, is safe if and only if the panel is undisturbed.
   */
  lemma ClickIsSafeIff(catalog: Catalog, lane: Lane, year: string, run: seq<Callback>)
    requires OrdinaryRun(catalog, lane, FirstRender(year), run)
    requires var d := CalledAll(FirstRender(year), run);
             d.lane.request.cursor.Some? && AllDifferent(Results(catalog, lane, d.lane))
    ensures var d := CalledAll(FirstRender(year), run);
            ClickIsSafe(catalog, lane, d) <==> Undisturbed(d)
  {
    CallbacksKeepSound(catalog, lane, FirstRender(year), run);
    var d := CalledAll(FirstRender(year), run);
    if Undisturbed(d) {
      forall page | HonestPage(catalog, lane, d.lane.request, page)
        ensures Shows(Results(catalog, lane, d.lane), ClickedAndAnswered(d, page))
      {
        UndisturbedIsSafe(catalog, lane, d, page);
      }
    } else if ClickIsSafe(catalog, lane, d) {
      SafeIsUndisturbed(catalog, lane, d);
    }
  }

  /** The first page is shown, the search starts over, and its first page arrives again, not yet rendered. */
  function NotYetRendered(year: string): seq<Callback> {
    var page := Page(year, ["a"], Some(1), true);
    [FirstAnswer(Request(0, year, "", None), page), RunNext, Invalidate(year, ""),
     FirstAnswer(Request(1, year, "", None), page)]
  }

  lemma NotYetRenderedRun(catalog: Catalog, year: string)
    requires catalog(Certificates, year, "") == ["a", "b"]
    ensures OrdinaryRun(catalog, Certificates, FirstRender(year), NotYetRendered(year))
    ensures var d, page := CalledAll(FirstRender(year), NotYetRendered(year)), Page(year, ["a"], Some(1), true);
            && d.lane == InitialLane(year).(request := Request(1, year, "", Some(1)),
                                            preview := Some(Preview(year, ["a"], true)), previewCursor := Some(1))
            && d.queue == [Clear, Show(Request(1, year, "", None), page, false)] && d.asked == None
  {
    var run := NotYetRendered(year);
    var d1 := Called(FirstRender(year), run[0]);
    var d2 := Called(d1, run[1]);
    var d3 := Called(d2, run[2]);
    var d4 := Called(d3, run[3]);
    assert run[1..] == [run[1], run[2], run[3]];
    assert [run[1], run[2], run[3]][1..] == [run[2], run[3]];
    assert [run[2], run[3]][1..] == [run[3]] && [run[3]][1..] == [];
    assert CalledAll(d3, [run[3]]) == CalledAll(d4, []) == d4;
    assert OrdinaryRun(catalog, Certificates, d3, [run[3]]);
    assert CalledAll(d2, [run[2], run[3]]) == d4;
    assert OrdinaryRun(catalog, Certificates, d2, [run[2], run[3]]);
    assert CalledAll(d1, run[1..]) == d4;
    assert OrdinaryRun(catalog, Certificates, d1, run[1..]);
  }

  /**
   * "Load more" clicked while that invalidation is left to render loses a page: the old preview's cursor happens to be
   * the new one's, the second page is answered before the first is shown, and in the end only the second is shown.
   */
  lemma EarlyClickLosesFirstPage(year: string)
    ensures var d := CalledAll(FirstRender(year), NotYetRendered(year));
            && d.lane.previewCursor == d.lane.request.cursor == Some(1) && Clear in d.queue
            && ClickedAndAnswered(d, Page(year, ["b"], None, false)).preview == Some(Preview(year, ["b"], false))
  {
    NotYetRenderedRun((l: Lane, y: string, s: string) => ["a", "b"], year);
    var d := CalledAll(FirstRender(year), NotYetRendered(year));
    var page := Page(year, ["b"], None, false);
    var answered := Called(Called(d, AskMore(Some(1))), MoreAnswer(page));
    var u0, u1, u2 := answered.queue[0], answered.queue[1], answered.queue[2];
    assert answered.queue == [u0, u1, u2];
    RenderedSplits(answered.lane, [u0, u1], u2);
    RenderedSplits(answered.lane, [u0], u1);
    RenderedSplits(answered.lane, [], u0);
    assert [u0, u1] + [u2] == answered.queue && [u0] + [u1] == [u0, u1] && [] + [u0] == [u0];
  }
}
