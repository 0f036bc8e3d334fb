/** The shown preview of an annual report is always a prefix of the server's results. */
module AnnualReportPreview {
  import opened Text
  import opened AnnualReports

  /** The server's fixed list of results for a lane, a year and a search. */
  type Catalog = (Lane, string, string) -> seq<Donor>

  /** A page is the stretch of results from the cursor; its cursor marks its end, and advances strictly. */
  ghost predicate HonestPage(catalog: Catalog, lane: Lane, request: Request, page: Page) {
    var results := catalog(lane, request.year, request.search);
    var start := request.cursor.GetOr(0);
    var end := start + |page.donors|;
    && page.year == request.year
    && end <= |results| && page.donors == results[start..end]
    && page.nextCursor == (if end == |results| then None else Some(end))
    && (page.nextCursor.Some? ==> page.donors != [])
  }

  ghost predicate Honest(catalog: Catalog, p: Panel, e: Event) {
    e.Reply? && e.token in p.ops && e.answer.PageOf? && !p.ops[e.token].work.Bulk? ==>
      HonestPage(catalog, p.ops[e.token].lane, p.ops[e.token].work.request, e.answer.page)
  }

  /**
   * A refresh that trusts its render's missing preview finds no cursor in the request. It is so whenever that
   * render is the present one; a refresh started from an older render can miss it.
   */
  ghost predicate Fresh(p: Panel, e: Event) {
    e.StartRefresh? && e.seenNull && RefreshAsks(p, e.lane, e.year, e.search, e.seenNull) ==>
      LaneOf(p, e.lane).request.cursor.None?
  }

  /** The donors shown are a prefix of the results asked for, and a cursor marks exactly its end. */
  ghost predicate Shows(results: seq<Donor>, ls: LaneState) {
    && ls.previewCursor == ls.request.cursor
    && (ls.preview.Some? ==> ls.preview.value.year == ls.request.year && ls.preview.value.donors <= results)
    && (ls.request.cursor.Some? ==>
          ls.preview.Some? && 0 < ls.request.cursor.value == |ls.preview.value.donors| < |results|)
  }

  ghost predicate LaneShows(catalog: Catalog, p: Panel, lane: Lane) {
    var ls := LaneOf(p, lane);
    Shows(catalog(lane, ls.request.year, ls.request.search), ls)
  }

  /** Refreshes and replacements ask for the first page, "more" asks for a later one. */
  ghost predicate AsksInShape(work: Work) {
    match work
    case Bulk(_) => true
    case More(request) => request.cursor.Some?
    case Single(request, replaced) => replaced ==> request.cursor.None?
    case Refresh(request) => request.cursor.None?
  }

  ghost predicate PreviewSound(catalog: Catalog, p: Panel) {
    && LaneShows(catalog, p, Certificates) && LaneShows(catalog, p, Statements)
    && forall t :: t in p.ops ==> AsksInShape(p.ops[t].work)
  }

  lemma CommitShows(catalog: Catalog, lane: Lane, ls: LaneState, request: Request, page: Page, append: bool)
    requires Shows(catalog(lane, ls.request.year, ls.request.search), ls)
    requires HonestPage(catalog, lane, request, page)
    requires append <==> request.cursor.Some?
    ensures var ls' := Committed(ls, request, page, append);
            Shows(catalog(lane, ls'.request.year, ls'.request.search), ls')
  {
    if ls.request == request {
      var results := catalog(lane, request.year, request.search);
      var start := request.cursor.GetOr(0);
      assert results[..start] + results[start..start + |page.donors|] == results[..start + |page.donors|];
      if append {
        assert ls.preview.value.donors == results[..start];
      }
    }
  }

  /** Replacing one lane by one that shows a prefix keeps the panel sound. */
  lemma LaneKeepsSound(catalog: Catalog, p: Panel, lane: Lane, ls: LaneState)
    requires PreviewSound(catalog, p)
    requires Shows(catalog(lane, ls.request.year, ls.request.search), ls)
    ensures PreviewSound(catalog, SetLane(p, lane, ls))
  {
  }

  lemma BeginKeepsSound(catalog: Catalog, p: Panel, lane: Lane, key: ClaimKey, work: Work, renderVersion: nat)
    requires PreviewSound(catalog, p) && AsksInShape(work)
    ensures PreviewSound(catalog, Begun(p, lane, key, work, renderVersion))
  {
  }

  lemma RefreshKeepsSound(catalog: Catalog, p: Panel, e: Event)
    requires PreviewSound(catalog, p) && e.StartRefresh? && Fresh(p, e)
    ensures PreviewSound(catalog, Apply(p, e))
  {
    if RefreshAsks(p, e.lane, e.year, e.search, e.seenNull) {
      LaneKeepsSound(catalog, p, e.lane, if e.seenNull then LaneOf(p, e.lane) else Replaced(LaneOf(p, e.lane)));
    }
  }

  lemma LaneIsShown(catalog: Catalog, p: Panel, lane: Lane)
    requires PreviewSound(catalog, p)
    ensures LaneShows(catalog, p, lane)
  {
    match lane { case Certificates => case Statements => }
  }

  /** Only the operations changed, and each still asks in shape. */
  lemma OpsKeepSound(catalog: Catalog, p: Panel, p': Panel)
    requires PreviewSound(catalog, p) && p'.lanes == p.lanes
    requires forall t :: t in p'.ops ==> AsksInShape(p'.ops[t].work)
    ensures PreviewSound(catalog, p')
  {
  }

  lemma CommitKeepsSound(catalog: Catalog, p: Panel, lane: Lane, request: Request, page: Page, append: bool)
    requires PreviewSound(catalog, p) && HonestPage(catalog, lane, request, page) && (append <==> request.cursor.Some?)
    ensures PreviewSound(catalog, SetLane(p, lane, Committed(LaneOf(p, lane), request, page, append)))
  {
    LaneIsShown(catalog, p, lane);
    CommitShows(catalog, lane, LaneOf(p, lane), request, page, append);
    LaneKeepsSound(catalog, p, lane, Committed(LaneOf(p, lane), request, page, append));
  }

  lemma PageAnswerKeepsSound(catalog: Catalog, p: Panel, token: nat, page: Page, append: bool)
    requires PreviewSound(catalog, p) && token in p.ops && !p.ops[token].work.Bulk?
    requires HonestPage(catalog, p.ops[token].lane, p.ops[token].work.request, page)
    requires append <==> p.ops[token].work.request.cursor.Some?
    ensures PreviewSound(catalog, PageAnswered(p, token, page, append))
  {
    var op := p.ops[token];
    CommitKeepsSound(catalog, p, op.lane, op.work.request, page, append);
    var committed := SetLane(p, op.lane, Committed(LaneOf(p, op.lane), op.work.request, page, append));
    OpsKeepSound(catalog, if CanCommit(p, token) then committed else p, PageAnswered(p, token, page, append));
  }

  lemma RefreshAnswerKeepsSound(catalog: Catalog, p: Panel, token: nat, page: Page, allowed: bool)
    requires PreviewSound(catalog, p) && token in p.ops && p.ops[token].work.Refresh?
    requires HonestPage(catalog, p.ops[token].lane, p.ops[token].work.request, page)
    ensures PreviewSound(catalog, RefreshAnswered(p, token, page, allowed))
  {
    var op := p.ops[token];
    CommitKeepsSound(catalog, p, op.lane, op.work.request, page, false);
    var committed := SetLane(p, op.lane, Committed(LaneOf(p, op.lane), op.work.request, page, false));
    OpsKeepSound(catalog, if allowed && op.renderVersion == p.version then committed else p,
                 RefreshAnswered(p, token, page, allowed));
  }

  lemma PageKeepsSound(catalog: Catalog, p: Panel, token: nat, page: Page, allowed: bool)
    requires PreviewSound(catalog, p) && Honest(catalog, p, Reply(token, PageOf(page), allowed))
    ensures PreviewSound(catalog, Replied(p, token, PageOf(page), allowed))
  {
    if token in p.ops && p.ops[token].stage == Waiting {
      var work := p.ops[token].work;
      if work.Refresh? {
        RefreshAnswerKeepsSound(catalog, p, token, page, allowed);
      } else if work.More? || (work.Single? && work.replaced) {
        PageAnswerKeepsSound(catalog, p, token, page, work.More?);
      }
    }
  }

  lemma BulkReplyKeepsSound(catalog: Catalog, p: Panel, token: nat, outcome: Outcome, advance: bool)
    requires PreviewSound(catalog, p) && token in p.ops && (advance ==> p.ops[token].work.Bulk? && outcome.Sent?)
    ensures var op := p.ops[token];
            var ls := LaneOf(p, op.lane);
            var settled := ls.(posts := Settled(ls.posts, token, outcome));
            var moved := if advance then Advanced(settled, op.work.bulk, outcome.next, outcome.hasMore) else settled;
            PreviewSound(catalog, Staged(SetLane(p, op.lane, moved), token, Answered))
  {
    var op := p.ops[token];
    var ls := LaneOf(p, op.lane);
    var settled := ls.(posts := Settled(ls.posts, token, outcome));
    var ls' := if advance then Advanced(settled, op.work.bulk, outcome.next, outcome.hasMore) else settled;
    LaneIsShown(catalog, p, op.lane);
    LaneKeepsSound(catalog, p, op.lane, ls');
    OpsKeepSound(catalog, SetLane(p, op.lane, ls'), Staged(SetLane(p, op.lane, ls'), token, Answered));
  }

  lemma SingleKeepsSound(catalog: Catalog, p: Panel, token: nat)
    requires PreviewSound(catalog, p) && token in p.ops && p.ops[token].work.Single?
    ensures PreviewSound(catalog, SingleAnswered(p, token))
  {
    if CanCommit(p, token) {
      var lane := p.ops[token].lane;
      var ls := Replaced(LaneOf(p, lane));
      LaneIsShown(catalog, p, lane);
      LaneKeepsSound(catalog, p, lane, ls);
      OpsKeepSound(catalog, SetLane(p, lane, ls), SingleAnswered(p, token));
    } else {
      OpsKeepSound(catalog, p, Staged(p, token, Answered));
    }
  }

  lemma ReplyKeepsSound(catalog: Catalog, p: Panel, token: nat, answer: Answer, allowed: bool)
    requires PreviewSound(catalog, p) && Honest(catalog, p, Reply(token, answer, allowed))
    ensures PreviewSound(catalog, Replied(p, token, answer, allowed))
  {
    if token in p.ops && p.ops[token].stage == Waiting {
      match answer {
        case Failure =>
          if p.ops[token].work.Bulk? {
            BulkReplyKeepsSound(catalog, p, token, Failed, false);
          } else {
            OpsKeepSound(catalog, p, RequestFailed(p, token));
          }
        case BulkSent(next, hasMore) =>
          if p.ops[token].work.Bulk? {
            BulkReplyKeepsSound(catalog, p, token, Sent(next, hasMore), CanCommit(p, token));
          }
        case SingleSent =>
          if p.ops[token].work.Single? && !p.ops[token].work.replaced {
            SingleKeepsSound(catalog, p, token);
          }
        case PageOf(page) => PageKeepsSound(catalog, p, token, page, allowed);
      }
    }
  }

  lemma ResetKeepsSound(catalog: Catalog, p: Panel, year: string)
    requires PreviewSound(catalog, p)
    ensures PreviewSound(catalog, ResetPanel(p, year))
  {
  }

  lemma InputKeepsSound(catalog: Catalog, p: Panel, e: Event)
    requires PreviewSound(catalog, p)
    requires e.ChangeYear? || e.ChangeSearch? || e.SearchSettles? || e.NewTraversal?
    ensures PreviewSound(catalog, Apply(p, e))
  {
    LaneIsShown(catalog, p, e.lane);
    LaneKeepsSound(catalog, p, e.lane, LaneOf(Apply(p, e), e.lane));
  }

  lemma FinishKeepsSound(catalog: Catalog, p: Panel, token: nat, expires: Option<string>)
    requires PreviewSound(catalog, p)
    ensures PreviewSound(catalog, Finished(p, token, expires))
  {
    if token !in p.ops || p.ops[token].stage != Answered {
    } else if expires.Some? && CanCommit(p, token) {
      ResetKeepsSound(catalog, p, expires.value);
      OpsKeepSound(catalog, ResetPanel(p, expires.value), Finished(p, token, expires));
    } else {
      OpsKeepSound(catalog, p, Finished(p, token, expires));
    }
  }

  lemma ReleaseKeepsSound(catalog: Catalog, p: Panel, token: nat)
    requires PreviewSound(catalog, p)
    ensures PreviewSound(catalog, Released(p, token))
  {
    if token in p.ops && p.ops[token].stage == Ended && Holds(p, token) {
      var lane := p.ops[token].lane;
      var ls := LaneOf(p, lane);
      LaneIsShown(catalog, p, lane);
      var ls' := ls.(claims := ls.claims - {p.ops[token].key.value});
      LaneKeepsSound(catalog, p, lane, ls');
      OpsKeepSound(catalog, SetLane(p, lane, ls'), Released(p, token));
    } else {
      OpsKeepSound(catalog, p, Released(p, token));
    }
  }

  lemma StepKeepsSound(catalog: Catalog, p: Panel, e: Event)
    requires PreviewSound(catalog, p) && Honest(catalog, p, e) && Fresh(p, e)
    ensures PreviewSound(catalog, Apply(p, e))
  {
    match e {
      case SendBulk(lane, renderVersion, confirmed) =>
        var bulk := NextBulk(LaneOf(p, lane).traversal);
        var key := BulkKey(bulk.generation, bulk.year, bulk.cursor);
        var begun := Begun(p, lane, key, Bulk(bulk), renderVersion);
        BeginKeepsSound(catalog, p, lane, key, Bulk(bulk), renderVersion);
        LaneIsShown(catalog, begun, lane);
        var ls := LaneOf(begun, lane);
        LaneKeepsSound(catalog, begun, lane, ls.(posts := ls.posts + [Post(p.nextToken, bulk.cursor, Open)]));
      case LoadMore(lane, renderVersion, _, seenCursor) =>
        var request := LaneOf(p, lane).request;
        if request.cursor.Some? {
          BeginKeepsSound(catalog, p, lane, PageKey(request), More(request), renderVersion);
        }
      case SendSingle(lane, renderVersion, _, _, _) =>
        var request := LaneOf(p, lane).request;
        BeginKeepsSound(catalog, p, lane, SingleKey(request.generation, request.year), Single(request, false),
                        renderVersion);
      case StartRefresh(_, _, _, _, _) => RefreshKeepsSound(catalog, p, e);
      case Reply(token, answer, allowed) => ReplyKeepsSound(catalog, p, token, answer, allowed);
      case Finish(token, expires) => FinishKeepsSound(catalog, p, token, expires);
      case Release(token) => ReleaseKeepsSound(catalog, p, token);
      case Reset(year) => ResetKeepsSound(catalog, p, year);
      case _ => InputKeepsSound(catalog, p, e);
    }
  }

  ghost predicate HonestFreshRun(catalog: Catalog, p: Panel, events: seq<Event>)
    decreases |events|
  {
    events != [] ==>
      Honest(catalog, p, events[0]) && Fresh(p, events[0]) && HonestFreshRun(catalog, Apply(p, events[0]), events[1..])
  }

  lemma {:induction false} RunKeepsSound(catalog: Catalog, p: Panel, events: seq<Event>)
    requires PreviewSound(catalog, p) && HonestFreshRun(catalog, p, events)
    ensures PreviewSound(catalog, RunFrom(p, events))
    decreases |events|
  {
    if events != [] {
      StepKeepsSound(catalog, p, events[0]);
      RunKeepsSound(catalog, Apply(p, events[0]), events[1..]);
    }
  }

  /**
   * Over every run, in whatever order requests answer, fail, are superseded or repeated: the donors shown are a
   * prefix of the results for the year and search now asked for, a cursor marks exactly the prefix's end, and
   * with no preview there is no cursor.
   */
  lemma ShownPreviewIsPrefix(catalog: Catalog, year: string, events: seq<Event>, lane: Lane)
    requires HonestFreshRun(catalog, Initial(year), events)
    ensures var ls := LaneOf(RunFrom(Initial(year), events), lane);
            var results := catalog(lane, ls.request.year, ls.request.search);
            && (ls.preview.Some? ==> ls.preview.value.donors <= results)
            && (ls.previewCursor.Some? ==>
                  ls.preview.Some? && ls.previewCursor.value == |ls.preview.value.donors| < |results|)
            && (ls.preview.None? ==> ls.previewCursor.None? && ls.request.cursor.None?)
  {
    RunKeepsSound(catalog, Initial(year), events);
    LaneIsShown(catalog, RunFrom(Initial(year), events), lane);
  }

  /**
   * Freshness is exactly what keeps the prefix: from a sound panel, let a refresh start and its first answer be
   * committed at once. With results that are all different, the lane still shows a prefix if and only if the
   * refresh was fresh; a stale one asks for a later page and shows it as if it were the first.
   */
  lemma RefreshKeepsPrefixIffFresh(catalog: Catalog, p: Panel, e: Event, page: Page)
    requires PreviewSound(catalog, p) && p.nextToken !in p.ops
    requires e.StartRefresh? && RefreshAsks(p, e.lane, e.year, e.search, e.seenNull) && e.renderVersion >= p.version
    requires forall i, j :: 0 <= i < j < |catalog(e.lane, e.year, e.search)| ==>
               catalog(e.lane, e.year, e.search)[i] != catalog(e.lane, e.year, e.search)[j]
    requires page.donors != [] && HonestPage(catalog, e.lane, Apply(p, e).ops[p.nextToken].work.request, page)
    ensures var ls := LaneOf(Apply(Apply(p, e), Reply(p.nextToken, PageOf(page), true)), e.lane);
            ls.preview.Some? && (ls.preview.value.donors <= catalog(e.lane, ls.request.year, ls.request.search)
                                 <==> Fresh(p, e))
  {
    var p1 := Apply(p, e);
    var request := p1.ops[p.nextToken].work.request;
    LaneIsShown(catalog, p, e.lane);
    assert LaneOf(p1, e.lane).request == request;
    var ls := LaneOf(Apply(p1, Reply(p.nextToken, PageOf(page), true)), e.lane);
    assert ls == Committed(LaneOf(p1, e.lane), request, page, false);
    var results := catalog(e.lane, e.year, e.search);
    var start := request.cursor.GetOr(0);
    assert page.donors[0] == results[start];
  }
}
