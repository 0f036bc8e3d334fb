/** Bulk sending goes through the year once: each batch is posted after the one before it and never again. */
module AnnualReportBulk {
  import opened Text
  import opened AnnualReports
  import opened AnnualReportClaims

  // ----- The posts of one traversal -----

  /** Where the traversal stands: the answer to the latest post that was sent. */
  function Progress(posts: seq<Post>): Option<(Cursor, bool)> {
    if posts == [] then None
    else
      var last := posts[|posts| - 1];
      if last.outcome.Sent? then Some((last.outcome.next, last.outcome.hasMore)) else Progress(posts[..|posts| - 1])
  }

  /** Each post waits for the one before it and asks for exactly the batch where the traversal stands. */
  ghost predicate InOrder(posts: seq<Post>) {
    posts != [] ==>
      var earlier, last := posts[..|posts| - 1], posts[|posts| - 1];
      && InOrder(earlier)
      && (earlier != [] ==> !earlier[|earlier| - 1].outcome.Open?)
      && var at := Progress(earlier);
      && (at.None? ==> last.cursor.None?)
      && (at.Some? ==> at.value.1 && at.value.0.Some? && last.cursor == at.value.0)
  }

  ghost predicate Advances(post: Post) {
    post.outcome.Sent? && post.outcome.next.Some? ==> post.outcome.next.value > post.cursor.GetOr(0)
  }

  ghost predicate AllAdvance(posts: seq<Post>) {
    forall i :: 0 <= i < |posts| ==> Advances(posts[i])
  }

  lemma {:induction false} ProgressOfFailures(posts: seq<Post>)
    requires InOrder(posts) && posts != []
    ensures var last := posts[|posts| - 1];
            Progress(posts) == if last.outcome.Sent? then Some((last.outcome.next, last.outcome.hasMore))
                               else if last.cursor.None? then None else Some((last.cursor, true))
  {
    var earlier, last := posts[..|posts| - 1], posts[|posts| - 1];
    if earlier != [] {
      ProgressOfFailures(earlier);
    }
  }

  /** One post after another: a sent batch is followed by the next one, a failed batch by itself. */
  lemma NextPost(posts: seq<Post>, k: nat)
    requires k + 1 < |posts| && InOrder(posts)
    ensures InOrder(posts[..k + 2])
    ensures !posts[k].outcome.Open?
    ensures posts[k].outcome.Sent? ==>
              posts[k].outcome.hasMore && posts[k].outcome.next.Some? && posts[k + 1].cursor == posts[k].outcome.next
    ensures posts[k].outcome.Failed? ==> posts[k + 1].cursor == posts[k].cursor
  {
    OrderOfPrefix(posts, k + 2);
    var upTo := posts[..k + 2];
    assert upTo[..k + 1] == posts[..k + 1];
    ProgressOfFailures(posts[..k + 1]);
  }

  lemma {:induction false} OrderOfPrefix(posts: seq<Post>, n: nat)
    requires n <= |posts| && InOrder(posts)
    ensures InOrder(posts[..n])
    decreases |posts|
  {
    if n == |posts| {
      assert posts[..n] == posts;
    } else {
      OrderOfPrefix(posts[..|posts| - 1], n);
      assert posts[..|posts| - 1][..n] == posts[..n];
    }
  }

  /**
   * Within one traversal: the first post asks for the first batch; cursors never go back; a cursor is posted
   * again only if every post of it so far failed; and nothing is posted after the last batch was sent.
   */
  lemma {:induction false} PostsGoThroughOnce(posts: seq<Post>, i: nat, j: nat)
    requires i < j < |posts| && InOrder(posts) && AllAdvance(posts)
    ensures posts[0].cursor == None
    ensures posts[i].cursor.GetOr(0) <= posts[j].cursor.GetOr(0)
    ensures posts[i].cursor == posts[j].cursor <==> posts[i].cursor.GetOr(0) == posts[j].cursor.GetOr(0)
    ensures posts[i].cursor == posts[j].cursor <==> forall k :: i <= k < j ==> posts[k].outcome.Failed?
    ensures posts[i].outcome.Sent? ==> posts[i].outcome.hasMore && posts[i].outcome.next.Some?
    decreases j - i
  {
    FirstPost(posts);
    NextPost(posts, i);
    assert Advances(posts[i]);
    if posts[i].outcome.Sent? {
      assert posts[i + 1].cursor.GetOr(0) > posts[i].cursor.GetOr(0);
    }
    if i + 1 < j {
      PostsGoThroughOnce(posts, i + 1, j);
    }
    assert (forall k :: i <= k < j ==> posts[k].outcome.Failed?) <==>
           posts[i].outcome.Failed? && (forall k :: i + 1 <= k < j ==> posts[k].outcome.Failed?);
    CursorZero(posts, i);
    CursorZero(posts, j);
  }

  lemma FirstPost(posts: seq<Post>)
    requires posts != [] && InOrder(posts)
    ensures posts[0].cursor == None
  {
    OrderOfPrefix(posts, 1);
    assert posts[..1][..0] == [];
  }

  /** A cursor is at position 0 only when there is none. */
  lemma {:induction false} CursorZero(posts: seq<Post>, i: nat)
    requires i < |posts| && InOrder(posts) && AllAdvance(posts)
    ensures posts[i].cursor.Some? ==> posts[i].cursor.value > 0
  {
    FirstPost(posts);
    if i > 0 {
      NextPost(posts, i - 1);
      assert Advances(posts[i - 1]);
      CursorZero(posts, i - 1);
    }
  }

  // ----- The panel keeps them so -----

  ghost predicate TraversalMatches(ls: LaneState) {
    var at := Progress(ls.posts);
    && ls.traversal.started == at.Some?
    && (at.Some? ==> ls.traversal.cursor == at.value.0 && ls.traversal.hasMore == at.value.1)
  }

  /** A bulk operation whose answer is still wanted. */
  ghost predicate Wanted(p: Panel, lane: Lane, token: nat) {
    && token in p.ops && p.ops[token].lane == lane && p.ops[token].work.Bulk? && p.ops[token].key.Some?
    && p.ops[token].stage == Waiting && p.ops[token].renderVersion == p.version
    && p.ops[token].work.bulk.generation == LaneOf(p, lane).traversal.generation
  }

  /** The open post, if any, is the last one, and belongs to the one bulk operation whose answer is wanted. */
  ghost predicate OpenPostIsWanted(p: Panel, lane: Lane) {
    var ls := LaneOf(p, lane);
    && (ls.posts != [] ==>
          var last := ls.posts[|ls.posts| - 1];
          && last.token < p.nextToken
          && (last.token in p.ops && p.ops[last.token].stage == Waiting ==> last.outcome.Open?)
          && (last.outcome.Open? <==> Wanted(p, lane, last.token))
          && (last.outcome.Open? ==> p.ops[last.token].work.bulk == NextBulk(ls.traversal)
                                     && last.cursor == p.ops[last.token].work.bulk.cursor))
    && (forall t :: Wanted(p, lane, t) ==> ls.posts != [] && ls.posts[|ls.posts| - 1].token == t)
    && (forall t ::
          t in p.ops && p.ops[t].lane == lane && p.ops[t].work.Bulk? && p.ops[t].renderVersion == p.version ==>
          p.ops[t].work.bulk.generation <= ls.traversal.generation)
  }

  ghost predicate BulkLaneSound(p: Panel, lane: Lane) {
    var ls := LaneOf(p, lane);
    InOrder(ls.posts) && AllAdvance(ls.posts) && TraversalMatches(ls) && OpenPostIsWanted(p, lane)
  }

  /** The server's bulk cursors advance strictly. */
  ghost predicate BulkHonest(p: Panel, e: Event) {
    e.Reply? && e.token in p.ops && p.ops[e.token].work.Bulk? && e.answer.BulkSent? && e.answer.next.Some? ==>
      e.answer.next.value > p.ops[e.token].work.bulk.cursor.GetOr(0)
  }

  lemma NoOpenPostWhenClaimable(p: Panel, lane: Lane, key: ClaimKey)
    requires Exclusive(p) && BulkLaneSound(p, lane) && Claimable(p, lane, key)
    ensures forall t :: !Wanted(p, lane, t)
    ensures LaneOf(p, lane).posts != [] ==> !LaneOf(p, lane).posts[|LaneOf(p, lane).posts| - 1].outcome.Open?
  {
    forall t | t in p.ops && p.ops[t].key.Some? && p.ops[t].renderVersion == p.version
      ensures (p.ops[t].lane, p.ops[t].key.value) in p.shared
    {
    }
  }

  lemma PostKeepsOrder(ls: LaneState, token: nat)
    requires InOrder(ls.posts) && AllAdvance(ls.posts) && TraversalMatches(ls) && !TraversalOver(ls.traversal)
    requires ls.posts != [] ==> !ls.posts[|ls.posts| - 1].outcome.Open?
    ensures var ls' := ls.(posts := ls.posts + [Post(token, NextBulk(ls.traversal).cursor, Open)]);
            InOrder(ls'.posts) && AllAdvance(ls'.posts) && TraversalMatches(ls')
  {
    var posts := ls.posts + [Post(token, NextBulk(ls.traversal).cursor, Open)];
    assert posts[..|posts| - 1] == ls.posts;
  }

  lemma SettleKeepsOrder(ls: LaneState, outcome: Outcome)
    requires InOrder(ls.posts) && AllAdvance(ls.posts) && TraversalMatches(ls) && ls.posts != [] && !outcome.Open?
    requires var last := ls.posts[|ls.posts| - 1]; last.outcome.Open? && Advances(last.(outcome := outcome))
    ensures var last := ls.posts[|ls.posts| - 1];
            var ls' := ls.(posts := Settled(ls.posts, last.token, outcome));
            && ls'.posts[|ls'.posts| - 1] == last.(outcome := outcome)
            && |ls'.posts| == |ls.posts|
            && InOrder(ls'.posts) && AllAdvance(ls'.posts)
            && (outcome.Failed? ==> TraversalMatches(ls'))
            && (outcome.Sent? ==> Progress(ls'.posts) == Some((outcome.next, outcome.hasMore)))
  {
    var posts := Settled(ls.posts, ls.posts[|ls.posts| - 1].token, outcome);
    assert posts[..|posts| - 1] == ls.posts[..|ls.posts| - 1];
  }

  /** Nothing that matters to the traversal changed: the lane's posts and traversal, and its bulk operations. */
  ghost predicate BulkUntouched(p: Panel, p': Panel, lane: Lane) {
    && p'.version == p.version && p'.nextToken >= p.nextToken
    && LaneOf(p', lane).posts == LaneOf(p, lane).posts && LaneOf(p', lane).traversal == LaneOf(p, lane).traversal
    && (forall t :: Wanted(p', lane, t) <==> Wanted(p, lane, t))
    && (forall t :: t in p'.ops ==> SameOperation(p, p', t) || NotWantedYet(p, p', lane, t))
  }

  ghost predicate SameOperation(p: Panel, p': Panel, t: nat)
    requires t in p'.ops
  {
    && t in p.ops && p'.ops[t].lane == p.ops[t].lane && p'.ops[t].renderVersion == p.ops[t].renderVersion
    && (p'.ops[t].work.Bulk? ==> p'.ops[t].work == p.ops[t].work)
    && (p'.ops[t].stage == Waiting ==> p.ops[t].stage == Waiting)
  }

  ghost predicate NotWantedYet(p: Panel, p': Panel, lane: Lane, t: nat)
    requires t in p'.ops
  {
    && t >= p.nextToken
    && (p'.ops[t].work.Bulk? && p'.ops[t].lane == lane ==>
          p'.ops[t].work.bulk.generation <= LaneOf(p, lane).traversal.generation)
  }

  lemma UntouchedKeepsBulk(p: Panel, p': Panel, lane: Lane)
    requires BulkLaneSound(p, lane) && BulkUntouched(p, p', lane)
    ensures BulkLaneSound(p', lane)
  {
    var ls := LaneOf(p, lane);
    if ls.posts != [] && ls.posts[|ls.posts| - 1].outcome.Open? {
      assert Wanted(p, lane, ls.posts[|ls.posts| - 1].token);
    }
  }

  lemma BulkClickKeeps(p: Panel, lane: Lane, renderVersion: nat, confirmed: bool, other: Lane)
    requires Exclusive(p) && BulkLaneSound(p, other) && BulkLaneSound(p, lane)
    ensures BulkLaneSound(BulkClicked(p, lane, renderVersion, confirmed), other)
  {
    var bulk := NextBulk(LaneOf(p, lane).traversal);
    var p' := BulkClicked(p, lane, renderVersion, confirmed);
    if p' != p {
      NoOpenPostWhenClaimable(p, lane, BulkKey(bulk.generation, bulk.year, bulk.cursor));
      if other != lane || renderVersion < p.version {
        ClickLeavesBulk(p, lane, renderVersion, confirmed, other);
        UntouchedKeepsBulk(p, p', other);
      } else {
        PostedKeeps(p, p', lane);
      }
    }
  }

  lemma ClickLeavesBulk(p: Panel, lane: Lane, renderVersion: nat, confirmed: bool, other: Lane)
    requires TokensUsed(p) && (other != lane || renderVersion < p.version)
    ensures BulkUntouched(p, BulkClicked(p, lane, renderVersion, confirmed), other)
  {
  }

  lemma PostedKeeps(p: Panel, p': Panel, lane: Lane)
    requires Exclusive(p) && BulkLaneSound(p, lane) && !TraversalOver(LaneOf(p, lane).traversal)
    requires forall t :: !Wanted(p, lane, t)
    requires LaneOf(p, lane).posts != [] ==> !LaneOf(p, lane).posts[|LaneOf(p, lane).posts| - 1].outcome.Open?
    requires var bulk := NextBulk(LaneOf(p, lane).traversal);
             && p'.version == p.version && p'.nextToken == p.nextToken + 1
             && LaneOf(p', lane).traversal == LaneOf(p, lane).traversal
             && LaneOf(p', lane).posts == LaneOf(p, lane).posts + [Post(p.nextToken, bulk.cursor, Open)]
             && exists key :: p'.ops == p.ops[p.nextToken := Operation(lane, Bulk(bulk), Some(key), p.version, Waiting)]
    ensures BulkLaneSound(p', lane)
  {
    PostKeepsOrder(LaneOf(p, lane), p.nextToken);
    forall t | t != p.nextToken ensures !Wanted(p', lane, t) {
      assert !Wanted(p, lane, t);
    }
  }

  lemma BulkAnswerKeeps(p: Panel, token: nat, outcome: Outcome, lane: Lane)
    requires Exclusive(p) && BulkLaneSound(p, lane)
    requires token in p.ops && p.ops[token].work.Bulk? && p.ops[token].stage == Waiting && !outcome.Open?
    requires outcome.Sent? && outcome.next.Some? ==> outcome.next.value > p.ops[token].work.bulk.cursor.GetOr(0)
    ensures BulkLaneSound(if outcome.Sent? then BulkAnswered(p, token, outcome.next, outcome.hasMore)
                          else RequestFailed(p, token), lane)
  {
    var p' := if outcome.Sent? then BulkAnswered(p, token, outcome.next, outcome.hasMore) else RequestFailed(p, token);
    var ls := LaneOf(p, lane);
    if Wanted(p, lane, token) {
      assert (lane, p.ops[token].key.value) in p.shared;
      SettleKeepsOrder(ls, outcome);
      assert CanCommit(p, token);
      forall t ensures !Wanted(p', lane, t) {
        assert t != token ==> !Wanted(p, lane, t);
      }
    } else {
      UnwantedAnswer(p, token, outcome, lane);
      UntouchedKeepsBulk(p, p', lane);
    }
  }

  lemma UnwantedAnswer(p: Panel, token: nat, outcome: Outcome, lane: Lane)
    requires Exclusive(p) && BulkLaneSound(p, lane) && !Wanted(p, lane, token)
    requires token in p.ops && p.ops[token].work.Bulk? && p.ops[token].stage == Waiting && !outcome.Open?
    ensures BulkUntouched(p, if outcome.Sent? then BulkAnswered(p, token, outcome.next, outcome.hasMore)
                             else RequestFailed(p, token), lane)
  {
    var ls := LaneOf(p, lane);
    if p.ops[token].lane == lane {
      assert p.ops[token].key.Some?;
      assert !CanCommit(p, token);
      assert Settled(ls.posts, token, outcome) == ls.posts;
      StagingLeavesBulk(p, lane, ls, token, lane);
    } else {
      var own := LaneOf(p, p.ops[token].lane);
      var settled := own.(posts := Settled(own.posts, token, outcome));
      StagingLeavesBulk(p, p.ops[token].lane, settled, token, lane);
      if outcome.Sent? {
        StagingLeavesBulk(p, p.ops[token].lane,
                          Advanced(settled, p.ops[token].work.bulk, outcome.next, outcome.hasMore), token, lane);
      }
    }
  }

  /** Answering an operation nobody waits for in this lane, with this lane's posts and traversal unchanged. */
  lemma StagingLeavesBulk(p: Panel, changed: Lane, ls: LaneState, token: nat, lane: Lane)
    requires token in p.ops && !Wanted(p, lane, token)
    requires changed == lane ==> ls.posts == LaneOf(p, lane).posts && ls.traversal == LaneOf(p, lane).traversal
    ensures BulkUntouched(p, Staged(SetLane(p, changed, ls), token, Answered), lane)
    ensures BulkUntouched(p, Staged(p, token, Answered), lane)
  {
  }

  // ----- Every other step -----

  lemma BeginLeavesBulk(p: Panel, own: Lane, key: ClaimKey, work: Work, renderVersion: nat, lane: Lane)
    requires TokensUsed(p) && !work.Bulk?
    ensures BulkUntouched(p, Begun(p, own, key, work, renderVersion), lane)
  {
  }

  lemma PageReplyLeavesBulk(p: Panel, token: nat, answer: Answer, allowed: bool, lane: Lane)
    requires TokensUsed(p) && token in p.ops && !p.ops[token].work.Bulk? && p.ops[token].stage == Waiting
    ensures BulkUntouched(p, Replied(p, token, answer, allowed), lane)
  {
    var op := p.ops[token];
    var ls := LaneOf(p, op.lane);
    match answer {
      case Failure => if !op.work.Refresh? { StagingLeavesBulk(p, op.lane, ls, token, lane); }
      case PageOf(page) =>
        if !op.work.Refresh? {
          StagingLeavesBulk(p, op.lane, Committed(ls, op.work.request, page, op.work.More?), token, lane);
        }
      case SingleSent => if op.work.Single? && !op.work.replaced { SingleLeavesBulk(p, token, lane); }
      case BulkSent(_, _) =>
    }
  }

  lemma SingleLeavesBulk(p: Panel, token: nat, lane: Lane)
    requires TokensUsed(p) && token in p.ops && p.ops[token].work.Single? && p.ops[token].stage == Waiting
    ensures BulkUntouched(p, SingleAnswered(p, token), lane)
  {
  }

  lemma RefreshLeavesBulk(p: Panel, e: Event, lane: Lane)
    requires TokensUsed(p) && e.StartRefresh?
    ensures BulkUntouched(p, Apply(p, e), lane)
  {
  }

  lemma RestartKeepsBulk(p: Panel, changed: Lane, ls: LaneState, lane: Lane)
    requires Exclusive(p) && BulkLaneSound(p, lane)
    requires ls.posts == [] && !ls.traversal.started
    requires ls.traversal.generation == LaneOf(p, changed).traversal.generation + 1
    ensures BulkLaneSound(SetLane(p, changed, ls), lane)
  {
    if changed != lane {
      UntouchedKeepsBulk(p, SetLane(p, changed, ls), lane);
    }
  }

  lemma InputKeepsBulk(p: Panel, e: Event, lane: Lane)
    requires Exclusive(p) && BulkLaneSound(p, lane)
    requires e.ChangeYear? || e.ChangeSearch? || e.SearchSettles? || e.NewTraversal?
    ensures BulkLaneSound(Apply(p, e), lane)
  {
    if e.ChangeYear? || e.NewTraversal? {
      RestartKeepsBulk(p, e.lane, LaneOf(Apply(p, e), e.lane), lane);
    } else {
      UntouchedKeepsBulk(p, Apply(p, e), lane);
    }
  }

  lemma ResetKeepsBulk(p: Panel, year: string, lane: Lane)
    requires Exclusive(p)
    ensures BulkLaneSound(ResetPanel(p, year), lane)
  {
  }

  lemma EndLeavesBulk(p: Panel, token: nat, lane: Lane)
    requires token in p.ops && p.ops[token].stage != Waiting
    ensures BulkUntouched(p, Staged(p, token, Ended), lane)
    ensures BulkUntouched(p, Staged(p.(owner := None), token, Ended), lane)
  {
  }

  lemma FinishKeepsBulk(p: Panel, token: nat, expires: Option<string>, lane: Lane)
    requires Exclusive(p) && BulkLaneSound(p, lane)
    ensures BulkLaneSound(Finished(p, token, expires), lane)
  {
    if token in p.ops && p.ops[token].stage == Answered {
      if expires.Some? && CanCommit(p, token) {
        var reset := ResetPanel(p, expires.value);
        ResetKeepsBulk(p, expires.value, lane);
        EndLeavesBulk(reset, token, lane);
        UntouchedKeepsBulk(reset, Staged(reset, token, Ended), lane);
      } else {
        EndLeavesBulk(p, token, lane);
        UntouchedKeepsBulk(p, Finished(p, token, expires), lane);
      }
    }
  }

  lemma ReleaseLeavesBulk(p: Panel, token: nat, lane: Lane)
    ensures BulkUntouched(p, Released(p, token), lane)
  {
  }

  lemma StepKeepsBulk(p: Panel, e: Event, lane: Lane)
    requires Exclusive(p) && BulkHonest(p, e)
    requires BulkLaneSound(p, Certificates) && BulkLaneSound(p, Statements)
    ensures BulkLaneSound(Apply(p, e), lane)
  {
    match e {
      case SendBulk(own, renderVersion, confirmed) => BulkClickKeeps(p, own, renderVersion, confirmed, lane);
      case LoadMore(own, renderVersion, _, _) =>
        var request := LaneOf(p, own).request;
        BeginLeavesBulk(p, own, PageKey(request), More(request), renderVersion, lane);
        UntouchedKeepsBulk(p, Begun(p, own, PageKey(request), More(request), renderVersion), lane);
      case SendSingle(own, renderVersion, _, _, _) =>
        var request := LaneOf(p, own).request;
        var key := SingleKey(request.generation, request.year);
        BeginLeavesBulk(p, own, key, Single(request, false), renderVersion, lane);
        UntouchedKeepsBulk(p, Begun(p, own, key, Single(request, false), renderVersion), lane);
      case StartRefresh(_, _, _, _, _) =>
        RefreshLeavesBulk(p, e, lane);
        UntouchedKeepsBulk(p, Apply(p, e), lane);
      case Reply(token, answer, allowed) => ReplyKeepsBulk(p, token, answer, allowed, lane);
      case Finish(token, expires) => FinishKeepsBulk(p, token, expires, lane);
      case Release(token) =>
        ReleaseLeavesBulk(p, token, lane);
        UntouchedKeepsBulk(p, Released(p, token), lane);
      case Reset(year) => ResetKeepsBulk(p, year, lane);
      case _ => InputKeepsBulk(p, e, lane);
    }
  }

  lemma ReplyKeepsBulk(p: Panel, token: nat, answer: Answer, allowed: bool, lane: Lane)
    requires Exclusive(p) && BulkLaneSound(p, lane) && BulkHonest(p, Reply(token, answer, allowed))
    ensures BulkLaneSound(Replied(p, token, answer, allowed), lane)
  {
    if token in p.ops && p.ops[token].stage == Waiting {
      if !p.ops[token].work.Bulk? {
        PageReplyLeavesBulk(p, token, answer, allowed, lane);
        UntouchedKeepsBulk(p, Replied(p, token, answer, allowed), lane);
      } else if answer.BulkSent? {
        BulkAnswerKeeps(p, token, Sent(answer.next, answer.hasMore), lane);
      } else if answer.Failure? {
        BulkAnswerKeeps(p, token, Failed, lane);
      }
    }
  }

  ghost predicate BulkHonestRun(p: Panel, events: seq<Event>)
    decreases |events|
  {
    events != [] ==> BulkHonest(p, events[0]) && BulkHonestRun(Apply(p, events[0]), events[1..])
  }

  lemma {:induction false} RunKeepsBulk(p: Panel, events: seq<Event>, lane: Lane)
    requires Exclusive(p) && BulkHonestRun(p, events)
    requires BulkLaneSound(p, Certificates) && BulkLaneSound(p, Statements)
    ensures BulkLaneSound(RunFrom(p, events), lane)
    decreases |events|
  {
    if events != [] {
      StepKeepsExclusive(p, events[0]);
      StepKeepsBulk(p, events[0], Certificates);
      StepKeepsBulk(p, events[0], Statements);
      RunKeepsBulk(Apply(p, events[0]), events[1..], lane);
    }
  }

  /**
   * Over every run, within one traversal of a lane: posts ask for the first batch, then for each next batch in
   * turn; a batch is posted again only after its posts failed; nothing follows the last batch; and the shown
   * traversal state is the answer to the latest batch sent.
   */
  lemma BulkGoesThroughOnce(year: string, events: seq<Event>, lane: Lane, i: nat, j: nat)
    requires BulkHonestRun(Initial(year), events)
    requires i < j < |LaneOf(RunFrom(Initial(year), events), lane).posts|
    ensures var ls := LaneOf(RunFrom(Initial(year), events), lane);
            && TraversalMatches(ls)
            && ls.posts[0].cursor == None
            && !ls.posts[i].outcome.Open?
            && (ls.posts[i].outcome.Sent? ==>
                  ls.posts[i].outcome.hasMore && ls.posts[i + 1].cursor == ls.posts[i].outcome.next != None)
            && (ls.posts[i].cursor == ls.posts[j].cursor <==> forall k :: i <= k < j ==> ls.posts[k].outcome.Failed?)
            && ls.posts[i].cursor.GetOr(0) <= ls.posts[j].cursor.GetOr(0)
  {
    RunKeepsBulk(Initial(year), events, lane);
    var ls := LaneOf(RunFrom(Initial(year), events), lane);
    NextPost(ls.posts, i);
    PostsGoThroughOnce(ls.posts, i, j);
  }

  /** A bulk answer commits if and only if neither the account nor the traversal changed since its post. */
  lemma BulkAnswerCommitsIffTraversalUnchanged(p: Panel, token: nat, lane: Lane)
    requires Exclusive(p) && BulkLaneSound(p, lane)
    requires token in p.ops && p.ops[token].work.Bulk? && p.ops[token].lane == lane && p.ops[token].stage == Waiting
    ensures CanCommit(p, token) <==>
            p.ops[token].renderVersion == p.version
            && p.ops[token].work.bulk.generation == LaneOf(p, lane).traversal.generation
  {
    AnswerCommitsIffCurrent(p, token);
    if Wanted(p, lane, token) {
      assert LaneOf(p, lane).posts[|LaneOf(p, lane).posts| - 1].token == token;
    }
  }
}
