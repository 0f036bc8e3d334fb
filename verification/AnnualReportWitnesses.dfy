/** Runs, from the first render on, in which the annual reports fall short of what they promise. */
module AnnualReportWitnesses {
  import opened Text
  import opened AnnualReports
  import opened AnnualReportPreview
  import opened AnnualReportAnswers
  import opened AnnualReportSingles

  /** Two donors, for whatever is asked. */
  const TWO_DONORS: Catalog := (lane: Lane, year: string, search: string) => ["a", "b"]

  function FirstPage(year: string): Page {
    Page(year, ["a"], Some(1), true)
  }

  function LastPage(year: string): Page {
    Page(year, ["b"], None, false)
  }

  /** The opening of both runs: the automatic refresh shows the first of two donors. */
  function Opening(year: string): seq<Event> {
    [StartRefresh(Certificates, 0, year, "", true), Reply(0, PageOf(FirstPage(year)), true)]
  }

  lemma OpeningShowsFirstPage(year: string)
    ensures HonestFreshRun(TWO_DONORS, Initial(year), Opening(year))
    ensures var p := RunFrom(Initial(year), Opening(year));
            && p == Initial(year).(lanes := p.lanes, nextToken := 1)
            && p.lanes.certificates == InitialLane(year).(request := Request(0, year, "", Some(1)),
                                                          preview := Some(Preview(year, ["a"], true)),
                                                          previewCursor := Some(1))
  {
    var p0 := Initial(year);
    var e1, e2 := Opening(year)[0], Opening(year)[1];
    var p1 := Apply(p0, e1);
    var p2 := Apply(p1, e2);
    assert Opening(year)[1..] == [e2] && [e2][1..] == [];
    assert RunFrom(p1, [e2]) == RunFrom(p2, []) == p2;
    assert p2.ops == map[];
  }

  lemma {:induction false} HonestRunSplits(catalog: Catalog, p: Panel, events: seq<Event>, e: Event)
    ensures RunFrom(p, events + [e]) == Apply(RunFrom(p, events), e)
    ensures HonestFreshRun(catalog, p, events + [e]) <==>
            HonestFreshRun(catalog, p, events) && Honest(catalog, RunFrom(p, events), e) && Fresh(RunFrom(p, events), e)
    decreases |events|
  {
    if events != [] {
      assert (events + [e])[1..] == events[1..] + [e];
      HonestRunSplits(catalog, Apply(p, events[0]), events[1..], e);
    } else {
      assert (events + [e])[1..] == [];
    }
  }

  /**
   * With a preview on screen an automatic refresh starts, as after a change of the export dates; a donor's certificate
   * is sent before the refresh answers, and the refresh answers first. Account, year, search and generation are the
   * same throughout, and yet the certificate's own answer is dropped, without a notice and without a new preview.
   */
  lemma SingleAnswerCanBeLost(year: string) returns (events: seq<Event>)
    ensures HonestFreshRun(TWO_DONORS, Initial(year), events)
    ensures var p := RunFrom(Initial(year), events);
            && Waits(p, 2) && SameAccount(p, p.ops[2]) && SameGeneration(p, p.ops[2])
            && p.ops[2].work.request.(cursor := Some(1)) == LaneOf(p, Certificates).request
            && !CanCommit(p, 2)
            && Apply(p, Reply(2, SingleSent, true)).lanes == p.lanes
            && !Waits(Apply(p, Reply(2, SingleSent, true)), 2)
  {
    OpeningShowsFirstPage(year);
    var e3 := StartRefresh(Certificates, 0, year, "", false);
    var e4 := SendSingle(Certificates, 0, Some(year), true, true);
    var e5 := Reply(1, PageOf(FirstPage(year)), true);
    HonestRunSplits(TWO_DONORS, Initial(year), Opening(year), e3);
    HonestRunSplits(TWO_DONORS, Initial(year), Opening(year) + [e3], e4);
    HonestRunSplits(TWO_DONORS, Initial(year), Opening(year) + [e3] + [e4], e5);
    events := Opening(year) + [e3] + [e4] + [e5];
  }

  /**
   * An automatic refresh commits this lane's first page and then fails on the other lane's, and its retry runs the same
   * callback, whose render saw no preview: it asks from the cursor in the request and shows the last page as if it were
   * the first.
   */
  lemma BlindRefreshLosesFirstPage(year: string) returns (events: seq<Event>)
    ensures var p := RunFrom(Initial(year), events);
            LaneOf(p, Certificates).preview == Some(Preview(year, ["b"], false))
    ensures !(["b"] <= TWO_DONORS(Certificates, year, ""))
    ensures events == Opening(year) + [StartRefresh(Certificates, 0, year, "", true)]
                      + [Reply(1, PageOf(LastPage(year)), true)]
    ensures Honest(TWO_DONORS, RunFrom(Initial(year), events[..3]), events[3])
  {
    OpeningShowsFirstPage(year);
    var e3 := StartRefresh(Certificates, 0, year, "", true);
    var e4 := Reply(1, PageOf(LastPage(year)), true);
    HonestRunSplits(TWO_DONORS, Initial(year), Opening(year), e3);
    HonestRunSplits(TWO_DONORS, Initial(year), Opening(year) + [e3], e4);
    events := Opening(year) + [e3] + [e4];
    assert ["b"][0] != TWO_DONORS(Certificates, year, "")[0];
    assert events[..3] == Opening(year) + [e3] && events[3] == e4;
  }
}
