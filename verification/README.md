# DiezmosSV client: a verified model

The browser client of DiezmosSV administers and takes donations. This project models the parts of it whose
correctness spans many calls and proves what they promise: the ownership machinery that decides which answers of
concurrent requests may still write, the merges that keep an owner's unsaved text while reads race saves, a few
algorithms with real bounds, and the donor wizard's bookkeeping.

`dafny verify dfyconfig.toml` checks everything.

## How it is built

State that the client changes in place is a class whose methods follow the source's handlers (`ActionRunner`,
`AnnualReportPanel`, `AutomaticRefresher`, `StripeSettingsPanel`, `DonarWizard`, `AccountState`,
`LatestRequestGate`); the loops over fields, types and ticks are methods with loops. Each is proved to do exactly what
a step function on values does, and the theorems over whole runs are lemmas about those step functions: a run is a
sequence of events in any order, with answers arriving late, failing, or never. `Valid()`, in all classes but
the two counters of `AccountState` and `LatestRequestGate`, is an invariant that those lemmas prove of every step, so
every handler keeps it.

| module | what it models |
|---|---|
| `AccountState`, `LatestRequestGate` | the account version fence and the latest-request gate |
| `ActionBooks`, `ActionRunner` | which action owns which domain, and the busy books |
| `AnnualReports`, `AnnualReportClaims`, `AnnualReportPreview`, `AnnualReportBulk`, `AnnualReportAnswers`, `AnnualReportSingles`, `AnnualReportInputs`, `AnnualReportProgress`, `AnnualReportWitnesses`, `AnnualReportPanel` | annual certificates and statements: shared claims, preview paging, bulk traversal, single sends, the owner's inputs |
| `DeferredPreview` | the preview when React runs state updaters later |
| `AutomaticRefresh`, `AutomaticRefresher` | the automatic refresh with one follower and one retry |
| `StripeOrganization`, `StripeDraft`, `StripeGuards`, `StripeReads`, `StripeSettingsPanel` | the Stripe settings draft, its rebases and its guarded writes |
| `EmailTemplates`, `EmailFormatting` | the e-mail template merge and the formatting buttons |
| `NiceScale`, `CategoryAxis`, `BarLabels` | axis scales and label placement |
| `DonationForm`, `DonarPage`, `DonarWizard` | the donor wizard: inline errors and Stripe request ids |
| `Text` | strings, trimming, splitting and joining |

## Where the code does less than it says

Each of these is proved of the code as it is, with the exact condition.

- Quoting does not undo itself with the caret before a leading line break: the backward search finds that very
  break, so the block would start after its end, and a round trip adds a line break
  (`EmailFormatting.QuoteTogglesBack`, `EmailFormatting.LeadingBreakGrows`).
- The comment on the category axis says the latest label always shows; the code drops it when a year opens close by
  (`CategoryAxis.LatestIsShownIff`, `CategoryAxis.LatestLabelCanVanish`).
- The comment on bar labels says they never overlap; the labels of two equally tall bars can
  (`BarLabels.TiedLabelsCollide`). `BarLabels.ThinnedLabelsCollideIff` says exactly when two labels overlap left to right;
  unless the bars are equally tall, they stand at different heights.
- A single send's successful answer can be dropped, without a notice and without a new preview, although account, year,
  search and generation did not change: a refresh under way when it is clicked may land first and move the cursor that
  its request holds (`AnnualReportWitnesses.SingleAnswerCanBeLost`). `AnnualReportSingles.SingleAnswerCommitsIff` says
  exactly when, and `AnnualReportSingles.SendCanBeLostIff` what to look for at the click: a refresh of that very request
  under way, with results of at least two donors.
- A save of the Stripe settings rebuilds its baseline from the one captured at its start, so after a read or expiry
  committed in between a field the owner never typed can count as dirty
  (`StripeDraft.ReadDuringSaveResubmitsUntouchedField`). It happens exactly when, outside the saved fields, the two
  baselines differ in which fields of the draft they show as dirty (`StripeDraft.DirtyStayEditsIff`).
- A refresh called from a render that saw no preview, after one has arrived, asks for a later page and shows it as the
  first (`AnnualReportPreview.RefreshKeepsPrefixIffFresh`). A retry can do that: a flight that commits one lane's first
  page and then fails on the other lane's retries with the same callback, whose render saw no preview
  (`AnnualReportWitnesses.BlindRefreshLosesFirstPage`). So can an effect that runs after an earlier flight's commit and
  belongs to a render before it.
- An action started from a render older than the account leaves its entry in the books after it finishes
  (`ActionBooks.BooksDrain`, `ActionBooks.StaleCallStaysBooked`).

## Model

| member | source | states |
|---|---|---|
| `AccountState.AccountStateGuard.Advance` | src/client/accountState.ts:8-10 | Each account change raises the version by exactly one. |
| `AccountState.AccountStateGuard.Capture` | src/client/accountState.ts:12-14 | A capture is the version at that moment. |
| `AccountState.AccountStateGuard.BeginRunAt` | src/client/accountState.ts:24-25 | An operation starts only under the version it was captured for. |
| `AccountState.AccountStateGuard.SettleRunAt` | src/client/accountState.ts:26-33 | Its result or its failure is delivered only if the version is still that one; otherwise the stale error replaces either. |
| `AccountState.VersionCountsChanges` | src/client/accountState.ts:5-18 | Two moments see the same version exactly when no account change lies between them. |
| `AccountState.RunAtDeliversIffAccountUnchanged` | src/client/accountState.ts:24-40 | A guarded run delivers its own outcome if and only if no account change happened between capture, start and settlement; with one anywhere in between it is stale. |
| `LatestRequestGate.Gate.Start` | src/client/preCdeFailures.ts:8-9 | A request gets the next generation. |
| `LatestRequestGate.Gate.Invalidate` | src/client/preCdeFailures.ts:19-21 | Invalidation retires every request started so far. |
| `LatestRequestGate.Gate.Commit` | src/client/preCdeFailures.ts:11-17 | A commit runs exactly when its request holds the current generation. |
| `LatestRequestGate.CommitRunsIffLatest` | src/client/preCdeFailures.ts:4-24 | Over any history, a request may commit exactly when no request started and nothing was invalidated after it. |
| `ActionRunner.Runner.StartAction` | src/client/App.tsx:2735-2769 | Starting an action takes its domain over in all three books under a fresh token, as the books machine says. |
| `ActionRunner.Runner.Commit` | src/client/App.tsx:2751-2765 | A commit takes effect exactly when the action's own check holds, it owns its domain and the account is the one it was called for. |
| `ActionRunner.Runner.FinishAction` | src/client/App.tsx:2770-2796 | The end of an action, by success, expired session or other failure, frees only what it still owns. |
| `ActionRunner.Runner.ResetAccountState` | src/client/App.tsx:1148-1156 | An account change raises the version and empties the books. |
| `ActionBooks.PutSpec` | src/client/App.tsx:2748-2750 | Re-inserting a busy name keeps one entry per domain and changes no other. |
| `ActionBooks.RemoveSpec` | src/client/App.tsx:2781-2787 | Removing a busy name removes that domain's entry and no other. |
| `ActionBooks.StepKeepsOwners` | src/client/App.tsx:2735-2796 | Every step keeps: owners hold tokens already given out, in the domain their running action names. |
| `ActionBooks.StepKeepsBooks` | src/client/App.tsx:2735-2796 | Every step keeps owner keys, busy-name keys and busy domains equal. |
| `ActionBooks.StepKeepsLabels` | src/client/App.tsx:2748-2795 | Every step keeps both busy labels truthful. |
| `ActionBooks.BooksAlwaysAgree` | src/client/App.tsx:2735-2796 | In every reachable state owner keys, busy-name keys and busy domains are one set, and the annual-report label is nonblank exactly when that domain is owned. |
| `ActionBooks.OwnershipRun` | src/client/App.tsx:2735-2796 | Over any run, ownership survives exactly while the account is unchanged and nothing displaces the token. |
| `ActionBooks.RivalsShareTheirDomain` | src/client/App.tsx:2740-2746 | A start of one action takes the domain of another over if and only if both are annual reports (certificates or statements), both are other Stripe actions, both are F960 exports, or they are the same. |
| `ActionBooks.LatestWins` | src/client/App.tsx:2735-2796 | For every run before and after a start: its commit takes effect if and only if its own check holds, it was called from a render of the present account, the account has not changed, no rival started since, and it has not itself finished. |
| `ActionBooks.AccountChangesIff` | src/client/App.tsx:2770-2776 | The account changes with a reset and with an expired session reported to an action that may still commit, and with nothing else. |
| `ActionBooks.OrderKept` | src/client/App.tsx:2749 | A busy domain keeps its place in the order of the books, another comes last, and one that is done leaves the rest in order. |
| `ActionBooks.StartLabels` | src/client/App.tsx:2766-2769 | A start puts its name on the busy label, and on the reports' label exactly when it is an annual report. |
| `ActionBooks.LabelAfterFinish` | src/client/App.tsx:2788-2794 | When an action of the present account ends, the label names the busy domain that became busy last, or is blank. |
| `ActionBooks.EntriesAlwaysExplained` | src/client/App.tsx:2735-2796 | Every booked domain has its action still running under the present account, or was booked by a call from an older render. |
| `ActionBooks.StaleCallStaysBooked` | src/client/App.tsx:2777-2794 | A run in which a call from the render before an account change leaves its domain booked and its name on the label after it finished. |
| `ActionBooks.BooksDrain` | src/client/App.tsx:2770-2796 | Once every action finished, the booked domains are exactly those last started from a render older than the account; with none of those all books and labels are empty. |
| `AnnualReportPanel.Panel.BeginPreviewReplacement` | src/client/App.tsx:1978-1996 | A replacement request takes the next generation, the asked year and search, and no cursor. |
| `AnnualReportPanel.Panel.CommitPreview` | src/client/App.tsx:1998-2032 | A page is committed exactly when its request is the one in the ref; it replaces or extends the preview and moves the cursor to its end (when updaters run at once; `DeferredPreview` covers the rest). |
| `AnnualReportPanel.Panel.InvalidatePreview` | src/client/App.tsx:2034-2044 | Invalidation drops preview and cursor and asks anew under the next generation. |
| `AnnualReportPanel.Panel.ResetBulkTraversal` | src/client/App.tsx:2046-2064 | A new traversal starts over from the first batch under the next generation. |
| `AnnualReportPanel.Panel.ClaimOperation` | src/client/App.tsx:1790-1802 | A claim succeeds exactly when neither lane holds any, and enters both the lane's and the shared claims. |
| `AnnualReportPanel.Panel.ReleaseOperation` | src/client/App.tsx:1804-1822 | A release frees the claim in both maps exactly when its own token holds it. |
| `AnnualReportPanel.Panel.BeginOperation` | src/client/App.tsx:2077-2090 | An operation begins exactly when it may claim and is confirmed; a declined confirmation leaves no claim behind. |
| `AnnualReportPanel.Panel.SendBulk` | src/client/App.tsx:2066-2090 | A bulk click posts the next batch of the traversal, if it may. |
| `AnnualReportPanel.Panel.LoadMorePreview` | src/client/App.tsx:2119-2139 | "Load more" asks from the cursor of the request in the ref, if it may. |
| `AnnualReportPanel.Panel.SendSingle` | src/client/App.tsx:2172-2207 | A single send claims the lane for the shown generation and year. |
| `AnnualReportPanel.Panel.RefreshPreview` | src/client/App.tsx:1000-1040 | A panel refresh asks again under the request in the ref when its render had no preview, and otherwise replaces the preview unless the lane holds a claim. |
| `AnnualReportPanel.Panel.Owns` | src/client/App.tsx:2751-2765 | The currency check of an operation's commit. |
| `AnnualReportPanel.Panel.AnswerBulk` | src/client/App.tsx:2091-2113 | A bulk answer moves the traversal on if it may commit. |
| `AnnualReportPanel.Panel.AnswerPage` | src/client/App.tsx:2140-2147 | A page answer is committed if it may be. |
| `AnnualReportPanel.Panel.AnswerSingle` | src/client/App.tsx:2208-2245 | A single send that may commit replaces the preview request and goes on to ask for its first page under the same claim. |
| `AnnualReportPanel.Panel.AnswerFailure` | src/client/App.tsx:2772-2776 | A failed request leaves previews and traversals as they are. |
| `AnnualReportPanel.Panel.FinishAction` | src/client/App.tsx:2770-2796 | The end of a report action gives up the domain only if it still owns it. |
| `AnnualReportPanel.Panel.ReleaseClaim` | src/client/App.tsx:2114-2117 | The claim goes in the caller's `finally`, after its action ended. |
| `AnnualReportPanel.Panel.ChangeYear` | src/client/App.tsx:2158-2162 | A new year invalidates the preview and restarts the traversal. |
| `AnnualReportPanel.Panel.StartNewTraversal` | src/client/App.tsx:2153-2156 | A new traversal starts the bulk sending over. |
| `AnnualReportPanel.Panel.ChangeSearch` | src/client/App.tsx:2164-2168 | A new search invalidates the preview. |
| `AnnualReportPanel.Panel.SettleSearch` | src/client/App.tsx:604-643 | A typed search settles only if no later input came. |
| `AnnualReportPanel.Panel.ResetAccountState` | src/client/App.tsx:1148-1172 | An account change resets both lanes, all claims and the owner. |
| `AnnualReportClaims.StepKeepsExclusive` | src/client/App.tsx:1790-1841 | Every step keeps: shared claims are exactly the union of both lanes' claims, at most one, each belonging to the operation that took it and that owns the domain. |
| `AnnualReportClaims.ReportsAreExclusive` | src/client/App.tsx:1790-1841 | That holds in every reachable state. |
| `AnnualReportClaims.ClaimedActionIsNotSuperseded` | src/client/App.tsx:1885-1930 | While an operation holds its claim its action owns the annual-report domain, and only its own end or an account change takes it away. |
| `AnnualReportClaims.LateReleaseFreesNothingElse` | src/client/App.tsx:1804-1841 | A late release never frees a claim another operation took. |
| `AnnualReportClaims.AnswerCommitsIffCurrent` | src/client/App.tsx:2066-2151 | A waiting answer commits if and only if its account is the present one and exactly the request or batch it was asked for, cursor included, is the present one: the claim and the domain never stand in its way. |
| `AnnualReportPreview.CommitShows` | src/client/App.tsx:1998-2032 | Committing a page of an honest server keeps the donors shown a prefix with the cursor at its end. |
| `AnnualReportPreview.StepKeepsSound` | src/client/App.tsx:1978-2044 | Every step keeps that for both lanes. |
| `AnnualReportPreview.ShownPreviewIsPrefix` | src/client/App.tsx:2119-2168 | Over every run, in whatever order requests answer, fail, repeat or are superseded, the donors shown are a prefix of the results for the year and search in the request, a cursor marks exactly its end, and without a preview there is no cursor. |
| `AnnualReportPreview.RefreshKeepsPrefixIffFresh` | src/client/App.tsx:1000-1020 | A refresh keeps the prefix if and only if the preview its render saw missing is missing now; otherwise it shows a later page as the first. |
| `AnnualReportBulk.NextPost` | src/client/App.tsx:2066-2112 | After a sent batch the next one is posted, after a failed batch the same one. |
| `AnnualReportBulk.PostsGoThroughOnce` | src/client/App.tsx:2046-2117 | In an ordered traversal cursors start at none and never go back, and two posts share a cursor exactly when all posts between them failed. |
| `AnnualReportBulk.StepKeepsBulk` | src/client/App.tsx:2046-2117 | Every step keeps each lane's traversal ordered and its state the answer to the latest batch sent. |
| `AnnualReportBulk.BulkGoesThroughOnce` | src/client/App.tsx:2046-2117 | Over every run, within one traversal: first batch, then each next batch in turn, again only after failure, and nothing after the last. |
| `AnnualReportBulk.BulkAnswerCommitsIffTraversalUnchanged` | src/client/App.tsx:2095-2113 | A bulk answer commits if and only if neither account nor traversal generation changed since its post. |
| `AnnualReportAnswers.StepKeepsPinned` | src/client/App.tsx:2119-2151 | Every step keeps: a page still wanted was asked for from the cursor where the preview now ends. |
| `AnnualReportAnswers.PageCommitsIffLaneUnchanged` | src/client/App.tsx:2119-2151 | Over every run, a "load more" page is used if and only if neither account nor the lane's generation changed since it was asked for: no result is lost otherwise. |
| `AnnualReportSingles.StepFollows` | src/client/App.tsx:2205-2245 | Every step keeps what a waiting single send knows of its lane: the request is still its own, or a refresh landed and moved the cursor on, or the account or generation changed. |
| `AnnualReportSingles.SingleAnswerCommitsIff` | src/client/App.tsx:2205-2245 | Over every run, the answer a single send waits for is used if and only if neither account nor lane generation changed and no refresh landed in the lane with more to come since the send began to wait under its request. |
| `AnnualReportSingles.StaysQuiet` | src/client/App.tsx:1000-1020 | Unless a refresh is called from a render without a preview, no refresh of a generation starts later. |
| `AnnualReportSingles.SendCanBeLostIff` | src/client/App.tsx:2185-2207 | In every reachable state where a single send waits and would commit: some run with honest pages and without such calls loses its answer, account and generation unchanged, if and only if a refresh of its very request is under way and its results number at least two. |
| `AnnualReportWitnesses.SingleAnswerCanBeLost` | src/client/App.tsx:2212-2217 | A run from the first render, with honest pages and fresh refreshes, in which a single send's answer is dropped though account, year, search and generation stayed the same. |
| `AnnualReportWitnesses.BlindRefreshLosesFirstPage` | src/client/App.tsx:1004-1010 | A run from the first render in which the last of two donors is shown as if it were the first. |
| `AnnualReportInputs.AccountChangesIff` | src/client/App.tsx:2751-2776 | The account changes with a reset and with an expired session reported to an action that may still commit, and with nothing else. |
| `AnnualReportInputs.LanesFollowTheirInputs` | src/client/App.tsx:2158-2168 | Over every run: a lane asks for the year chosen last by a year or account change and for the search typed or settled last, its traversal is for the year given to it last, and a settled search counts only if nothing was typed since. |
| `AnnualReportInputs.YearStaysChosen` | src/client/App.tsx:2158-2162 | After a year change the lane asks for that year until another year or another account comes. |
| `AnnualReportInputs.InputsClear` | src/client/App.tsx:2034-2064 | A new year or search shows nothing until it is answered; a new year or traversal starts the bulk sending over; the other lane is left alone. |
| `AnnualReportInputs.AccountChangeClears` | src/client/App.tsx:1148-1172 | An account change clears both lanes, every claim and the owner. |
| `AnnualReportInputs.FinishGivesBack` | src/client/App.tsx:2776-2791 | The end of an action gives back only a domain it still owns, and leaves lanes and claims alone. |
| `AnnualReportProgress.ClaimableIffFree` | src/client/App.tsx:1790-1802 | A claim is to be had exactly when neither lane holds one. |
| `AnnualReportProgress.ClaimsDrain` | src/client/App.tsx:1790-1841 | When no operation is left, nothing is claimed. |
| `AnnualReportProgress.FailedOperationEnds` | src/client/App.tsx:2138-2150 | An operation that fails ends, gives the domain back and frees its claim. |
| `AnnualReportProgress.LoadMoreBegins` | src/client/App.tsx:2119-2139 | "Load more" asks under the request in the ref exactly when its render saw a later page and that cursor, and nothing is claimed. |
| `AnnualReportProgress.SendSingleBegins` | src/client/App.tsx:2172-2207 | A single send begins exactly when confirmed, sendable, for the year on screen, and nothing is claimed. |
| `AnnualReportProgress.SendBulkBegins` | src/client/App.tsx:2066-2090 | A bulk click begins exactly when confirmed, with a batch left and nothing claimed; it asks for the first batch or the one after the last sent, and is posted under the present account. |
| `AnnualReportProgress.RefreshBegins` | src/client/App.tsx:1001-1016 | A refresh asks exactly for the year and search of the ref, from a render without a preview or with nothing claimed in the lane. |
| `AnnualReportProgress.MoreAnswerShows` | src/client/App.tsx:2140-2147 | A "load more" page that may commit extends what is shown to its own end; another changes nothing shown. |
| `AnnualReportProgress.FailedRefreshIsOver` | src/client/App.tsx:1052-1089 | A failed refresh is over, and previews, claims and owner stay as they are. |
| `AnnualReportProgress.RefreshAnswerShows` | src/client/App.tsx:1070-1080 | A first page is shown exactly when its refresh may write and its request is still the one in the ref. |
| `AnnualReportProgress.SingleAnswerAsksAnew` | src/client/App.tsx:2212-2230 | A single send that may commit asks for the first page anew and keeps waiting; one that may not is over. |
| `AnnualReportProgress.SinglePageShows` | src/client/App.tsx:2231-2245 | The page it asked for is shown exactly when it may commit. |
| `AnnualReportProgress.BulkAnswerMovesOn` | src/client/App.tsx:2091-2113 | A bulk answer that may commit moves the traversal to where the server stopped; another, or a failure, leaves it. |
| `DeferredPreview.RunAtOnceIsImmediate` | src/client/App.tsx:2003-2030 | A state updater that runs before anything else happens does what the handlers say at once. |
| `DeferredPreview.ClickAsksLikeThePanel` | src/client/App.tsx:2119-2125 | With nothing claimed, a click on "load more" asks for the next page in this model exactly when it does in the panel. |
| `DeferredPreview.CallbackKeepsSound` | src/client/App.tsx:1998-2044 | Every callback, updaters that run at once or later included, keeps what is to be rendered a prefix with its cursor at the end, and what each pending page will find exact. |
| `DeferredPreview.RenderedPreviewIsPrefix` | src/client/App.tsx:1998-2044 | Over every run whose "load more" clicks find the panel undisturbed, however late the updaters run and whatever they then find in the ref: what is rendered once none is left is a prefix of the results asked for and the cursor marks exactly its end. |
| `DeferredPreview.RenderedIsUndisturbed` | src/client/App.tsx:2119-2126 | A panel rendered to the end is undisturbed. |
| `DeferredPreview.ClickIsSafeIff` | src/client/App.tsx:2119-2147 | In every reachable state where the ref has a cursor: every honest answer to a click before any update runs leaves a prefix to render if and only if what is shown reaches up to the cursor, no invalidation is left to render, and no page left to show completes the list. |
| `DeferredPreview.EarlyClickLosesFirstPage` | src/client/App.tsx:2119-2126 | A run in which "load more" is clicked with an invalidation left to render, and the first page is never shown. |
| `AutomaticRefresher.Refresher.DispatchAutomaticRefresh` | src/client/App.tsx:1108-1118 | A dispatch opens a flight with a fresh token. |
| `AutomaticRefresher.Refresher.RefreshEffect` | src/client/App.tsx:649-678 | The effect dispatches, queues a follower, or does nothing when the key is already fetched. |
| `AutomaticRefresher.Refresher.OnSuccess` | src/client/App.tsx:1119-1129 | Only the present flight is completed. |
| `AutomaticRefresher.Refresher.OnFailure` | src/client/App.tsx:1130-1145 | Only the present flight reacts: it retries once with its queued follower, or is given up. |
| `AutomaticRefresher.Refresher.IsOwner` | src/client/App.tsx:1091-1106 | Ownership inside a refresh is the present flight under the present account. |
| `AutomaticRefresher.Refresher.ResetAccountState` | src/client/App.tsx:1148-1157 | An account change drops the flight. |
| `AutomaticRefresh.FiringFliesItsKey` | src/client/App.tsx:667-678 | After a firing the flight is for its key; a refresh is dispatched if and only if there was no flight or one for another key, and then pending with no follower and no retry; a firing for a pending flight's own key leaves a follower queued. |
| `AutomaticRefresh.FlightIsForLastKeyFired` | src/client/App.tsx:649-678 | Over runs in which nothing fails and no account changes, the flight is for the key fired last. |
| `AutomaticRefresh.SuccessCompletesOwnFlight` | src/client/App.tsx:1119-1129 | A success completes its own flight and no other. |
| `AutomaticRefresh.FailureFreesItsKey` | src/client/App.tsx:1130-1145 | A failure without a retry gives its own flight up, so that its key can be fetched again, and no other. |
| `AutomaticRefresh.StepKeepsSound` | src/client/App.tsx:649-678 | Every step keeps tokens fresh and the flight among those dispatched. |
| `AutomaticRefresh.DispatchesAreCharged` | src/client/App.tsx:649-678 | In every run dispatches, plus one for a usable queued follower, never exceed the firings of the effect. |
| `AutomaticRefresh.RetryExactlyOnce` | src/client/App.tsx:1130-1145 | A failure dispatches again exactly when it is the present flight's, a follower is queued, it was not itself a retry and it is not an expired session; the retry repeats its key. |
| `AutomaticRefresh.OnlyPresentFlightCommits` | src/client/App.tsx:1091-1106 | After any run, the refresh a step dispatched, as a retry or not, may write if and only if it was called under the present account, nothing was dispatched since, the account is the same and it has not ended. |
| `AutomaticRefresh.CompletedKeyNotRefetched` | src/client/App.tsx:667-678 | A completed key is not fetched again until the key changes or the account resets. |
| `Text.TrimTakesSpaceOff` | src/client/credentialSettings.ts:52-58 | Trimming takes all white space off both ends and nothing else. |
| `Text.SpacesAre` | src/client/credentialsPanel.tsx:1367 | What counts as white space, character by character. |
| `StripeOrganization.TrimmedStripeOrganization` | src/client/credentialSettings.ts:52-58 | Every field is trimmed. |
| `StripeOrganization.StripeOrganizationDirtyPatch` | src/client/credentialSettings.ts:60-72 | The patch holds exactly the fields that differ from the baseline up to trimming, trimmed. |
| `StripeOrganization.StripeOrganizationPendingWrite` | src/client/credentialSettings.ts:74-87 | A pending write guards exactly the submitted fields the server acknowledged, or nothing. |
| `StripeOrganization.ResolveStripeOrganizationHydration` | src/client/credentialSettings.ts:89-120 | A read shows guarded values over the server's until it confirms them or the write expires. |
| `StripeOrganization.ReconcileStripeOrganizationDraft` | src/client/credentialSettings.ts:122-134 | Dirty fields keep the draft, all others take the new baseline. |
| `StripeOrganization.RebaseKeepsExactlyTheLiveEdits` | src/client/credentialSettings.ts:60-72 | After a rebase the dirty patch is exactly the old edits the new baseline does not already show. |
| `StripeOrganization.RebaseComposes` | src/client/credentialSettings.ts:122-134 | Rebasing in two steps differs from one step exactly at an edit the first baseline absorbed and the second does not show. |
| `StripeOrganization.RebaseIdempotent` | src/client/credentialSettings.ts:122-134 | Rebasing twice changes at most white space around an absorbed edit, and then nothing. |
| `StripeOrganization.ResolveField` | src/client/credentialSettings.ts:89-120 | Field by field, when a value stays guarded and what is shown. |
| `StripeOrganization.PendingOnlyShrinks` | src/client/credentialSettings.ts:89-120 | Over any sequence of reads the guarded set only shrinks, values and saving time unchanged. |
| `StripeOrganization.PendingIsTheUnconfirmed` | src/client/credentialSettings.ts:89-120 | After any reads a field is still guarded exactly when none came after the time limit and none confirmed it. |
| `StripeOrganization.SavedFieldDoesNotFlipBack` | src/client/credentialSettings.ts:74-120 | Over any sequence of reads a saved field shows the saved value up to and including the first read that confirms it; every other field, and every field after the limit, shows the server's. |
| `StripeGuards.GuardedIffSpared` | src/client/App.tsx:2381-2396 | Over every run of the panel, later saves that merge into the guard and start its time again included: after the latest save that wrote a field it is still guarded with that value if and only if no read confirmed it, none came later than the time limit after the latest save of any field, the write did not expire and the account did not change. |
| `StripeGuards.SavedFieldHoldsOverRun` | src/client/App.tsx:2610-2631 | Over every such run a committed read in time shows the saved value, up to trimming, as long as the field was spared, the first confirming read included; every other read shows the server's. |
| `StripeReads.ReadCommitsIffLatest` | src/client/App.tsx:860-869 | Over every run a read commits if and only if its action allows it and since it was sent it was not answered, no other read was sent, no save answered, nothing invalidated and the account not changed. |
| `StripeReads.LatestServerIsTheLastRead` | src/client/App.tsx:2610-2616 | Over every run the server is taken to hold exactly what the last committed read brought since the last account change. |
| `StripeReads.ExpiryShowsTheServer` | src/client/App.tsx:2578-2607 | Over every run a timer more than two minutes after the latest save ends the guard: the baseline is then exactly what the last committed read brought, every field without an edit shows it, every edit stays, and a new read is sent; before that, with some guarded field unconfirmed, it changes nothing. |
| `StripeReads.SavePosts` | src/client/App.tsx:2364-2379 | A save posts exactly the fields that differ from the baseline up to trimming, trimmed. |
| `StripeReads.OpenSaveStays` | src/client/App.tsx:2363-2379 | An open save stays as posted until its own answer or failure, or an account change. |
| `StripeReads.FieldsByName` | src/client/credentialSettings.ts:29-41 | The name under which the server reports each field. |
| `StripeReads.SaveAnswerKeeps` | src/client/App.tsx:2380-2402 | The answer to a save whose action still owns its domain guards each posted field the server names, with the value posted, over the baseline held; any other only outdates reads; the draft never changes. |
| `StripeReads.PendingGuardsSomething` | src/client/credentialSettings.ts:110-119 | Over every run a pending write guards some field, and without one a timer does nothing. |
| `StripeReads.ResetEmpties` | src/client/App.tsx:1158-1165 | An account change empties the form and all that was known of the server. |
| `StripeSettingsPanel.Panel.FetchStripeSettings` | src/client/App.tsx:860-869 | A read captures generation and baseline before it is sent. |
| `StripeSettingsPanel.Panel.ScheduleStripeOrganizationPendingExpiry` | src/client/App.tsx:2567-2608 | The expiry is armed for the very write object now pending, or disarmed. |
| `StripeSettingsPanel.Panel.ApplyStripeSettingsRefresh` | src/client/App.tsx:2610-2631 | A read commits only if allowed and no save or newer read came since; it then resolves, rebases and re-arms. |
| `StripeSettingsPanel.Panel.PostStripeCredentials` | src/client/App.tsx:2363-2379 | A save captures the baseline and posts the dirty patch. |
| `StripeSettingsPanel.Panel.AcceptStripeCredentials` | src/client/App.tsx:2380-2402 | An accepted save guards the acknowledged fields and puts them on the captured baseline. |
| `StripeSettingsPanel.Panel.PendingExpiryFires` | src/client/App.tsx:2567-2608 | A timer of another write object re-arms; its own expiry shows the last server configuration and rebases the draft onto it. |
| `StripeSettingsPanel.Panel.InvalidateReads` | src/client/App.tsx:2429-2507 | The webhook-secret actions outdate every read on its way and change nothing else. |
| `StripeSettingsPanel.Panel.ResetAccountState` | src/client/App.tsx:1158-1165 | An account change empties the panel and outdates open reads. |
| `StripeDraft.RunIsConsistent` | src/client/App.tsx:2363-2427 | In every run a read that may still commit was started from the baseline in force, and a guarded write has its expiry armed. |
| `StripeDraft.CommittedReadUsesBaselineInForce` | src/client/App.tsx:2610-2631 | Over every run a committing read reconciles the draft against the baseline in force at that moment. |
| `StripeDraft.DirtyStayEditsIff` | src/client/App.tsx:2380-2396 | From a panel in step, a step leaves as dirty exactly the owner's edits if and only if it is not a save reply whose captured baseline, outside the saved fields, shows other fields as dirty than the baseline in force. |
| `StripeDraft.StepStaysInStepExactlyWhenUndisturbed` | src/client/App.tsx:2363-2427 | A step keeps both the dirty fields the owner's edits and the baseline the configuration accepted last if and only if it is not a save reply whose captured baseline differs from the one in force outside the saved fields. |
| `StripeDraft.DraftStaysInStep` | src/client/App.tsx:2567-2631 | Over every run without such a reply the dirty fields are exactly the owner's edits. |
| `StripeDraft.SaveSubmitsExactlyTheEdits` | src/client/App.tsx:2363-2379 | Then a save submits the owner's edits, trimmed, and not one field more. |
| `StripeDraft.QuietSaveIsUndisturbed` | src/client/App.tsx:2363-2427 | A save during which nothing was accepted, saved or reset is undisturbed whatever it answers. |
| `StripeDraft.ReadDuringSaveResubmitsUntouchedField` | src/client/App.tsx:2366-2396 | A run, under the browser's own trimming, where a read commits during a save: a field the owner never typed then counts as dirty and the next save submits it. |
| `EmailTemplates.SubmissionsCover` | src/client/credentialsPanel.tsx:1638-1664 | The two countries' submissions together hold every defined type that has a draft, unaltered. |
| `EmailTemplates.SubmissionsDisjoint` | src/client/credentialsPanel.tsx:1638-1664 | They share a type exactly when it is defined for both countries. |
| `EmailTemplates.ReconcileEmailTemplateDraft` | src/client/credentialSettings.ts:136-165 | The merged draft: types the server does not return are kept, and each text of the others is the draft's or the server's by the three-way rule. |
| `EmailTemplates.SaveOutcome` | src/client/App.tsx:2656-2683 | After a save a text typed meanwhile stays, an unsaved text of the other country stays, any other text of a returned type becomes the server's. |
| `EmailTemplates.UnsavedAfterSave` | src/client/App.tsx:2656-2683 | The texts still unsaved after a save are exactly those, where they differ from the server's. |
| `EmailTemplates.SavingBothCountriesLosesNothing` | src/client/App.tsx:2656-2683 | Saving both countries in turn submits every unsaved text once, untouched by the other save, and leaves nothing unsaved. |
| `EmailFormatting.NormalizeKeepsAllElse` | src/client/credentialsPanel.tsx:1357-1360 | Normalizing drops the return of each CRLF, turns every other return into a line feed and keeps all else in place. |
| `EmailFormatting.BlockBounds` | src/client/credentialsPanel.tsx:1362-1365 | The block is bounded by line breaks, in order exactly when the caret is not before a leading break. |
| `EmailFormatting.BlockIsTheSelectedLines` | src/client/credentialsPanel.tsx:1362-1365 | The block is that of the selected lines: no line break lies between its bounds and the ends of the selection. |
| `EmailFormatting.UnquotedInWords` | src/client/credentialsPanel.tsx:1367-1369 | A quote mark may follow white space and takes one white space after it along. |
| `EmailFormatting.QuotedHasMark` | src/client/credentialsPanel.tsx:1367 | A line counts as quoted only by a mark with nothing but white space before it. |
| `EmailFormatting.ToggledLine` | src/client/credentialsPanel.tsx:1366-1370 | Each line loses its mark when every line has one, and gets "> " otherwise. |
| `EmailFormatting.ToggleTwice` | src/client/credentialsPanel.tsx:1366-1371 | Toggling a block with an unquoted line twice gives it back. |
| `EmailFormatting.QuoteTogglesBack` | src/client/credentialsPanel.tsx:1361-1377 | Quoting and toggling again on the returned selection restores the text if and only if the caret was not at offset 0 of a text that starts with a line break; then it also selects the original block. |
| `EmailFormatting.QuoteTogglesBackNormalized` | src/client/credentialsPanel.tsx:1351-1377 | The same if and only if over a controlled value with any line endings, whose normalized text comes back. |
| `EmailFormatting.LeadingBreakGrows` | src/client/credentialsPanel.tsx:1362-1376 | In the excluded case the text comes back one line break longer. |
| `EmailFormatting.ToggleKeepsTheRest` | src/client/credentialsPanel.tsx:1366-1376 | Either toggle leaves the text outside the block alone, and keeps the line count except in the excluded case. |
| `EmailFormatting.MarkersGoAround` | src/client/credentialsPanel.tsx:1379-1402 | Bold, italic and underline change only the selection and select all of it but the outermost markers. |
| `EmailFormatting.EveryLineIsMarked` | src/client/credentialsPanel.tsx:1394-1397 | The changed stretch has the selection's lines, each nonempty one between two markers. |
| `EmailFormatting.MarkersComeOut` | src/client/credentialsPanel.tsx:1394-1402 | Taking the markers out again line by line restores the selected text. |
| `EmailFormatting.FormatByName` | src/client/credentialsPanel.tsx:1379-1402 | Within a line, bold puts two asterisks, italic one and underline two plus signs on either side of the selection, which stays selected. |
| `EmailFormatting.FormatEveryLineByName` | src/client/credentialsPanel.tsx:1394-1402 | Over several lines each nonempty one gets the markers of its format. |
| `EmailFormatting.CaretBetweenMarkers` | src/client/credentialsPanel.tsx:1384-1391 | With nothing selected the caret stands between the two inserted markers, and nothing else changes. |
| `NiceScale.Exponent` | src/client/analytics.ts:170 | The power of ten at or below a positive number and less than a tenth of the next. |
| `NiceScale.MultiplierIsLeast` | src/client/analytics.ts:171-172 | The first multiplier that reaches is the least one that does, and one always does. |
| `NiceScale.RoundStepIsLeast` | src/client/analytics.ts:169-173 | No other multiplier at any power of ten gives a smaller step that puts the peak within four. |
| `NiceScale.WholeStep` | src/client/analytics.ts:174-176 | On count axes the step is 1 up to a peak of 4 and the whole round step after that. |
| `NiceScale.StepIsLeastRound` | src/client/analytics.ts:163-176 | The step is an allowed multiple of a power of ten (a whole one on count axes) and the least such that puts the peak within four steps. |
| `NiceScale.RoundStepBounds` | src/client/analytics.ts:169-173 | The step is at least a quarter of the peak and less than twice that, two and a half times on count axes. |
| `NiceScale.GridlineCount` | src/client/analytics.ts:163-177 | Three or four gridlines above zero; on count axes one per unit up to a peak of 4 and two to four after that. |
| `NiceScale.NiceScale` | src/client/analytics.ts:165-183 | The top is the first multiple of the step at or above the peak, less than a step more; the ticks are exactly the multiples from zero to it; no positive peak gives one baseline. |
| `NiceScale.CountTicksAreWhole` | src/client/analytics.ts:164-176 | On count axes every tick is a whole number. |
| `CategoryAxis.YearStartKeptIffClear` | src/client/analyticsView.tsx:640-643 | A year start keeps its year exactly when no later one opens within a label's width. |
| `CategoryAxis.ShownAreApart` | src/client/analyticsView.tsx:646-648 | Any two labels shown are at least `every` slots apart. |
| `CategoryAxis.ShownIff` | src/client/analyticsView.tsx:646-648 | A label is shown exactly when it keeps its year, or stands a whole number of `every` slots before the latest with every label that keeps its year at least as far away. |
| `CategoryAxis.EveryIsLeast` | src/client/analyticsView.tsx:638 | `every` is the least number of slots that holds the widest text and its 12 pixels. |
| `CategoryAxis.CentersMirror` | src/client/analyticsView.tsx:579-582 | The slots fill the plot: the middle of the k-th slot from the left is as far from the left edge as that of the k-th from the right is from the right edge. |
| `CategoryAxis.WidthOfText` | src/client/analyticsView.tsx:537-539 | A text is 6.6 pixels wide for each of its characters. |
| `CategoryAxis.ShownTextsDoNotCollide` | src/client/analyticsView.tsx:636-667 | Before edge clamping, the texts of any two labels shown keep 12 pixels between them. |
| `CategoryAxis.LastYearStartIsShown` | src/client/analyticsView.tsx:640-648 | The last year start always shows. |
| `CategoryAxis.NeverFarFromALabel` | src/client/analyticsView.tsx:636-648 | Every index lies within `2 * (every - 1)` slots of a label shown. |
| `CategoryAxis.LatestIsShownIff` | src/client/analyticsView.tsx:634-648 | The latest label is shown exactly when it opens a year or no year opens within `every` slots of it. |
| `CategoryAxis.LatestLabelCanVanish` | src/client/analyticsView.tsx:634-648 | A chart whose latest label is not shown, against the comment above the function. |
| `BarLabels.TallestIsTallest` | src/client/analytics.ts:206 | The reduce finds the first of the tallest bars. |
| `BarLabels.LabelledIff` | src/client/analytics.ts:201-211 | A bar is labelled exactly when it is not empty and all labels fit, or it is the first tallest, or it is the latest and no taller bar stands less than one slot past the near edge of its label. |
| `BarLabels.FittingLabelsKeepApart` | src/client/analyticsView.tsx:578-581 | When all labels fit, labels keep at least 4 pixels apart. |
| `BarLabels.WidthOfBar` | src/client/analyticsView.tsx:790 | A bar takes 68 of 100 parts of its slot, at most 44 pixels and at least 2. |
| `BarLabels.BesideIff` | src/client/analyticsView.tsx:800-823 | Two stretches of the chart count as apart exactly when no point lies inside both. |
| `BarLabels.TallerBarsStayClear` | src/client/analyticsView.tsx:786-826 | With slots of at least a pixel, no bar taller than a labelled one reaches, left to right, into its label. |
| `BarLabels.ThinnedLabelsCollideIff` | src/client/analytics.ts:198-211 | Exactly when the two values printed in a thinned chart overlap, left to right. |
| `BarLabels.TiedLabelsCollide` | src/client/analytics.ts:198-211 | Two equally tall bars whose printed values, two figures wide, run into each other at one height, against the comment above the function. |
| `DonationForm.DonationStep1FieldErrors` | src/client/donation.ts:462-475 | The first step's errors are exactly the messages its fields deserve. |
| `DonationForm.DonationStep2FieldErrors` | src/client/donation.ts:484-528 | The second step's errors are exactly the messages its fields deserve, each judged on its own. |
| `DonationForm.FirstDonationFieldError` | src/client/donation.ts:448-458 | The first field in order with an error, or none exactly when no field has one. |
| `DonationForm.ClearDonationFieldErrors` | src/client/donation.ts:550-563 | Exactly the errors of the changed keys are cleared. |
| `DonationForm.MessagesOfTheFirstStep` | src/client/donation.ts:405-414 | When each message of amount and gift type is deserved: the amount is no number, or less than one dollar. |
| `DonationForm.MessagesOfTheDocument` | src/client/donation.ts:486-510 | When each message of document and name is deserved, by document type and length. |
| `DonationForm.MessagesOfTheAddress` | src/client/donation.ts:512-526 | When each message of the address is deserved, abroad and at home. |
| `DonationForm.OtherFieldsAreUnaffected` | src/client/donation.ts:537-548 | Changing one key changes no rule outside the errors it clears. |
| `DonationForm.ClearersAreDependencies` | src/client/donation.ts:537-548 | A key clears an error if and only if its value can affect that field's rule. |
| `DonationForm.EditKeepsErrorsTrue` | src/client/donarPage.tsx:579-589 | Each edit of the page, the departamento cascade that clears only its own error included, leaves only true messages. |
| `DonationForm.ErrorsStayTrue` | src/client/donarPage.tsx:579-589 | Over any sequence of edits every message shown is what the form deserves, and exactly the errors no edit touched remain. |
| `DonarPage.ShownErrorsAreTrue` | src/client/donarPage.tsx:864-896 | Over every run of the whole page (edits, submits, doors, going back, the move to the U.S. door) each message shown is what the form deserves at that moment. |
| `DonarPage.StepKeepsSound` | src/client/donarPage.tsx:947-988 | Every step keeps: requests numbered in order, one gift per request id, attempt and session matching what was sent. |
| `DonarPage.CentsRound` | src/client/donarPage.tsx:952 | The cents of a gift are the whole number nearest to its dollars, a half going up, and none when the amount is no number. |
| `DonarPage.SameGiftIff` | src/client/donarPage.tsx:951-954 | Two pages ask for one gift if and only if frequency and gift type agree and the amounts round to the same cents. |
| `DonarPage.StepFilesRight` | src/client/donarPage.tsx:956-969 | Every request is filed under the gift its body asks for, and its body is what the page shows. |
| `DonarPage.RequestIdBindsOneGift` | src/client/donarPage.tsx:947-988 | Over every run requests under one id ask for one frequency, one gift type and amounts that round to the same cents, and sequence numbers strictly increase. |
| `DonarPage.ShownSessionIsForTheGift` | src/client/donarPage.tsx:864-886 | Over every run the session on the U.S. payment step was requested with a body for the gift on the page: frequency, gift type and an amount of the same cents. |
| `DonarPage.FirstScreen` | src/client/donarPage.tsx:454-494 | The wizard starts on the first step with a single tithe, nothing asked and nothing wrong. |
| `DonarPage.ControlsEverywhere` | src/client/donarPage.tsx:1049-1078 | Before a door is chosen there is only that choice; a request sent can be rejected on any screen. |
| `DonarPage.ControlsOfTheFirstStep` | src/client/donarPage.tsx:1103-1262 | Which controls the first step has, in either lane. |
| `DonarPage.ControlsOfTheSecondStep` | src/client/donarPage.tsx:1266-1482 | Which controls the second step has, in either lane. |
| `DonarPage.ControlsOfTheThirdStep` | src/client/donarPage.tsx:1083-1099 | The third step goes back or edits the gift. |
| `DonarPage.LaneIsItsDoor` | src/client/donarPage.tsx:521-525 | Over every run the U.S. form is shown exactly behind the U.S. door. |
| `DonarPage.EditsClearTheirErrors` | src/client/donarPage.tsx:579-584 | An edit takes exactly the errors off the page that it can affect. |
| `DonarPage.RejectionFollows` | src/client/donarPage.tsx:970-982 | The session counted as rejected is the last whose rejection came, until its own edit drops it. |
| `DonarPage.TypedValuesFollowTheirControls` | src/client/donarPage.tsx:544-586 | Amount, gift type, frequency and Stripe gift type are what their controls set last, but for what a change of lane implies. |
| `DonarPage.DataFollowTheirControls` | src/client/donarPage.tsx:1278-1344 | Document, name and residence are what their controls set last; a document type empties what it re-scopes. |
| `DonarPage.AddressFollowsItsControls` | src/client/donarPage.tsx:579-589 | Country and address are what their controls set last; residence and departamento empty what lies below them. |
| `DonarPage.StepsFollow` | src/client/donarPage.tsx:864-886 | The first step is passed exactly with a number of at least one dollar and, outside the U.S. door, a gift type; the third is reached by an intent only; all else goes back or stays. |
| `DonarPage.SubmitJudgesItsStep` | src/client/donarPage.tsx:864-896 | A submit judges exactly its own step's fields and shows each message deserved. |
| `DonarPage.RequestsFollow` | src/client/donarPage.tsx:880-885 | A session is asked for exactly on a retry, or on passing the first step of the U.S. door without one for this gift, and dropped exactly where the lane or an edit says so. |
| `DonarPage.EveryRequestIsPayable` | src/client/donarPage.tsx:864-886 | Over every run every request, retries included, is for an amount the first step accepts, at least one dollar. |
| `DonarPage.RequestReusesTheAttempt` | src/client/donarPage.tsx:956-969 | A request reuses the attempt's id when it is for the same gift and otherwise carries an id never sent. |
| `DonarPage.AttemptIsClearedIff` | src/client/donarPage.tsx:1028-1043 | An attempt is cleared exactly by a door change, the move to the U.S. door, editing the amount outside the U.S. door, or proof that its own request is over. |
| `DonarPage.LateRejectionClearsOnlyItsOwn` | src/client/donarPage.tsx:970-982 | A rejection, however late, clears no attempt but its own and no session. |
| `DonarPage.RetiredIdIsNeverSentAgain` | src/client/donarPage.tsx:947-988 | Once its attempt is cleared or replaced, an id is never sent again in any run. |
| `DonarPage.SameGiftKeepsItsId` | src/client/donarPage.tsx:990-992 | Unless the attempt is cleared, sending the same gift again, however often, draws no new id. |
| `DonarWizard.Wizard.Update` | src/client/donarPage.tsx:579-584 | An edit patches the form and clears the errors it can affect. |
| `DonarWizard.Wizard.ToggleForeignResident` | src/client/donarPage.tsx:1341-1344 | Switching residence empties the geography and the frequency. |
| `DonarWizard.Wizard.ChoosePais` | src/client/donarPage.tsx:1357-1381 | Picking the United States restarts at the U.S. door without attempt or session; any other country is an edit. |
| `DonarWizard.Wizard.ChooseDoor` | src/client/donarPage.tsx:544-573 | A door change keeps the typed data but residence and country, and drops attempt and session. |
| `DonarWizard.Wizard.CreateStripeSessionAttempt` | src/client/donarPage.tsx:951-988 | A request is sent under the attempt for the current gift, with the next sequence number. |
| `DonarWizard.Wizard.ContinueFromMonto` | src/client/donarPage.tsx:864-886 | The first step shows its errors, or goes on and requests a session unless the one shown is for this gift. |
| `DonarWizard.Wizard.ContinueToPago` | src/client/donarPage.tsx:888-897 | The second step submits exactly a form without errors, and shows them otherwise. |
| `DonarWizard.Wizard.RetryStripeSession` | src/client/donarPage.tsx:990-992 | A retry sends the current gift again. |
| `DonarWizard.Wizard.RequestFailed` | src/client/donarPage.tsx:970-982 | A failure is recorded, and an unavailable one clears its own attempt only. |
| `DonarWizard.Wizard.GoBack` | src/client/donarPage.tsx:996-1024 | One step back clears the errors. |
| `DonarWizard.Wizard.EditAmount` | src/client/donarPage.tsx:1028-1043 | Editing the amount keeps a U.S. attempt and drops a session whose request was the last rejected. |

## Left out

- ActionBooks.StepKeepsLabels: the labels as `runAction` and an account change write them; handlers that write the busy
  label directly (loading and submitting fiscal corrections, the credential writer) are not among the steps, nor in
  `ActionBooks.BooksAlwaysAgree`.
- ActionBooks.LatestWins: the action's own currency check is a free answer at each moment, because each caller passes its own.
- AnnualReportPreview.ShownPreviewIsPrefix: assumes a fixed result list per year and search, server pages that are its
  stretches with strictly advancing cursors, and refreshes that are fresh; a duplicate first-page refresh may shorten a
  longer preview, which is still a prefix.
- AnnualReportBulk.BulkGoesThroughOnce: assumes the server's bulk cursors advance strictly.
- AnnualReportAnswers.PageCommitsIffLaneUnchanged: over runs of fresh refreshes.
- AnnualReportSingles.SendCanBeLostIff: over continuations of fresh refreshes in which none is called from a render
  without a preview; one that is may take up the present request.
- AnnualReportPanel.Panel.CommitPreview: state updates take effect at once; `DeferredPreview` models one lane with updaters
  that run later.
- DeferredPreview.RenderedPreviewIsPrefix: one lane and one "load more" at a time, as the claims allow, and clicks that find
  the panel undisturbed. The model allows the others, and `DeferredPreview.ClickIsSafeIff` and
  `DeferredPreview.EarlyClickLosesFirstPage` say what they do; for them an answer from the network would have to arrive
  before React has rendered an update made before its request, which React is taken not to let happen.
- EmailTemplates.ReconcileEmailTemplateDraft: compares texts as they are; the editor's other state is not modelled.
- NiceScale.NiceScale: exact arithmetic with the power of ten searched for; binary rounding, `log10` and `toPrecision` are not modelled.
- CategoryAxis.ShownTextsDoNotCollide: about positions before labels are clamped to the edges, and about plots with a
  positive slot; a chart narrower than its own axis is not modelled.
- BarLabels.TallerBarsStayClear: about left and right only; how high a label sits depends on fonts.
- DonarPage.RequestIdBindsOneGift: the server side of the key, and the text the amount is sent as, are not modelled.
- Trimming in the Stripe modules and trimming, number parsing and the document formats in the donor form are parameters; the
  theorems hold for all of them. `Text.Trim` is the browser's own, and the run that
  submits an untouched field is given for it.
- Inline messages are values of a datatype, one per text.
- Tokens, symbols and request ids are fresh counters.
- Requests, clocks and timers: an answer is an event with any content the server may give, at any time or never.
- The cleanup when the panel unmounts, and panels that append pages without the ownership protocol (documents, audit log).
- Intents of the Salvadoran door: only that one created on the second step opens the third; one that answers after the
  donor left that step is not modelled, nor are the Wompi and n1co pages, Givebutter and the thank-you page.
- The Worker: fiscal claims, corrections, control numbers, webhooks and storage.
- Rendering, focus, catalogs, money formatting, tables, roles and the simple form validators: they would add easy members only.
