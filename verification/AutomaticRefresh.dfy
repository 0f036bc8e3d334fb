/**
 * The automatic refresh: one flight at a time, at most one queued follower, at most one retry. A step is a firing
 * of the refresh effect, the end of a flight, or an account change.
 */
module AutomaticRefresh {
  import opened Text

  datatype Flight = Flight(key: string, token: nat, completed: bool, followerQueued: bool, retryUsed: bool)
  datatype Dispatch = Dispatch(key: string, renderVersion: nat, retry: bool)

  /** `inFlight` are the refreshes still running, wanted or not; every dispatch takes the next token. */
  datatype Refresher = Refresher(version: nat, flight: Option<Flight>, inFlight: map<nat, Dispatch>, nextToken: nat)

  const INITIAL := Refresher(0, None, map[], 0)

  datatype Event =
    | Effect(key: string, renderVersion: nat)
    | Succeeds(token: nat)
    | Fails(token: nat, unauthorized: bool)
    | Reset

  function Dispatched(r: Refresher, key: string, renderVersion: nat, retry: bool): Refresher {
    r.(flight := Some(Flight(key, r.nextToken, false, false, retry)),
       inFlight := r.inFlight[r.nextToken := Dispatch(key, renderVersion, retry)],
       nextToken := r.nextToken + 1)
  }

  predicate IsFlight(r: Refresher, token: nat) {
    r.flight.Some? && r.flight.value.token == token
  }

  /** What `isOwner` answers inside the refresh dispatched with this token. */
  predicate CanCommit(r: Refresher, token: nat) {
    IsFlight(r, token) && token in r.inFlight && r.inFlight[token].renderVersion == r.version
  }

  function EffectFired(r: Refresher, key: string, renderVersion: nat): Refresher {
    if r.flight.Some? && r.flight.value.key == key then
      if !r.flight.value.completed && !r.flight.value.followerQueued
      then r.(flight := Some(r.flight.value.(followerQueued := true)))
      else r
    else Dispatched(r, key, if renderVersion < r.version then renderVersion else r.version, false)
  }

  function FlightSucceeded(r: Refresher, token: nat): Refresher {
    if token !in r.inFlight then r
    else
      var landed := r.(inFlight := r.inFlight - {token});
      if !IsFlight(r, token) then landed
      else landed.(flight := Some(r.flight.value.(completed := true, followerQueued := false)))
  }

  function ResetRefresher(r: Refresher): Refresher {
    r.(version := r.version + 1, flight := None)
  }

  function FlightFailed(r: Refresher, token: nat, unauthorized: bool): Refresher {
    if token !in r.inFlight then r
    else
      var landed := r.(inFlight := r.inFlight - {token});
      var stale := r.inFlight[token].renderVersion != r.version;
      if !IsFlight(r, token) then landed
      else if unauthorized && !stale then ResetRefresher(landed)
      else if r.flight.value.followerQueued && !r.flight.value.retryUsed
      then Dispatched(landed, r.inFlight[token].key, r.inFlight[token].renderVersion, true)
      else landed.(flight := None)
  }

  function Apply(r: Refresher, e: Event): Refresher {
    match e
    case Effect(key, renderVersion) => EffectFired(r, key, renderVersion)
    case Succeeds(token) => FlightSucceeded(r, token)
    case Fails(token, unauthorized) => FlightFailed(r, token, unauthorized)
    case Reset => ResetRefresher(r)
  }

  function RunFrom(r: Refresher, events: seq<Event>): Refresher
    decreases |events|
  {
    if events == [] then r else RunFrom(Apply(r, events[0]), events[1..])
  }

  function Firings(events: seq<Event>): nat {
    if events == [] then 0 else (if events[0].Effect? then 1 else 0) + Firings(events[1..])
  }

  /** A queued follower that a failure of the present flight would turn into a retry. */
  function UsableFollowers(r: Refresher): nat {
    if r.flight.Some? && r.flight.value.followerQueued && !r.flight.value.retryUsed then 1 else 0
  }

  ghost predicate Sound(r: Refresher) {
    && (forall t :: t in r.inFlight ==> t < r.nextToken && r.inFlight[t].renderVersion <= r.version)
    && (r.flight.Some? ==>
          var f := r.flight.value;
          && f.token < r.nextToken
          && (f.token in r.inFlight <==> !f.completed)
          && (f.token in r.inFlight ==> r.inFlight[f.token].key == f.key && r.inFlight[f.token].retry == f.retryUsed)
          && (f.completed ==> !f.followerQueued))
  }

  lemma StepKeepsSound(r: Refresher, e: Event)
    requires Sound(r)
    ensures Sound(Apply(r, e))
  {
  }

  lemma {:induction false} RunKeepsSound(r: Refresher, events: seq<Event>)
    requires Sound(r)
    ensures Sound(RunFrom(r, events))
    decreases |events|
  {
    if events != [] {
      StepKeepsSound(r, events[0]);
      RunKeepsSound(Apply(r, events[0]), events[1..]);
    }
  }

  // ----- What a firing does -----

  /**
   * After a firing the flight is for its key. A refresh is dispatched if and only if there was no flight, or one for
   * another key; the new flight is then pending, with no follower and no retry used. A firing for the key of a pending
   * flight leaves a follower queued, and one for the key of a completed flight leaves all as it is.
   */
  lemma FiringFliesItsKey(r: Refresher, key: string, renderVersion: nat)
    ensures var r' := Apply(r, Effect(key, renderVersion));
            var served := r.flight.Some? && r.flight.value.key == key;
            && r'.flight.Some? && r'.flight.value.key == key
            && (r'.nextToken == r.nextToken + 1 <==> !served) && (r'.nextToken == r.nextToken <==> served)
            && (!served ==>
                  && r'.flight.value == Flight(key, r.nextToken, false, false, false)
                  && r.nextToken in r'.inFlight && r'.inFlight[r.nextToken].key == key
                  && (r'.inFlight[r.nextToken].renderVersion == r.version <==> renderVersion >= r.version))
            && (served ==>
                  r'.flight.value.(followerQueued := false) == r.flight.value.(followerQueued := false))
            && (served && !r.flight.value.completed ==> r'.flight.value.followerQueued)
            && (served && r.flight.value.completed ==> r' == r)
  {
  }

  /** A success of the present flight completes it; what others bring changes no flight. */
  lemma SuccessCompletesOwnFlight(r: Refresher, token: nat)
    requires token in r.inFlight
    ensures var r' := Apply(r, Succeeds(token));
            && token !in r'.inFlight && r'.nextToken == r.nextToken
            && (IsFlight(r, token) ==>
                  r'.flight == Some(r.flight.value.(completed := true, followerQueued := false)))
            && (!IsFlight(r, token) ==> r'.flight == r.flight)
  {
  }

  /**
   * A failure that brings no retry gives its own flight up, so that its key can be fetched again; the failure of a
   * refresh that is no longer the flight changes none.
   */
  lemma FailureFreesItsKey(r: Refresher, token: nat, unauthorized: bool)
    requires token in r.inFlight
    ensures var r' := Apply(r, Fails(token, unauthorized));
            && r'.inFlight.Keys - {r.nextToken} == r.inFlight.Keys - {token, r.nextToken}
            && (IsFlight(r, token) && r'.nextToken == r.nextToken ==> r'.flight.None?)
            && (IsFlight(r, token) && r'.nextToken != r.nextToken ==>
                  r'.flight == Some(Flight(r.inFlight[token].key, r.nextToken, false, false, true)))
            && (!IsFlight(r, token) ==> r'.flight == r.flight && r'.nextToken == r.nextToken)
            && (r'.version == r.version + 1 <==>
                  IsFlight(r, token) && unauthorized && r.inFlight[token].renderVersion == r.version)
            && (r'.version == r.version || r'.version == r.version + 1)
  {
  }

  function LastFired(events: seq<Event>): Option<string> {
    if events == [] then None
    else if events[|events| - 1].Effect? then Some(events[|events| - 1].key)
    else LastFired(events[..|events| - 1])
  }

  /** Over runs in which nothing fails and no account changes, the flight is for the key that fired last. */
  lemma {:induction false} FlightIsForLastKeyFired(r: Refresher, events: seq<Event>)
    requires forall e :: e in events ==> e.Effect? || e.Succeeds?
    ensures var r' := RunFrom(r, events);
            match LastFired(events)
            case Some(key) => r'.flight.Some? && r'.flight.value.key == key
            case None =>
              && r'.flight.Some? == r.flight.Some?
              && (r.flight.Some? ==> r'.flight.value.key == r.flight.value.key)
    decreases |events|
  {
    if events != [] {
      var n := |events| - 1;
      var earlier, last := events[..n], events[n];
      assert last in events && forall e :: e in earlier ==> e in events;
      RunSplits(r, earlier, last);
      assert events == earlier + [last];
      FlightIsForLastKeyFired(r, earlier);
      if last.Effect? {
        FiringFliesItsKey(RunFrom(r, earlier), last.key, last.renderVersion);
      }
    }
  }

  lemma {:induction false} RunSplits(r: Refresher, events: seq<Event>, e: Event)
    ensures RunFrom(r, events + [e]) == Apply(RunFrom(r, events), e)
    decreases |events|
  {
    if events != [] {
      assert (events + [e])[1..] == events[1..] + [e];
      RunSplits(Apply(r, events[0]), events[1..], e);
    } else {
      assert (events + [e])[1..] == [];
    }
  }

  lemma {:induction false} ChargedFrom(r: Refresher, events: seq<Event>)
    ensures RunFrom(r, events).nextToken + UsableFollowers(RunFrom(r, events))
         <= r.nextToken + UsableFollowers(r) + Firings(events)
    decreases |events|
  {
    if events != [] {
      ChargedFrom(Apply(r, events[0]), events[1..]);
    }
  }

  /** Every dispatch is paid for by a firing of the effect, and a usable follower keeps one firing in hand. */
  lemma DispatchesAreCharged(events: seq<Event>)
    ensures RunFrom(INITIAL, events).nextToken + UsableFollowers(RunFrom(INITIAL, events)) <= Firings(events)
  {
    ChargedFrom(INITIAL, events);
  }

  /**
   * A failure dispatches again if and only if it is the present flight's own, a follower is queued, that flight
   * was not itself a retry, and the failure is not an expired session of the present account; the retry repeats the
   * failed key.
   */
  lemma RetryExactlyOnce(events: seq<Event>, token: nat, unauthorized: bool)
    ensures var r := RunFrom(INITIAL, events);
            var r' := Apply(r, Fails(token, unauthorized));
            && (r'.nextToken > r.nextToken <==>
                 token in r.inFlight && IsFlight(r, token) && r.flight.value.followerQueued
                 && !r.inFlight[token].retry && !(unauthorized && r.inFlight[token].renderVersion == r.version))
            && (r'.nextToken > r.nextToken ==>
                 r'.inFlight[r.nextToken] == r.inFlight[token].(retry := true))
  {
    RunKeepsSound(INITIAL, events);
  }

  lemma {:induction false} CommitRun(r: Refresher, token: nat, events: seq<Event>)
    requires Sound(r) && token < r.nextToken
    requires CanCommit(r, token) ==> token + 1 == r.nextToken
    ensures var r' := RunFrom(r, events);
            && r'.nextToken >= r.nextToken && r'.version >= r.version
            && (CanCommit(r', token) <==>
                 && CanCommit(r, token) && r'.nextToken == r.nextToken && r'.version == r.version
                 && forall e :: e in events ==> !(e.Succeeds? && e.token == token) && !(e.Fails? && e.token == token))
    decreases |events|
  {
    if events != [] {
      StepKeepsSound(r, events[0]);
      CommitStep(r, token, events[0]);
      CommitRun(Apply(r, events[0]), token, events[1..]);
      assert forall e :: e in events <==> e == events[0] || e in events[1..];
    }
  }

  lemma CommitStep(r: Refresher, token: nat, e: Event)
    requires Sound(r) && token < r.nextToken
    requires CanCommit(r, token) ==> token + 1 == r.nextToken
    ensures var r' := Apply(r, e);
            && r'.nextToken >= r.nextToken && r'.version >= r.version
            && (CanCommit(r', token) ==> token + 1 == r'.nextToken)
            && (CanCommit(r', token) <==>
                 && CanCommit(r, token) && r'.nextToken == r.nextToken && r'.version == r.version
                 && !(e.Succeeds? && e.token == token) && !(e.Fails? && e.token == token))
  {
  }

  /** The call that dispatches, a firing of the effect or a failure that retries, was made under the present account. */
  predicate CalledUnderPresentAccount(r: Refresher, e: Event) {
    match e
    case Effect(_, renderVersion) => renderVersion >= r.version
    case Fails(token, _) => token in r.inFlight && r.inFlight[token].renderVersion == r.version
    case _ => false
  }

  /**
   * Only the present flight can commit: after any run, the refresh that a step dispatched, as a retry or not, may
   * write if and only if it was called under the present account, nothing has been dispatched since, the account is
   * the same, and it has not itself ended.
   */
  lemma OnlyPresentFlightCommits(before: seq<Event>, e: Event, after: seq<Event>)
    ensures var r := RunFrom(INITIAL, before);
            var d := Apply(r, e);
            var r' := RunFrom(d, after);
            d.nextToken > r.nextToken ==>
              (CanCommit(r', r.nextToken) <==>
                && CalledUnderPresentAccount(r, e) && r'.version == r.version && r'.nextToken == d.nextToken
                && forall l :: l in after ==>
                     !(l.Succeeds? && l.token == r.nextToken) && !(l.Fails? && l.token == r.nextToken))
  {
    RunKeepsSound(INITIAL, before);
    var r := RunFrom(INITIAL, before);
    StepKeepsSound(r, e);
    if Apply(r, e).nextToken > r.nextToken {
      CommitRun(Apply(r, e), r.nextToken, after);
    }
  }

  /** A completed key is not fetched again until the effect fires for another key or the account changes. */
  lemma {:induction false} CompletedKeyNotRefetched(r: Refresher, after: seq<Event>)
    requires Sound(r) && r.flight.Some? && r.flight.value.completed
    requires forall e :: e in after ==> e != Reset && (e.Effect? ==> e.key == r.flight.value.key)
    ensures RunFrom(r, after).nextToken == r.nextToken && RunFrom(r, after).flight == r.flight
    decreases |after|
  {
    if after != [] {
      StepKeepsSound(r, after[0]);
      assert after[0] in after;
      CompletedKeyNotRefetched(Apply(r, after[0]), after[1..]);
    }
  }
}

/** The ref and callbacks of the automatic refresh; every method refines one step of `AutomaticRefresh`. */
module AutomaticRefresher {
  import opened Text
  import A = AutomaticRefresh

  class Refresher {
    var accountVersion: nat
    var flight: Option<A.Flight>
    var inFlight: map<nat, A.Dispatch>
    var nextToken: nat

    ghost function State(): A.Refresher
      reads this
    {
      A.Refresher(accountVersion, flight, inFlight, nextToken)
    }

    /** What every step keeps: tokens are fresh and the flight is among the refreshes dispatched. */
    ghost predicate Valid()
      reads this
    {
      A.Sound(State())
    }

    constructor ()
      ensures Valid() && State() == A.INITIAL
    {
      accountVersion, flight, inFlight, nextToken := 0, None, map[], 0;
    }

    method DispatchAutomaticRefresh(key: string, renderVersion: nat, retryUsed: bool)
      modifies this
      ensures State() == A.Dispatched(old(State()), key, renderVersion, retryUsed)
    {
      var token := nextToken;
      nextToken := nextToken + 1;
      flight := Some(A.Flight(key, token, false, false, retryUsed));
      inFlight := inFlight[token := A.Dispatch(key, renderVersion, retryUsed)];
    }

    method RefreshEffect(key: string, renderVersion: nat)
      requires Valid()
      modifies this
      ensures Valid()
      ensures State() == A.Apply(old(State()), A.Effect(key, renderVersion))
    {
      A.StepKeepsSound(State(), A.Effect(key, renderVersion));
      if flight.Some? && flight.value.key == key {
        if !flight.value.completed && !flight.value.followerQueued {
          flight := Some(flight.value.(followerQueued := true));
        }
        return;
      }
      var captured := if renderVersion < accountVersion then renderVersion else accountVersion;
      DispatchAutomaticRefresh(key, captured, false);
    }

    method OnSuccess(token: nat)
      requires Valid()
      modifies this
      ensures Valid()
      ensures State() == A.Apply(old(State()), A.Succeeds(token))
    {
      A.StepKeepsSound(State(), A.Succeeds(token));
      if token !in inFlight {
        return;
      }
      inFlight := inFlight - {token};
      if flight.None? || flight.value.token != token {
        return;
      }
      flight := Some(flight.value.(completed := true, followerQueued := false));
    }

    method OnFailure(token: nat, unauthorized: bool)
      requires Valid()
      modifies this
      ensures Valid()
      ensures State() == A.Apply(old(State()), A.Fails(token, unauthorized))
    {
      A.StepKeepsSound(State(), A.Fails(token, unauthorized));
      if token !in inFlight {
        return;
      }
      var refresh := inFlight[token];
      var present := flight.Some? && flight.value.token == token;
      var shouldRetry := present && flight.value.followerQueued && !flight.value.retryUsed;
      if present && unauthorized && refresh.renderVersion == accountVersion {
        ResetAccountState();
      }
      inFlight := inFlight - {token};
      if flight.None? || flight.value.token != token {
        return;
      }
      if shouldRetry {
        DispatchAutomaticRefresh(refresh.key, refresh.renderVersion, true);
        return;
      }
      flight := None;
    }

    method IsOwner(token: nat) returns (owner: bool)
      requires token in inFlight
      ensures owner == A.CanCommit(State(), token)
    {
      owner := inFlight[token].renderVersion == accountVersion && flight.Some? && flight.value.token == token;
    }

    method ResetAccountState()
      requires Valid()
      modifies this
      ensures Valid()
      ensures State() == A.Apply(old(State()), A.Reset)
    {
      A.StepKeepsSound(State(), A.Reset);
      accountVersion := accountVersion + 1;
      flight := None;
    }
  }
}
