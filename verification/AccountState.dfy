/** The account version fence under which every request of the panel runs. */
module AccountState {

  datatype Outcome<+T> = Resolved(value: T) | Rejected(error: string)
  datatype Guarded<+T> = Stale | Delivered(outcome: Outcome<T>)

  class AccountStateGuard {
    var version: nat

    constructor ()
      ensures version == 0
    {
      version := 0;
    }

    method Advance()
      modifies this
      ensures version == old(version) + 1
    {
      version := version + 1;
    }

    method Capture() returns (captured: nat)
      ensures captured == version
    {
      captured := version;
    }

    predicate IsCurrent(captured: nat)
      reads this
    {
      captured == version
    }

    /** Before the operation: a stale caller never gets to start it. */
    method BeginRunAt(captured: nat) returns (starts: bool)
      ensures starts <==> captured == version
    {
      starts := IsCurrent(captured);
    }

    /** After the operation, whether it resolved or failed: a stale outcome is replaced by the stale error. */
    method SettleRunAt<T>(captured: nat, outcome: Outcome<T>) returns (result: Guarded<T>)
      ensures result == if captured == version then Delivered(outcome) else Stale
    {
      if !IsCurrent(captured) {
        return Stale;
      }
      match outcome
      case Resolved(value) => return Delivered(Resolved(value));
      case Rejected(error) => return Delivered(Rejected(error));
    }
  }

  /** What happens around a guarded run: the account changes, or something else does. */
  datatype Moment = AccountChanges | Else

  function VersionAfter(history: seq<Moment>): nat {
    if history == [] then 0
    else VersionAfter(history[..|history| - 1]) + (if history[|history| - 1] == AccountChanges then 1 else 0)
  }

  /** The whole of `runAt`: captured after `i` moments, begun after `j`, settled after `k`. */
  function RunAt<T>(history: seq<Moment>, i: nat, j: nat, k: nat, outcome: Outcome<T>): Guarded<T>
    requires i <= j <= k <= |history|
  {
    if VersionAfter(history[..i]) != VersionAfter(history[..j]) then Stale
    else if VersionAfter(history[..i]) != VersionAfter(history[..k]) then Stale
    else Delivered(outcome)
  }

  lemma {:induction false} VersionCountsChanges(history: seq<Moment>, i: nat, k: nat)
    requires i <= k <= |history|
    ensures VersionAfter(history[..i]) <= VersionAfter(history[..k])
    ensures VersionAfter(history[..i]) == VersionAfter(history[..k]) <==> AccountChanges !in history[i..k]
  {
    if i < k {
      VersionCountsChanges(history, i, k - 1);
      assert history[..k][..k - 1] == history[..k - 1];
      assert history[i..k] == history[i..k - 1] + [history[k - 1]];
    }
  }

  /** An outcome reaches its caller exactly when the account did not change since the caller captured it. */
  lemma RunAtDeliversIffAccountUnchanged<T>(history: seq<Moment>, i: nat, j: nat, k: nat, outcome: Outcome<T>)
    requires i <= j <= k <= |history|
    ensures RunAt(history, i, j, k, outcome) == if AccountChanges in history[i..k] then Stale else Delivered(outcome)
  {
    VersionCountsChanges(history, i, j);
    VersionCountsChanges(history, i, k);
    assert history[i..k] == history[i..j] + history[j..k];
  }
}

/** The gate that lets only the latest request commit. */
module LatestRequestGate {

  class Gate {
    var generation: nat

    constructor ()
      ensures generation == 0
    {
      generation := 0;
    }

    method Start() returns (request: nat)
      modifies this
      ensures generation == old(generation) + 1 && request == generation
    {
      generation := generation + 1;
      request := generation;
    }

    method Invalidate()
      modifies this
      ensures generation == old(generation) + 1
    {
      generation := generation + 1;
    }

    method Commit(request: nat) returns (runs: bool)
      ensures runs <==> request == generation
    {
      runs := request == generation;
    }
  }

  datatype GateEvent = Started | Invalidated | Unrelated

  function GenerationAfter(events: seq<GateEvent>): nat {
    if events == [] then 0
    else GenerationAfter(events[..|events| - 1]) + (if events[|events| - 1].Unrelated? then 0 else 1)
  }

  /** A request's commit runs exactly when no request started and nothing was invalidated since it started. */
  lemma {:induction false} CommitRunsIffLatest(events: seq<GateEvent>, i: nat)
    requires i < |events| && events[i] == Started
    ensures GenerationAfter(events[..i + 1]) <= GenerationAfter(events)
    ensures GenerationAfter(events[..i + 1]) == GenerationAfter(events)
       <==> forall k :: i < k < |events| ==> events[k] == Unrelated
  {
    if i + 1 < |events| {
      var earlier := events[..|events| - 1];
      CommitRunsIffLatest(earlier, i);
      assert earlier[..i + 1] == events[..i + 1];
    } else {
      assert events[..i + 1] == events;
    }
  }
}
