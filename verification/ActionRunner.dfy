/** The panel's action runner: the refs that `runAction` updates; every method refines one step of `ActionBooks`. */
module ActionRunner {
  import B = ActionBooks

  class Runner {
    var accountVersion: nat
    var owners: map<string, nat>
    var busyNames: B.BusyNames
    var actionBusyDomains: set<string>
    var annualReportAction: string
    var busy: string
    var running: map<nat, B.Action>
    var nextToken: nat

    ghost function State(): B.Books
      reads this
    {
      B.Books(accountVersion, owners, busyNames, actionBusyDomains, annualReportAction, busy, running, nextToken)
    }

    /** What every step keeps: the books agree, owners are sound and labels truthful. */
    ghost predicate Valid()
      reads this
    {
      B.OwnersSound(State()) && B.BooksAgree(State()) && B.LabelsAgree(State())
    }

    constructor ()
      ensures Valid() && State() == B.INITIAL
    {
      accountVersion, owners, busyNames, actionBusyDomains := 0, map[], [], {};
      annualReportAction, busy, running, nextToken := "", "", map[], 0;
    }

    /** Up to the first request: take the domain over and mark it busy. */
    method StartAction(name: string, renderVersion: nat) returns (token: nat)
      requires Valid()
      modifies this
      ensures Valid()
      ensures token == old(nextToken)
      ensures State() == B.Apply(old(State()), B.Start(name, renderVersion))
    {
      B.StepKeepsAll(State(), B.Start(name, renderVersion));
      token := TakeDomain(name, renderVersion);
    }

    method TakeDomain(name: string, renderVersion: nat) returns (token: nat)
      modifies this
      ensures token == old(nextToken)
      ensures State() == B.Apply(old(State()), B.Start(name, renderVersion))
    {
      var ownershipDomain := B.Domain(name);
      token := nextToken;
      nextToken := nextToken + 1;
      owners := owners[ownershipDomain := token];
      busyNames := B.Put(busyNames, ownershipDomain, name);
      actionBusyDomains := actionBusyDomains + {ownershipDomain};
      var captured := if renderVersion < accountVersion then renderVersion else accountVersion;
      running := running[token := B.Action(name, ownershipDomain, captured)];
      busy := name;
      if ownershipDomain == B.ANNUAL_REPORT {
        annualReportAction := name;
      }
    }

    method Commit(token: nat, isCurrent: bool) returns (commits: bool)
      ensures commits == B.CommitTakesEffect(State(), token, isCurrent)
    {
      if token !in running || running[token].renderVersion != accountVersion {
        return false;
      }
      var domain := running[token].domain;
      return domain in owners && owners[domain] == token && isCurrent;
    }

    /** The error handler and the `finally` block. */
    method FinishAction(token: nat, failure: B.Failure, isCurrent: bool)
      requires Valid()
      modifies this
      ensures Valid()
      ensures State() == B.Apply(old(State()), B.Finish(token, failure, isCurrent))
    {
      B.StepKeepsAll(State(), B.Finish(token, failure, isCurrent));
      EndAction(token, failure, isCurrent);
    }

    method EndAction(token: nat, failure: B.Failure, isCurrent: bool)
      modifies this
      ensures State() == B.Apply(old(State()), B.Finish(token, failure, isCurrent))
    {
      if token !in running {
        return;
      }
      var action := running[token];
      if failure != B.NoFailure {
        var reports := Commit(token, isCurrent);
        if reports && failure == B.Unauthorized {
          EmptyBooks();
        }
      }
      if accountVersion == action.renderVersion && action.domain in owners && owners[action.domain] == token {
        owners := owners - {action.domain};
        busyNames := B.Remove(busyNames, action.domain);
        actionBusyDomains := actionBusyDomains - {action.domain};
        if action.domain == B.ANNUAL_REPORT {
          annualReportAction := "";
        }
      }
      if accountVersion == action.renderVersion {
        busy := B.LastName(busyNames);
      }
      running := running - {token};
    }

    method ResetAccountState()
      requires Valid()
      modifies this
      ensures Valid()
      ensures State() == B.Apply(old(State()), B.Reset)
    {
      B.StepKeepsAll(State(), B.Reset);
      EmptyBooks();
    }

    method EmptyBooks()
      modifies this
      ensures State() == B.Apply(old(State()), B.Reset)
    {
      accountVersion := accountVersion + 1;
      owners, busyNames := map[], [];
      busy, actionBusyDomains, annualReportAction := "", {}, "";
    }
  }
}
