/** Rebuilding a table on SQLite: enforcement of foreign keys is suspended, what was written is
    checked before it is kept, and enforcement has to come back whatever happens. */
module ForeignKeys {
  import opened Wrappers
  import opened Migration

  datatype Call = PragmaOff | PragmaOn | Begin | Commit | Rollback | Query | Statement

  /** One SQLite connection. Inside a transaction the pragma that switches enforcement has no effect. */
  class Connection {
    var enforcing: bool
    var inTx: bool
    var committed: Data
    var working: Data
    /** The rows `foreign_key_check` lists for given contents. */
    const violations: Data -> seq<string>
    /** The calls that have failed. */
    ghost var faults: set<Call>

    constructor (data: Data, enforce: bool, check: Data -> seq<string>)
      ensures !inTx && committed == data && enforcing == enforce && violations == check && faults == {}
    {
      enforcing, inTx, committed, working, violations := enforce, false, data, data, check;
      faults := {};
    }

    /** Run one statement. A failed COMMIT or ROLLBACK commits nothing but may have ended the
        transaction; any other failure changes nothing. */
    method Execute(call: Call) returns (ok: bool)
      modifies this
      ensures faults == if ok then old(faults) else old(faults) + {call}
      ensures !ok ==> enforcing == old(enforcing) && committed == old(committed) && working == old(working)
      ensures !ok && call != Commit && call != Rollback ==> inTx == old(inTx)
      ensures inTx ==> old(inTx) || (ok && call == Begin)
      ensures ok && call.PragmaOff? ==> enforcing == (old(enforcing) && old(inTx)) && inTx == old(inTx)
      ensures ok && call.PragmaOn? ==> enforcing == (old(enforcing) || !old(inTx)) && inTx == old(inTx)
      ensures ok && (call.Query? || call.Statement?) ==> enforcing == old(enforcing) && inTx == old(inTx)
      ensures ok && (call.PragmaOff? || call.PragmaOn? || call.Query? || call.Statement?) ==> committed == old(committed) && working == old(working)
      ensures ok && call.Begin? ==> !old(inTx) && inTx && working == committed == old(committed) && enforcing == old(enforcing)
      ensures ok && call.Commit? ==> old(inTx) && !inTx && committed == old(working) && enforcing == old(enforcing)
      ensures ok && call.Rollback? ==> old(inTx) && !inTx && committed == old(committed) && enforcing == old(enforcing)
    {
      ok := *;
      ok := ok && (call.Begin? ==> !inTx) && (call.Commit? || call.Rollback? ==> inTx);
      if !ok {
        var ended: bool := *;
        if ended && (call.Commit? || call.Rollback?) {
          inTx := false;
        }
        faults := faults + {call};
        return;
      }
      match call
      case PragmaOff => enforcing := enforcing && inTx;
      case PragmaOn => enforcing := enforcing || !inTx;
      case Begin => inTx, working := true, committed;
      case Commit => inTx, committed := false, working;
      case Rollback => inTx := false;
      case Query =>
      case Statement =>
    }

    /** Open the migration's transaction; `off` says it is the foreign-keys-off one. */
    method Open(rebuild: bool) returns (ok: bool, off: bool)
      requires !inTx
      modifies this
      ensures ok ==> inTx && working == committed
      ensures committed == old(committed) && old(faults) <= faults
      ensures ok ==> (off <==> rebuild && old(enforcing))
      ensures ok && off ==> rebuild && old(enforcing) && !enforcing && faults == old(faults)
      ensures ok && !off ==> enforcing == old(enforcing) && faults == old(faults)
      ensures old(faults) == {} ==> (ok <==> faults == {})
      ensures !ok ==> !inTx && !off
      ensures !ok && PragmaOn !in faults ==> enforcing == old(enforcing)
    {
      off := false;
      if !rebuild {
        ok := Execute(Begin);
        return;
      }
      ok := Execute(Query);
      if !ok {
        return;
      }
      if !enforcing {
        ok := Execute(Begin);
        return;
      }
      ok := Execute(PragmaOff);
      if !ok {
        return;
      }
      ok := Execute(Begin);
      if !ok {
        var _ := Execute(PragmaOn);
        return;
      }
      off := true;
    }

    /** Roll back, restore enforcement. The ROLLBACK's own result is ignored. */
    method Abandon()
      requires !enforcing
      modifies this
      ensures committed == old(committed) && (inTx ==> old(inTx))
      ensures old(faults) <= faults <= old(faults) + {Rollback, PragmaOn}
      ensures inTx ==> Rollback in faults
      ensures PragmaOn !in old(faults) ==> (enforcing <==> !inTx && PragmaOn !in faults)
    {
      var _ := Execute(Rollback);
      var _ := Execute(PragmaOn);
    }

    /** Check, commit, restore. */
    method CommitOff() returns (ok: bool)
      requires inTx && !enforcing
      modifies this
      ensures old(faults) <= faults
      ensures ok ==> committed == old(working) && violations(committed) == [] && !inTx && enforcing && faults == old(faults)
      ensures !ok ==> committed == old(committed) ||
                      (committed == old(working) && violations(committed) == [] && PragmaOn in faults && !inTx)
      // Enforcement is back exactly when the transaction is over and the pragma worked.
      ensures PragmaOn !in old(faults) ==> (enforcing <==> !inTx && PragmaOn !in faults)
      ensures inTx ==> Rollback in faults
      ensures violations(old(working)) != [] ==> !ok && committed == old(committed)
      ensures old(faults) == {} ==> (ok <==> faults == {} && violations(old(working)) == [])
    {
      ok := Execute(Query);
      if !ok {
        Abandon();
        return;
      }
      if violations(working) != [] {
        Abandon();
        return false;
      }
      ok := Execute(Commit);
      if !ok {
        Abandon();
        return;
      }
      ok := Execute(PragmaOn);
    }

    /** Roll back and restore; a failed ROLLBACK returns before restoring. */
    method RollbackOff() returns (ok: bool)
      requires inTx && !enforcing
      modifies this
      ensures committed == old(committed) && old(faults) <= faults <= old(faults) + {Rollback, PragmaOn}
      ensures enforcing <==> ok
      // Enforcement is back exactly when neither the ROLLBACK nor the pragma failed.
      ensures Rollback !in old(faults) && PragmaOn !in old(faults) ==> (enforcing <==> Rollback !in faults && PragmaOn !in faults)
      ensures ok ==> !inTx && faults == old(faults)
      ensures !ok ==> Rollback in faults || (PragmaOn in faults && !inTx)
      ensures old(faults) == {} ==> (ok <==> faults == {})
    {
      ok := Execute(Rollback);
      if !ok {
        return;
      }
      ok := Execute(PragmaOn);
    }

    /** A migration's body in its transaction: rolled back explicitly when it fails, else committed. */
    method Migrate(rebuild: bool, body: Data -> Option<Data>) returns (ok: bool)
      requires !inTx && faults == {}
      modifies this
      // It succeeds exactly when no call fails, the body can be run, and the check finds nothing.
      ensures ok <==> && faults == {} && body(old(committed)).Some?
                      && (rebuild && old(enforcing) ==> violations(body(old(committed)).value) == [])
      // Success is the body's whole effect, checked whenever enforcement had to be turned off.
      ensures ok ==> body(old(committed)) == Some(committed) && !inTx && enforcing == old(enforcing)
      ensures ok && rebuild && old(enforcing) ==> violations(committed) == []
      // Failure is no effect, unless the pragma after COMMIT is what failed.
      ensures !ok ==> committed == old(committed) || (body(old(committed)) == Some(committed) && PragmaOn in faults)
      // Enforcement comes back whenever ROLLBACK and the pragma themselves work.
      ensures Rollback !in faults && PragmaOn !in faults ==> enforcing == old(enforcing)
      ensures rebuild && old(enforcing) && inTx ==> !enforcing && Rollback in faults
    {
      var off;
      ok, off := Open(rebuild);
      if !ok {
        return;
      }
      var result := body(working);
      var done := Execute(Statement);
      if !done || result.None? {
        if off {
          var _ := RollbackOff();
        } else {
          var _ := Execute(Rollback);
        }
        return false;
      }
      working := result.value;
      if off {
        ok := CommitOff();
      } else {
        ok := Execute(Commit);
      }
    }
  }
}
