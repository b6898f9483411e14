/**
 The session store as it runs: two maps under one mutex, failure records updated in place,
 and a purge that deletes while it loops.
 */
module SessionStore {
  import A = Auth

  class FailureRecord {
    var count: nat
    var bannedUntil: nat

    constructor ()
      ensures count == 0 && bannedUntil == 0
    {
      count, bannedUntil := 0, 0;
    }

    ghost function View(): A.Record
      reads this
    {
      A.Record(count, bannedUntil)
    }

    /** One more failure: the tenth starts a ban and begins to count anew. */
    method Fail(now: nat)
      modifies this
      ensures View() == A.Fail(old(View()), now)
      ensures old(count) >= 9 ==> count == 0 && bannedUntil == now + 3_600_000
      ensures old(count) < 9 ==> count == old(count) + 1 && bannedUntil == old(bannedUntil)
    {
      count := count + 1;
      if count >= A.MAX_FAILURES {
        bannedUntil := now + A.BAN;
        count := 0;
      }
    }
  }

  class Sessions {
    var sessions: map<string, nat>
    var failures: map<string, FailureRecord>

    /** No two addresses share a record. */
    ghost predicate Valid()
      reads this
    {
      forall a, b :: a in failures && b in failures && failures[a] == failures[b] ==> a == b
    }

    ghost function View(): A.Store
      reads this, failures.Values
    {
      A.Store(sessions, map ip | ip in failures :: failures[ip].View())
    }

    constructor ()
      ensures Valid() && View() == A.EMPTY
    {
      sessions, failures := map[], map[];
    }

    /** `token` is the random token drawn. */
    method Create(token: string, now: nat)
      modifies this`sessions
      ensures View() == A.Create(old(View()), token, now)
    {
      sessions := sessions[token := now + A.SESSION_TTL];
    }

    method Validate(token: string, check: nat, refresh: nat) returns (live: bool)
      modifies this`sessions
      ensures View() == A.Validate(old(View()), token, check, refresh)
      ensures live <==> token != "" && token in old(sessions) && check <= old(sessions)[token]
      ensures live ==> sessions == old(sessions)[token := refresh + 86_400_000]
      ensures !live && token != "" ==> sessions == old(sessions) - {token}
    {
      if token == "" {
        return false;
      }
      if token !in sessions || check > sessions[token] {
        sessions := sessions - {token};
        return false;
      }
      sessions := sessions[token := refresh + A.SESSION_TTL];
      return true;
    }

    method Revoke(token: string)
      modifies this`sessions
      ensures View() == A.Revoke(old(View()), token)
    {
      sessions := sessions - {token};
    }

    /** `correct` is the outcome of the constant-time password comparison. */
    method Authenticate(ip: string, correct: bool, now: nat) returns (authenticated: bool, banned: bool)
      requires Valid()
      modifies this`failures, failures.Values
      ensures Valid() && fresh(failures.Values - old(failures.Values))
      ensures View() == A.Authenticate(old(View()), ip, correct, now)
      ensures banned <==> ip in old(failures) && now < old(failures[ip].bannedUntil)
      ensures authenticated <==> correct && !banned
    {
      if ip in failures && now < failures[ip].bannedUntil {
        return false, true;
      }
      if correct {
        failures := failures - {ip};
        return true, false;
      }
      AddFailure(ip, now);
      return false, false;
    }

    /** Counts a failure in the record of the address, which is made if there is none. */
    method AddFailure(ip: string, now: nat)
      requires Valid()
      modifies this`failures, failures.Values
      ensures Valid() && fresh(failures.Values - old(failures.Values)) && sessions == old(sessions)
      ensures View().failures == old(View()).failures[ip := A.Fail(A.RecordOf(old(View()), ip), now)]
    {
      hide A.Fail;
      if ip !in failures {
        var rec := new FailureRecord();
        failures := failures[ip := rec];
      }
      var rec := failures[ip];
      assert rec.View() == A.RecordOf(old(View()), ip);
      rec.Fail(now);
    }

    /** `now` was read before the mutex was taken. */
    method PurgeExpired(now: nat)
      requires Valid()
      modifies this
      ensures Valid() && failures.Values <= old(failures.Values)
      ensures View() == A.Purge(old(View()), now)
    {
      PurgeTokens(now);
      PurgeRecords(now);
    }

    method PurgeTokens(now: nat)
      modifies this`sessions
      ensures sessions == A.PurgeSessions(old(sessions), now)
    {
      var tokens := sessions.Keys;
      while tokens != {}
        invariant tokens <= sessions.Keys
        invariant sessions == map t | t in old(sessions) && (t in tokens || now <= old(sessions)[t]) :: old(sessions)[t]
        decreases |tokens|
      {
        var t :| t in tokens;
        tokens := tokens - {t};
        if now > sessions[t] {
          sessions := sessions - {t};
        }
      }
    }

    method PurgeRecords(now: nat)
      modifies this`failures
      ensures failures == map ip | ip in old(failures) && now <= old(failures[ip].bannedUntil) :: old(failures)[ip]
    {
      var ips := failures.Keys;
      while ips != {}
        invariant ips <= failures.Keys
        invariant failures ==
          map ip | ip in old(failures) && (ip in ips || now <= old(failures[ip].bannedUntil)) :: old(failures)[ip]
        decreases |ips|
      {
        var ip :| ip in ips;
        ips := ips - {ip};
        if now > failures[ip].bannedUntil {
          failures := failures - {ip};
        }
      }
    }
  }
}
