/**
 Session tokens with a sliding lifetime, and the login limiter that bans an address after
 repeated failures.  Times are milliseconds after Go's zero time, which therefore is 0.
 */
module Auth {
  const SESSION_TTL := 86_400_000
  const MAX_FAILURES := 10
  const BAN := 3_600_000

  /** The failures of one address; `bannedUntil` is the zero time until the first ban. */
  datatype Record = Record(count: nat, bannedUntil: nat)

  datatype Store = Store(sessions: map<string, nat>, failures: map<string, Record>)

  datatype Verdict = Accepted | Refused | Banned

  // ---------- Operations ----------

  function Create(s: Store, token: string, now: nat): Store {
    s.(sessions := s.sessions[token := now + SESSION_TTL])
  }

  predicate Live(s: Store, token: string, now: nat) {
    token in s.sessions && now <= s.sessions[token]
  }

  /** The clock is read twice: once to check, once to extend the lifetime. */
  function Validate(s: Store, token: string, check: nat, refresh: nat): Store {
    if token == "" then s
    else if !Live(s, token, check) then s.(sessions := s.sessions - {token})
    else s.(sessions := s.sessions[token := refresh + SESSION_TTL])
  }

  function Revoke(s: Store, token: string): Store { s.(sessions := s.sessions - {token}) }

  function PurgeSessions(m: map<string, nat>, now: nat): map<string, nat> {
    map t | t in m && now <= m[t] :: m[t]
  }

  function PurgeFailures(m: map<string, Record>, now: nat): map<string, Record> {
    map ip | ip in m && now <= m[ip].bannedUntil :: m[ip]
  }

  function Purge(s: Store, now: nat): Store {
    Store(PurgeSessions(s.sessions, now), PurgeFailures(s.failures, now))
  }

  /** The record an attempt works on. */
  function RecordOf(s: Store, ip: string): Record {
    if ip in s.failures then s.failures[ip] else Record(0, 0)
  }

  function Judge(s: Store, ip: string, correct: bool, now: nat): Verdict {
    if now < RecordOf(s, ip).bannedUntil then Banned else if correct then Accepted else Refused
  }

  /** The record after one more failure. */
  function Fail(r: Record, now: nat): Record {
    if r.count + 1 >= MAX_FAILURES then Record(0, now + BAN) else r.(count := r.count + 1)
  }

  function Authenticate(s: Store, ip: string, correct: bool, now: nat): Store {
    match Judge(s, ip, correct, now)
    case Banned => s
    case Accepted => s.(failures := s.failures - {ip})
    case Refused => s.(failures := s.failures[ip := Fail(RecordOf(s, ip), now)])
  }

  // ---------- Runs ----------

  /** Events in the order in which they get the mutex; a purge has read the clock at `taken`, before that. */
  datatype Event =
    | Created(token: string, at: nat)
    | Validated(token: string, at: nat, refresh: nat)
    | Revoked(token: string, at: nat)
    | Attempted(ip: string, correct: bool, at: nat)
    | Purged(taken: nat, at: nat)

  function End(ev: Event): nat { if ev.Validated? then ev.refresh else ev.at }

  /** The clock does not run backwards, tokens are never empty. */
  predicate WellTimed(ev: Event, before: nat) {
    && 0 < ev.at && before <= ev.at <= End(ev)
    && (ev.Purged? ==> ev.taken <= ev.at)
    && (ev.Created? ==> ev.token != "")
  }

  predicate Timed(evs: seq<Event>, start: nat)
    decreases |evs|
  {
    |evs| == 0 || (Timed(evs[..|evs| - 1], start) && WellTimed(evs[|evs| - 1], Now(evs[..|evs| - 1], start)))
  }

  /** The time after a run. */
  function Now(evs: seq<Event>, start: nat): nat {
    if |evs| == 0 then start else End(evs[|evs| - 1])
  }

  function Step(s: Store, ev: Event): Store {
    match ev
    case Created(token, at) => Create(s, token, at)
    case Validated(token, at, refresh) => Validate(s, token, at, refresh)
    case Revoked(token, _) => Revoke(s, token)
    case Attempted(ip, correct, at) => Authenticate(s, ip, correct, at)
    case Purged(taken, _) => Purge(s, taken)
  }

  function Run(s: Store, evs: seq<Event>): Store
    decreases |evs|
  {
    if |evs| == 0 then s else Step(Run(s, evs[..|evs| - 1]), evs[|evs| - 1])
  }

  /** The same run with every purge left out. */
  function RunNoPurge(s: Store, evs: seq<Event>): Store
    decreases |evs|
  {
    if |evs| == 0 then s else
    var before := RunNoPurge(s, evs[..|evs| - 1]);
    if evs[|evs| - 1].Purged? then before else Step(before, evs[|evs| - 1])
  }

  const EMPTY := Store(map[], map[])

  // ---------- Sessions ----------

  /**
   Looking back from `now`, the token was validated without a gap of more than 24 hours
   since it was created, and it was not revoked in between.
   */
  predicate Unbroken(evs: seq<Event>, token: string, now: nat)
    decreases |evs|
  {
    if |evs| == 0 then false else
    var before, ev := evs[..|evs| - 1], evs[|evs| - 1];
    match ev
    case Created(t, at) => if t == token then now <= at + 86_400_000 else Unbroken(before, token, now)
    case Validated(t, at, refresh) =>
      if t == token then now <= refresh + 86_400_000 && Unbroken(before, token, at)
      else Unbroken(before, token, now)
    case Revoked(t, _) => t != token && Unbroken(before, token, now)
    case _ => Unbroken(before, token, now)
  }

  lemma {:induction false} NeverEmptyToken(evs: seq<Event>, start: nat, now: nat)
    requires Timed(evs, start)
    ensures !Unbroken(evs, "", now)
    decreases |evs|
  {
    if |evs| == 0 {
    } else {
      var before, ev := evs[..|evs| - 1], evs[|evs| - 1];
      NeverEmptyToken(before, start, now);
      NeverEmptyToken(before, start, ev.at);
    }
  }

  /** A token is live after a run exactly when its history is unbroken, with purging or without. */
  lemma {:induction false} LiveIffUnbroken(evs: seq<Event>, start: nat, token: string, now: nat)
    requires Timed(evs, start) && Now(evs, start) <= now
    ensures Live(Run(EMPTY, evs), token, now) <==> Unbroken(evs, token, now)
    ensures Live(RunNoPurge(EMPTY, evs), token, now) <==> Unbroken(evs, token, now)
    decreases |evs|
  {
    if |evs| == 0 {
    } else {
      var before, ev := evs[..|evs| - 1], evs[|evs| - 1];
      LiveIffUnbroken(before, start, token, now);
      if ev.Validated? && ev.token == token {
        LiveIffUnbroken(before, start, token, ev.at);
        NeverEmptyToken(before, start, ev.at);
      }
    }
  }

  /**
   A validation is answered true exactly when the token was created, not revoked since, and
   no gap between its creation, its validations and now exceeds the lifetime.
   */
  lemma {:induction false} ValidateIsExact(evs: seq<Event>, start: nat, token: string, check: nat)
    requires Timed(evs, start) && Now(evs, start) <= check
    ensures (token != "" && Live(Run(EMPTY, evs), token, check)) <==> Unbroken(evs, token, check)
  {
    LiveIffUnbroken(evs, start, token, check);
    NeverEmptyToken(evs, start, check);
  }

  /** The background purge cannot be observed through validations. */
  lemma {:induction false} PurgeIsUnobservable(evs: seq<Event>, start: nat, token: string, check: nat)
    requires Timed(evs, start) && Now(evs, start) <= check
    ensures Live(Run(EMPTY, evs), token, check) <==> Live(RunNoPurge(EMPTY, evs), token, check)
  {
    LiveIffUnbroken(evs, start, token, check);
  }

  // ---------- The login limiter ----------

  /** No record ever reaches the threshold. */
  predicate CountsOk(s: Store) {
    forall ip :: ip in s.failures ==> s.failures[ip].count < MAX_FAILURES
  }

  lemma {:induction false} StepCounts(s: Store, ev: Event)
    requires CountsOk(s)
    ensures CountsOk(Step(s, ev))
  {
  }

  lemma {:induction false} RunCounts(s: Store, evs: seq<Event>)
    requires CountsOk(s)
    ensures CountsOk(Run(s, evs))
    decreases |evs|
  {
    if |evs| == 0 {
    } else {
      RunCounts(s, evs[..|evs| - 1]);
      StepCounts(Run(s, evs[..|evs| - 1]), evs[|evs| - 1]);
    }
  }

  /** What happened to one address: admitted failures, bans, and the partial counts that were dropped. */
  datatype Ledger = Ledger(admitted: nat, bans: nat, drops: seq<nat>)

  function Entry(s: Store, ev: Event, ip: string, l: Ledger): Ledger {
    match ev
    case Attempted(a, correct, at) =>
      if a != ip then l else
      (match Judge(s, ip, correct, at)
       case Banned => l
       case Accepted => if ip in s.failures then l.(drops := l.drops + [s.failures[ip].count]) else l
       case Refused =>
         Ledger(l.admitted + 1, if Fail(RecordOf(s, ip), at).bannedUntil > at then l.bans + 1 else l.bans, l.drops))
    case Purged(taken, _) =>
      if ip in s.failures && ip !in PurgeFailures(s.failures, taken)
      then l.(drops := l.drops + [s.failures[ip].count]) else l
    case _ => l
  }

  function Account(s: Store, evs: seq<Event>, ip: string): Ledger
    decreases |evs|
  {
    if |evs| == 0 then Ledger(0, 0, []) else
    var before := evs[..|evs| - 1];
    Entry(Run(s, before), evs[|evs| - 1], ip, Account(s, before, ip))
  }

  function Sum(xs: seq<nat>): nat {
    if |xs| == 0 then 0 else Sum(xs[..|xs| - 1]) + xs[|xs| - 1]
  }

  lemma {:induction false} SumAppend(xs: seq<nat>, x: nat)
    ensures Sum(xs + [x]) == Sum(xs) + x
  {
    assert (xs + [x])[..|xs|] == xs;
  }

  /** One event keeps the books balanced. */
  lemma {:induction false} EntryBalances(s: Store, ev: Event, ip: string, l: Ledger)
    requires CountsOk(s)
    ensures var s', l' := Step(s, ev), Entry(s, ev, ip, l);
            && l'.admitted + MAX_FAILURES * l.bans + RecordOf(s, ip).count + Sum(l.drops)
               == l.admitted + MAX_FAILURES * l'.bans + RecordOf(s', ip).count + Sum(l'.drops)
            && (l'.drops == l.drops || l'.drops == l.drops + [RecordOf(s, ip).count])
  {
    SumAppend(l.drops, RecordOf(s, ip).count);
    match ev {
      case Attempted(a, correct, at) =>
      case Purged(taken, _) =>
      case _ =>
    }
  }

  /**
   Every admitted failure is accounted for: ten for each ban, the current count, and the
   counts dropped by successful logins and purges, each of which is at most nine.
   */
  lemma {:induction false} FailuresAreAccounted(evs: seq<Event>, ip: string)
    ensures var s, l := Run(EMPTY, evs), Account(EMPTY, evs, ip);
            && l.admitted == 10 * l.bans + RecordOf(s, ip).count + Sum(l.drops)
            && forall k :: 0 <= k < |l.drops| ==> l.drops[k] <= 9
    decreases |evs|
  {
    if |evs| == 0 {
    } else {
      var before, ev := evs[..|evs| - 1], evs[|evs| - 1];
      FailuresAreAccounted(before, ip);
      RunCounts(EMPTY, before);
      EntryBalances(Run(EMPTY, before), ev, ip, Account(EMPTY, before, ip));
    }
  }

  // ---------- Bans hold ----------

  /** No event of the run reaches time `limit`. */
  predicate Until(evs: seq<Event>, limit: nat) {
    forall k :: 0 <= k < |evs| ==> evs[k].at < limit && (evs[k].Purged? ==> evs[k].taken < limit)
  }

  /**
   A ban that is in force stays in force until its end, whatever else happens meanwhile:
   the record is untouched and every attempt, even with the right password, is rejected.
   */
  lemma {:induction false} BanHolds(s: Store, evs: seq<Event>, ip: string, correct: bool, now: nat)
    requires ip in s.failures && Until(evs, s.failures[ip].bannedUntil) && now < s.failures[ip].bannedUntil
    ensures ip in Run(s, evs).failures && Run(s, evs).failures[ip] == s.failures[ip]
    ensures Judge(Run(s, evs), ip, correct, now) == Banned
    ensures Account(s, evs, ip) == Ledger(0, 0, [])
    decreases |evs|
  {
    if |evs| == 0 {
    } else {
      BanHolds(s, evs[..|evs| - 1], ip, correct, now);
    }
  }

  /** The failures in a row: admitted, not yet answered by a ban, and not dropped by a success or a purge. */
  function InARow(l: Ledger): int { l.admitted - 10 * l.bans - Sum(l.drops) }

  /** From `start` on, every attempt is rejected exactly until `end`. */
  ghost predicate BannedFor(s: Store, ip: string, start: nat, end: nat) {
    forall now: nat, correct: bool :: start <= now ==> (Judge(s, ip, correct, now) == Banned <==> now < end)
  }

  /**
   Over every history, an event starts a ban if and only if it is an admitted failure of the
   address and nine failures in a row came before it.  The ban is for an hour from then on,
   and any other event starts none.
   */
  lemma {:induction false} TenthFailureBans(evs: seq<Event>, ev: Event, ip: string)
    ensures var s, l := Run(EMPTY, evs), Account(EMPTY, evs, ip);
            var l' := Account(EMPTY, evs + [ev], ip);
            && (l'.bans == l.bans || l'.bans == l.bans + 1)
            && (l'.bans == l.bans + 1 <==>
                  && ev.Attempted? && ev.ip == ip && Judge(s, ip, ev.correct, ev.at) == Refused
                  && InARow(l) == 9)
            && (l'.bans == l.bans + 1 ==>
                  && RecordOf(Run(EMPTY, evs + [ev]), ip) == Record(0, ev.at + 3_600_000)
                  && BannedFor(Run(EMPTY, evs + [ev]), ip, ev.at, ev.at + 3_600_000))
  {
    var all := evs + [ev];
    assert all[..|all| - 1] == evs && all[|all| - 1] == ev;
    FailuresAreAccounted(evs, ip);
    RunCounts(EMPTY, evs);
  }

  // ---------- Who gets in ----------

  /** Event number `k` started a ban of the address. */
  predicate BanBegan(evs: seq<Event>, k: int, ip: string) {
    0 <= k < |evs| && Account(EMPTY, evs[..k + 1], ip).bans > Account(EMPTY, evs[..k], ip).bans
  }

  /** A ban that began less than an hour before `at` is in force. */
  ghost predicate BanInForce(evs: seq<Event>, ip: string, at: nat) {
    exists k :: BanBegan(evs, k, ip) && at < evs[k].at + 3_600_000
  }

  /** The record speaks of a ban that was, and of every ban that is not over. */
  ghost predicate RecordsBans(evs: seq<Event>, ip: string, start: nat) {
    var until := UntilOf(evs, ip);
    && (until > 0 ==> exists k :: BanBegan(evs, k, ip) && until == evs[k].at + 3_600_000)
    && forall k :: BanBegan(evs, k, ip) ==> evs[k].at + 3_600_000 <= until || evs[k].at + 3_600_000 <= Now(evs, start)
  }

  lemma {:induction false} BansStay(before: seq<Event>, ev: Event, ip: string)
    ensures forall k :: 0 <= k < |before| ==> (BanBegan(before + [ev], k, ip) <==> BanBegan(before, k, ip))
    ensures BanBegan(before + [ev], |before|, ip) <==>
            Account(EMPTY, before + [ev], ip).bans > Account(EMPTY, before, ip).bans
  {
    var evs := before + [ev];
    forall k | 0 <= k < |before| ensures BanBegan(evs, k, ip) <==> BanBegan(before, k, ip) {
      assert evs[..k + 1] == before[..k + 1] && evs[..k] == before[..k];
    }
    assert evs[..|before| + 1] == evs && evs[..|before|] == before;
  }

  function UntilOf(evs: seq<Event>, ip: string): nat { RecordOf(Run(EMPTY, evs), ip).bannedUntil }

  /** The end of the last ban moves with a new ban only, and is forgotten only when it has passed. */
  lemma {:induction false} UntilMoves(before: seq<Event>, ev: Event, ip: string, start: nat)
    requires WellTimed(ev, Now(before, start))
    ensures var evs := before + [ev];
            if BanBegan(evs, |before|, ip) then UntilOf(before, ip) <= ev.at && UntilOf(evs, ip) == ev.at + 3_600_000
            else UntilOf(evs, ip) == UntilOf(before, ip) || (UntilOf(evs, ip) == 0 && UntilOf(before, ip) <= ev.at)
  {
    var evs := before + [ev];
    assert evs[..|evs| - 1] == before && evs[|evs| - 1] == ev;
    assert evs[..|before| + 1] == evs && evs[..|before|] == before;
    TenthFailureBans(before, ev, ip);
  }

  lemma {:induction false} BansAreRecorded(evs: seq<Event>, ip: string, start: nat)
    requires Timed(evs, start)
    ensures RecordsBans(evs, ip, start)
    decreases |evs|
  {
    if |evs| == 0 {
    } else {
      hide Run, RecordOf, Account, BanBegan;
      var before, ev := evs[..|evs| - 1], evs[|evs| - 1];
      assert evs == before + [ev];
      BansAreRecorded(before, ip, start);
      BansStay(before, ev, ip);
      UntilMoves(before, ev, ip, start);
      BanHasIndex(evs, ip);
      BanHasIndex(before, ip);
      if UntilOf(evs, ip) > 0 && !BanBegan(evs, |before|, ip) {
        var k :| BanBegan(before, k, ip) && UntilOf(before, ip) == before[k].at + 3_600_000;
        assert BanBegan(evs, k, ip) && evs[k] == before[k];
      }
      forall k | BanBegan(evs, k, ip)
        ensures evs[k].at + 3_600_000 <= UntilOf(evs, ip) || evs[k].at + 3_600_000 <= Now(evs, start)
      {
        if k < |before| {
          assert BanBegan(before, k, ip) && evs[k] == before[k];
        }
      }
    }
  }

  lemma {:induction false} BanHasIndex(evs: seq<Event>, ip: string)
    ensures forall k :: BanBegan(evs, k, ip) ==> 0 <= k < |evs|
  {
  }

  /**
   Over every timed history, an attempt is accepted if and only if the password is correct and
   no ban of that address is in force; it is turned away without a look at the password if and
   only if one is.
   */
  lemma {:induction false} AcceptedIff(evs: seq<Event>, start: nat, ip: string, correct: bool, at: nat)
    requires Timed(evs, start) && Now(evs, start) <= at
    ensures var verdict := Judge(Run(EMPTY, evs), ip, correct, at);
            && (verdict == Accepted <==> correct && !BanInForce(evs, ip, at))
            && (verdict == Refused <==> !correct && !BanInForce(evs, ip, at))
            && (verdict == Banned <==> BanInForce(evs, ip, at))
  {
    BansAreRecorded(evs, ip, start);
  }

  /**
   What a purge leaves: of the tokens exactly those still alive, and of the failure records
   none but those of bans that had not ended, and all of those still in force.
   */
  lemma {:induction false} PurgeLeavesOnly(evs: seq<Event>, start: nat, taken: nat, token: string, ip: string)
    requires Timed(evs, start)
    ensures var s := Purge(Run(EMPTY, evs), taken);
            && (Now(evs, start) <= taken ==> (token in s.sessions <==> Unbroken(evs, token, taken)))
            && (ip in s.failures <==> ip in Run(EMPTY, evs).failures && taken <= UntilOf(evs, ip))
            && (ip in s.failures ==> taken == 0 || exists k :: BanBegan(evs, k, ip) && taken <= evs[k].at + 3_600_000)
            && (Now(evs, start) <= taken && BanInForce(evs, ip, taken) ==> ip in s.failures)
  {
    BansAreRecorded(evs, ip, start);
    if Now(evs, start) <= taken {
      LiveIffUnbroken(evs, start, token, taken);
    }
  }

  // ---------- The rate of admitted failures ----------

  /**
   What the run leaves behind: failures and bans since `start` balance with the counts, the
   bans are at least an hour apart, and after a ban further failures had to wait for its end.
   */
  ghost predicate Paced(s: Store, evs: seq<Event>, ip: string, start: nat, last: nat) {
    var r, l, now := Run(s, evs), Account(s, evs, ip), Now(evs, start);
    && l.admitted + RecordOf(s, ip).count == MAX_FAILURES * l.bans + RecordOf(r, ip).count + Sum(l.drops)
    && (l.bans > 0 ==>
          && start + (l.bans - 1) * BAN <= last <= now
          && (RecordOf(r, ip).bannedUntil == last + BAN || last + BAN <= now)
          && (RecordOf(r, ip).count > 0 ==> last + BAN <= now))
  }

  lemma {:induction false} PacedRun(s: Store, evs: seq<Event>, ip: string, start: nat) returns (last: nat)
    requires CountsOk(s) && Timed(evs, start)
    ensures Paced(s, evs, ip, start, last)
    decreases |evs|
  {
    last := start;
    if |evs| == 0 {
    } else {
      var before, ev := evs[..|evs| - 1], evs[|evs| - 1];
      last := PacedRun(s, before, ip, start);
      RunCounts(s, before);
      PacedStep(s, evs, ip, start, last);
      if Account(s, evs, ip).bans > Account(s, before, ip).bans {
        last := ev.at;
      }
    }
  }

  lemma {:induction false} PacedStep(s: Store, evs: seq<Event>, ip: string, start: nat, last: nat)
    requires |evs| > 0 && Timed(evs, start)
    requires Paced(s, evs[..|evs| - 1], ip, start, last) && CountsOk(Run(s, evs[..|evs| - 1]))
    ensures Paced(s, evs, ip, start,
                  if Account(s, evs, ip).bans > Account(s, evs[..|evs| - 1], ip).bans then evs[|evs| - 1].at else last)
  {
    var before, ev := evs[..|evs| - 1], evs[|evs| - 1];
    var m, l := Run(s, before), Account(s, before, ip);
    EntryBalances(m, ev, ip, l);
    var l' := Account(s, evs, ip);
    assert l'.bans == l.bans || l'.bans == l.bans + 1;
    TimedForward(before, start);
    if l.bans > 0 && l'.bans > l.bans {
      assert last + BAN <= ev.at;
      assert start + (l.bans - 1) * BAN + BAN <= ev.at;
    }
  }

  lemma {:induction false} DropsAreSmall(s: Store, evs: seq<Event>, ip: string)
    requires CountsOk(s)
    ensures Sum(Account(s, evs, ip).drops) <= (MAX_FAILURES - 1) * |Account(s, evs, ip).drops|
    decreases |evs|
  {
    if |evs| == 0 {
    } else {
      var before := evs[..|evs| - 1];
      DropsAreSmall(s, before, ip);
      RunCounts(s, before);
      EntryBalances(Run(s, before), evs[|evs| - 1], ip, Account(s, before, ip));
      SumAppend(Account(s, before, ip).drops, RecordOf(Run(s, before), ip).count);
    }
  }

  /**
   In any window of length W an address gets at most 10 * (floor(W / 1 h) + 1) failures
   admitted, however the attempts are timed, plus those that successes and purges forgot,
   at most nine each time.
   */
  lemma {:induction false} FailureRateIsBounded(s: Store, evs: seq<Event>, ip: string, start: nat)
    requires CountsOk(s) && Timed(evs, start)
    ensures Now(evs, start) >= start
    ensures var l, most := Account(s, evs, ip), 10 * ((Now(evs, start) - start) / 3_600_000 + 1);
            l.admitted <= most + Sum(l.drops) <= most + 9 * |l.drops|
  {
    var last := PacedRun(s, evs, ip, start);
    var l, w := Account(s, evs, ip), Now(evs, start) - start;
    TimedForward(evs, start);
    DropsAreSmall(s, evs, ip);
    RunCounts(s, evs);
    if l.bans > 0 {
      var k := if RecordOf(Run(s, evs), ip).count > 0 then l.bans else l.bans - 1;
      assert k * BAN <= w;
      Quotient(k, w);
    }
  }

  /** How many purges the run has. */
  function Purges(evs: seq<Event>): nat {
    if |evs| == 0 then 0 else Purges(evs[..|evs| - 1]) + if evs[|evs| - 1].Purged? then 1 else 0
  }

  /** How many logins from the address succeed in the run. */
  function Successes(s: Store, evs: seq<Event>, ip: string): nat
    decreases |evs|
  {
    if |evs| == 0 then 0 else
    var before, ev := evs[..|evs| - 1], evs[|evs| - 1];
    Successes(s, before, ip)
      + if ev.Attempted? && ev.ip == ip && Judge(Run(s, before), ip, ev.correct, ev.at).Accepted? then 1 else 0
  }

  /** Every dropped count is the work of one purge or one successful login. */
  lemma {:induction false} DropsAreCounted(s: Store, evs: seq<Event>, ip: string)
    ensures |Account(s, evs, ip).drops| <= Purges(evs) + Successes(s, evs, ip)
    decreases |evs|
  {
    if |evs| == 0 {
    } else {
      DropsAreCounted(s, evs[..|evs| - 1], ip);
    }
  }

  /** Purges are at least the janitor's period apart. */
  predicate PurgesApart(evs: seq<Event>) {
    forall i, j :: 0 <= i < j < |evs| && evs[i].Purged? && evs[j].Purged? ==> evs[i].at + 600_000 <= evs[j].at
  }

  /** With purges so far apart, the last of them was at `last`, and so many fit into the window. */
  ghost predicate PurgesFit(evs: seq<Event>, start: nat, last: nat) {
    Purges(evs) > 0 ==>
      && start + (Purges(evs) - 1) * 600_000 <= last <= Now(evs, start)
      && exists i :: 0 <= i < |evs| && evs[i].Purged? && evs[i].at == last
  }

  lemma {:induction false} PurgesAreFew(evs: seq<Event>, start: nat) returns (last: nat)
    requires Timed(evs, start) && PurgesApart(evs)
    ensures PurgesFit(evs, start, last)
    decreases |evs|
  {
    last := start;
    if |evs| == 0 {
    } else {
      var before, ev := evs[..|evs| - 1], evs[|evs| - 1];
      TimedForward(before, start);
      last := PurgesAreFew(before, start);
      if Purges(before) > 0 {
        var i :| 0 <= i < |before| && before[i].Purged? && before[i].at == last;
        assert evs[i] == before[i];
      }
      if ev.Purged? {
        assert evs[|evs| - 1].at == ev.at;
        last := ev.at;
      }
    }
  }

  /**
   The guessing rate the limiter allows.  With purges ten minutes apart, a window of length W
   admits at most 10 * (floor(W / 1 h) + 1) failures, and nine more for each ten minutes begun
   and each successful login from that address.
   */
  lemma {:induction false} GuessingRate(s: Store, evs: seq<Event>, ip: string, start: nat)
    requires CountsOk(s) && Timed(evs, start) && PurgesApart(evs)
    ensures Now(evs, start) >= start
    ensures var w := Now(evs, start) - start;
            Account(s, evs, ip).admitted <=
              10 * (w / 3_600_000 + 1) + 9 * (w / 600_000 + 1 + Successes(s, evs, ip))
  {
    FailureRateIsBounded(s, evs, ip, start);
    DropsAreCounted(s, evs, ip);
    var last := PurgesAreFew(evs, start);
    var w := Now(evs, start) - start;
    if Purges(evs) > 0 {
      var k := Purges(evs) - 1;
      assert k * 600_000 <= w;
      assert k <= w / 600_000;
    }
  }

  /** Neither a success nor a purge resets a partial count of the address during the run. */
  predicate NoReset(s: Store, evs: seq<Event>, ip: string) {
    forall k :: 0 <= k < |Account(s, evs, ip).drops| ==> Account(s, evs, ip).drops[k] == 0
  }

  lemma {:induction false} SumOfZeros(xs: seq<nat>)
    requires forall k :: 0 <= k < |xs| ==> xs[k] == 0
    ensures Sum(xs) == 0
    decreases |xs|
  {
    if |xs| == 0 {
    } else {
      SumOfZeros(xs[..|xs| - 1]);
    }
  }

  /** Without such a reset the bound is 10 * (floor(W / 1 h) + 1). */
  lemma {:induction false} RateWithoutResets(s: Store, evs: seq<Event>, ip: string, start: nat)
    requires CountsOk(s) && Timed(evs, start) && NoReset(s, evs, ip)
    ensures Now(evs, start) >= start
    ensures Account(s, evs, ip).admitted <= 10 * ((Now(evs, start) - start) / 3_600_000 + 1)
  {
    FailureRateIsBounded(s, evs, ip, start);
    SumOfZeros(Account(s, evs, ip).drops);
  }

  lemma {:induction false} TimedForward(evs: seq<Event>, start: nat)
    requires Timed(evs, start)
    ensures Now(evs, start) >= start
    decreases |evs|
  {
    if |evs| == 0 {
    } else {
      TimedForward(evs[..|evs| - 1], start);
    }
  }

  lemma {:induction false} Quotient(k: nat, w: nat)
    requires k * BAN <= w
    ensures k <= w / BAN
  {
  }
}
