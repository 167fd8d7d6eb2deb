/** The per-token attempt counter of `login_2fa` in `backend/routers/auth.py`.  Requests are
    handled one at a time with one clock reading each, in microseconds; a pre-auth token carries
    its expiry in whole seconds. */
module Challenge {
  const MAX_CHALLENGE_ATTEMPTS := 5
  const SECOND := 1_000_000

  datatype Counter = Counter(attempts: nat, exp: int)

  type Counters = map<string, Counter>

  /** One request: the rate limiter's verdict, whether the token has a good signature, stage and
      subject, its id and expiry, the clock, whether the user may log in, and the code's verdict. */
  datatype Request = Request(limited: bool, wellFormed: bool, jti: string, exp: int, now: int, userOk: bool, codeOk: bool)

  datatype Outcome = RateLimited | InvalidToken | TooManyAttempts | NoSuchUser | WrongCode | LoggedIn

  /** `decode_access_token`: the expiry claim is compared with the clock in whole seconds
      (section 4.1.4 of RFC 7519). */
  predicate Decodes(r: Request) { r.wellFormed && r.now / SECOND <= r.exp }

  /** The clock reading is not past the expiry instant itself. */
  predicate Timely(r: Request) { r.now <= r.exp * 1_000_000 }

  /** A good token decodes until a whole second has passed since its expiry instant. */
  lemma DecodesIff(r: Request)
    ensures Decodes(r) <==> r.wellFormed && r.now < (r.exp + 1) * 1_000_000
  {
  }

  /** `_cleanup_challenge_attempts`. */
  function Cleaned(m: Counters, now: int): Counters
  {
    map k | k in m && m[k].exp * SECOND >= now :: m[k]
  }

  function Count(m: Counters, jti: string): nat { if jti in m then m[jti].attempts else 0 }

  function OutcomeOf(m: Counters, r: Request): Outcome
  {
    if r.limited then RateLimited
    else if !Decodes(r) then InvalidToken
    else if Count(Cleaned(m, r.now), r.jti) >= MAX_CHALLENGE_ATTEMPTS then TooManyAttempts
    else if !r.userOk then NoSuchUser
    else if !r.codeOk then WrongCode
    else LoggedIn
  }

  function Handled(m: Counters, r: Request): Counters
  {
    var kept := Cleaned(m, r.now);
    match OutcomeOf(m, r)
    case RateLimited => m
    case InvalidToken => m
    case TooManyAttempts => kept
    case NoSuchUser => kept
    case WrongCode => kept[r.jti := Counter(Count(kept, r.jti) + 1, r.exp)]
    case LoggedIn => kept - {r.jti}
  }

  /** `_challenge_attempts` and the code that changes it. */
  class ChallengeStore {
    var attempts: Counters

    constructor ()
      ensures attempts == map[]
    {
      attempts := map[];
    }

    /** `_cleanup_challenge_attempts`: collect the expired keys, then pop them one by one. */
    method Cleanup(now: int)
      modifies this
      ensures attempts == Cleaned(old(attempts), now)
      ensures forall k :: k in attempts <==> k in old(attempts) && old(attempts)[k].exp * 1_000_000 >= now
      ensures forall k :: k in attempts ==> attempts[k] == old(attempts)[k]
    {
      var stale := set k | k in attempts && attempts[k].exp * SECOND < now;
      while stale != {}
        invariant attempts.Keys <= old(attempts).Keys && stale <= attempts.Keys
        invariant forall k :: k in attempts ==> attempts[k] == old(attempts)[k]
        invariant forall k :: k in old(attempts) && (old(attempts)[k].exp * SECOND >= now || k in stale) ==> k in attempts
        invariant forall k :: k in attempts && attempts[k].exp * SECOND < now ==> k in stale
        invariant forall k :: k in stale ==> attempts[k].exp * SECOND < now
        decreases stale
      {
        var k :| k in stale;
        attempts := attempts - {k};
        stale := stale - {k};
      }
    }

    /** The counter logic of `login_2fa`. */
    method LoginTwoFactor(r: Request) returns (outcome: Outcome)
      modifies this
      ensures outcome == OutcomeOf(old(attempts), r) && attempts == Handled(old(attempts), r)
    {
      if r.limited { return RateLimited; }
      if !Decodes(r) { return InvalidToken; }
      Cleanup(r.now);
      var made := if r.jti in attempts then attempts[r.jti].attempts else 0;
      if made >= MAX_CHALLENGE_ATTEMPTS { return TooManyAttempts; }
      if !r.userOk { return NoSuchUser; }
      if !r.codeOk {
        attempts := attempts[r.jti := Counter(made + 1, r.exp)];
        return WrongCode;
      }
      attempts := attempts - {r.jti};
      return LoggedIn;
    }
  }

  // ── runs, and a counter that never forgets ─────────────────────────────────

  function StateAfter(reqs: seq<Request>): Counters
  {
    if reqs == [] then map[] else Handled(StateAfter(reqs[..|reqs| - 1]), reqs[|reqs| - 1])
  }

  /** Failed verifications of a token since its last success, counted over the whole run. */
  function Fails(reqs: seq<Request>, jti: string): nat
  {
    if reqs == [] then 0
    else
      var before, r := reqs[..|reqs| - 1], reqs[|reqs| - 1];
      if r.jti != jti then Fails(before, jti)
      else match OutcomeOf(StateAfter(before), r)
        case WrongCode => Fails(before, jti) + 1
        case LoggedIn => 0
        case _ => Fails(before, jti)
  }

  /** A clock that does not run backwards, and one expiry per token id. */
  ghost predicate WellFormedRun(reqs: seq<Request>)
  {
    && (forall i, j :: 0 <= i < j < |reqs| ==> reqs[i].now <= reqs[j].now)
    && (forall i, j :: 0 <= i < j < |reqs| && reqs[i].jti == reqs[j].jti ==> reqs[i].exp == reqs[j].exp)
  }

  /** Cleanup never costs an unexpired token its counter: until the expiry instant the stored count
      is the complete one. */
  lemma {:induction false} CounterIsComplete(reqs: seq<Request>, jti: string, exp: int, now: int)
    requires forall i :: 0 <= i < |reqs| ==> reqs[i].now <= now && (reqs[i].jti == jti ==> reqs[i].exp == exp)
    requires now <= exp * SECOND
    ensures Count(StateAfter(reqs), jti) == Fails(reqs, jti)
    ensures jti in StateAfter(reqs) ==> StateAfter(reqs)[jti].exp == exp
  {
    if reqs != [] {
      CounterIsComplete(reqs[..|reqs| - 1], jti, exp, now);
    }
  }

  /** A timely request is judged on the complete count of its token, with a verdict for every case:
      in particular a good request with the right code and fewer than five failures logs in. */
  lemma JudgedOnFullCount(reqs: seq<Request>, r: Request)
    requires WellFormedRun(reqs + [r]) && Timely(r)
    ensures var outcome, fails := OutcomeOf(StateAfter(reqs), r), Fails(reqs, r.jti);
            && (outcome == RateLimited <==> r.limited)
            && (outcome == InvalidToken <==> !r.limited && !r.wellFormed)
            && (outcome == TooManyAttempts <==> !r.limited && r.wellFormed && fails >= 5)
            && (outcome == NoSuchUser <==> !r.limited && r.wellFormed && fails < 5 && !r.userOk)
            && (outcome == WrongCode <==> !r.limited && r.wellFormed && fails < 5 && r.userOk && !r.codeOk)
            && (outcome == LoggedIn <==> !r.limited && r.wellFormed && fails < 5 && r.userOk && r.codeOk)
  {
    var all := reqs + [r];
    assert all[|reqs|] == r;
    assert forall i :: 0 <= i < |reqs| ==> all[i] == reqs[i];
    CounterIsComplete(reqs, r.jti, r.exp, r.now);
    DecodesIff(r);
  }

  /** The failures stored for a token that is not past its expiry instant. */
  function Live(m: Counters, jti: string, now: int): nat
  {
    if jti in m && m[jti].exp * 1_000_000 >= now then m[jti].attempts else 0
  }

  /** A success forgets the token's failures and a wrong code adds one; requests turned away before
      the counters change nothing; every other token keeps its count until it expires. */
  lemma HandledEffect(m: Counters, r: Request, other: string)
    ensures var m', outcome := Handled(m, r), OutcomeOf(m, r);
            && (outcome == LoggedIn ==> r.jti !in m')
            && (outcome == WrongCode ==> r.jti in m' && m'[r.jti] == Counter(Live(m, r.jti, r.now) + 1, r.exp))
            && (outcome == RateLimited || outcome == InvalidToken ==> m' == m)
            && (other != r.jti || outcome == TooManyAttempts || outcome == NoSuchUser ==>
                  Live(m', other, r.now) == Live(m, other, r.now) && (other in m' ==> other in m && m'[other] == m[other]))
  {
  }

  /** A decoded request past the expiry instant of its token. */
  predicate Late(r: Request) { Decodes(r) && !Timely(r) }

  function LateRequests(reqs: seq<Request>, jti: string): nat
  {
    if reqs == [] then 0
    else
      LateRequests(reqs[..|reqs| - 1], jti)
      + if reqs[|reqs| - 1].jti == jti && Late(reqs[|reqs| - 1]) then 1 else 0
  }

  /** Over every run, a token has at most five failed verifications since its last success, and one
      more for each late request. */
  lemma {:induction false} FailsAreBounded(reqs: seq<Request>, jti: string)
    requires WellFormedRun(reqs)
    ensures Fails(reqs, jti) <= 5 + LateRequests(reqs, jti)
  {
    if reqs != [] {
      var before, r := reqs[..|reqs| - 1], reqs[|reqs| - 1];
      FailsAreBounded(before, jti);
      if r.jti == jti && OutcomeOf(StateAfter(before), r) == WrongCode && Timely(r) {
        assert before + [r] == reqs;
        JudgedOnFullCount(before, r);
      }
    }
  }

  lemma {:induction false} NoneLate(reqs: seq<Request>, jti: string)
    requires forall r :: r in reqs ==> !Late(r)
    ensures LateRequests(reqs, jti) == 0
  {
    if reqs != [] {
      NoneLate(reqs[..|reqs| - 1], jti);
    }
  }

  /** Over every run without late requests, a token never has more than five failed verifications
      since its last success. */
  lemma AtMostFiveFails(reqs: seq<Request>, jti: string)
    requires WellFormedRun(reqs) && forall r :: r in reqs ==> !Late(r)
    ensures Fails(reqs, jti) <= 5
  {
    FailsAreBounded(reqs, jti);
    NoneLate(reqs, jti);
  }

  /** Some run without late requests becomes, by request `r`, one with a sixth failure. */
  ghost predicate CanExceed(r: Request)
  {
    exists reqs :: WellFormedRun(reqs + [r]) && (forall q :: q in reqs ==> !Late(q))
                && Fails(reqs + [r], r.jti) > 5
  }

  /** The failures of `r` repeated at its expiry instant, the last moment that is not late. */
  function FailuresAtExpiry(r: Request, n: nat): seq<Request>
  {
    seq(n, i => r.(now := r.exp * SECOND))
  }

  lemma FailureAtExpiry(m: Counters, q: Request, n: nat)
    requires !q.limited && q.wellFormed && q.userOk && !q.codeOk && q.now == q.exp * SECOND && n < MAX_CHALLENGE_ATTEMPTS
    requires m == if n == 0 then map[] else map[q.jti := Counter(n, q.exp)]
    ensures OutcomeOf(m, q) == WrongCode && Handled(m, q) == map[q.jti := Counter(n + 1, q.exp)]
  {
    assert Cleaned(m, q.now) == m;
  }

  lemma {:induction false} FailuresAtExpiryCount(r: Request, n: nat)
    requires !r.limited && r.wellFormed && r.userOk && !r.codeOk && n <= MAX_CHALLENGE_ATTEMPTS
    ensures var reqs := FailuresAtExpiry(r, n);
            Fails(reqs, r.jti) == n && StateAfter(reqs) == if n == 0 then map[] else map[r.jti := Counter(n, r.exp)]
  {
    if n > 0 {
      FailuresAtExpiryCount(r, n - 1);
      var reqs := FailuresAtExpiry(r, n);
      assert reqs[..n - 1] == FailuresAtExpiry(r, n - 1);
      FailureAtExpiry(StateAfter(reqs[..n - 1]), reqs[n - 1], n - 1);
    }
  }

  lemma PrefixWellFormed(reqs: seq<Request>, r: Request)
    requires WellFormedRun(reqs + [r])
    ensures WellFormedRun(reqs)
  {
    var all := reqs + [r];
    assert forall i :: 0 <= i < |reqs| ==> reqs[i] == all[i];
  }

  /** Five failures at the expiry instant do not stop a sixth right after it. */
  lemma LateRequestExceeds(r: Request)
    requires Late(r) && !r.limited && r.userOk && !r.codeOk
    ensures CanExceed(r)
  {
    var five := FailuresAtExpiry(r, MAX_CHALLENGE_ATTEMPTS);
    FailuresAtExpiryCount(r, MAX_CHALLENGE_ATTEMPTS);
    assert (five + [r])[..|five|] == five;
    assert r.jti !in Cleaned(StateAfter(five), r.now);
    assert OutcomeOf(StateAfter(five), r) == WrongCode;
    assert Fails(five + [r], r.jti) == 6;
  }

  lemma OnlyLateExceeds(reqs: seq<Request>, r: Request)
    requires WellFormedRun(reqs + [r]) && forall q :: q in reqs ==> !Late(q)
    requires Fails(reqs + [r], r.jti) > 5
    ensures Late(r) && !r.limited && r.userOk && !r.codeOk
  {
    assert (reqs + [r])[..|reqs|] == reqs;
    PrefixWellFormed(reqs, r);
    AtMostFiveFails(reqs, r.jti);
    assert OutcomeOf(StateAfter(reqs), r) == WrongCode;
    if !Late(r) {
      AtMostFiveFails(reqs + [r], r.jti);
    }
  }

  /** Lateness is exactly what breaks the bound over runs: a request can be the sixth failure of an
      otherwise timely run if and only if it is a late, unlimited attempt with a wrong code. */
  lemma SixthFailureIffLate(r: Request)
    ensures CanExceed(r) <==> Late(r) && !r.limited && r.userOk && !r.codeOk
  {
    if Late(r) && !r.limited && r.userOk && !r.codeOk {
      LateRequestExceeds(r);
    }
    if CanExceed(r) {
      var reqs :| WellFormedRun(reqs + [r]) && (forall q :: q in reqs ==> !Late(q))
                  && Fails(reqs + [r], r.jti) > 5;
      OnlyLateExceeds(reqs, r);
    }
  }

  /** After a request that got past decoding and was timely, only unexpired tokens are counted. */
  lemma OnlyUnexpiredRemain(m: Counters, r: Request)
    requires !r.limited && Decodes(r) && Timely(r)
    ensures forall k :: k in Handled(m, r) ==> Handled(m, r)[k].exp * 1_000_000 >= r.now
  {
  }

  /** Timeliness is exactly what is needed: a full counter stops a decoded request if and only if
      the request is timely.  Within the second after the expiry instant decoding still accepts the
      token while cleanup already drops its counter. */
  lemma FullCounterStopsIffTimely(m: Counters, r: Request)
    requires !r.limited && Decodes(r) && r.jti in m && m[r.jti] == Counter(5, r.exp)
    ensures OutcomeOf(m, r) == TooManyAttempts <==> Timely(r)
    ensures !Timely(r) <==> r.exp * 1_000_000 < r.now < (r.exp + 1) * 1_000_000
  {
  }
}
