/** The sliding-window login limiter of `backend/routers/auth.py`.  Times are microseconds, the
    resolution of `datetime`. */
module RateLimit {

  const RATE_LIMIT := 5
  const WINDOW := 60_000_000

  /** The list comprehension that forgets attempts at or before the cutoff. */
  function Prune(ts: seq<int>, now: int): (kept: seq<int>)
    ensures |kept| <= |ts|
  {
    if ts == [] then []
    else
      var rest := Prune(ts[..|ts| - 1], now);
      if ts[|ts| - 1] > now - WINDOW then rest + [ts[|ts| - 1]] else rest
  }

  datatype Call = Call(ip: string, at: int)

  type Attempts = map<string, seq<int>>

  /** A `defaultdict(list)` read. */
  function History(attempts: Attempts, ip: string): seq<int>
  {
    if ip in attempts then attempts[ip] else []
  }

  // ── the portal's limiter, which forgets ────────────────────────────────────

  predicate Accepts(attempts: Attempts, c: Call)
  {
    |Prune(History(attempts, c.ip), c.at)| < RATE_LIMIT
  }

  function Checked(attempts: Attempts, c: Call): Attempts
  {
    var kept := Prune(History(attempts, c.ip), c.at);
    attempts[c.ip := if |kept| >= RATE_LIMIT then kept else kept + [c.at]]
  }

  function StateAfter(calls: seq<Call>): Attempts
  {
    if calls == [] then map[]
    else Checked(StateAfter(calls[..|calls| - 1]), calls[|calls| - 1])
  }

  /** `_login_attempts` and `_check_rate_limit`; `ok` is false where status 429 is raised. */
  class Limiter {
    var attempts: Attempts

    constructor ()
      ensures attempts == StateAfter([])
    {
      attempts := map[];
    }

    method CheckRateLimit(ip: string, now: int) returns (ok: bool)
      modifies this
      ensures ok == Accepts(old(attempts), Call(ip, now)) == (|Prune(History(old(attempts), ip), now)| < 5)
      ensures attempts == Checked(old(attempts), Call(ip, now))
    {
      var kept := Prune(History(attempts, ip), now);
      attempts := attempts[ip := kept];
      if |attempts[ip]| >= RATE_LIMIT { return false; }
      attempts := attempts[ip := attempts[ip] + [now]];
      return true;
    }
  }

  // ── a limiter that never forgets ───────────────────────────────────────────

  /** Every accepted attempt of an address, when decisions look at the whole accepted history. */
  function Accepted(calls: seq<Call>, ip: string): seq<int>
    decreases |calls|, 0
  {
    if calls == [] then []
    else
      var before, c := calls[..|calls| - 1], calls[|calls| - 1];
      if c.ip == ip && Allowed(before, c) then Accepted(before, ip) + [c.at] else Accepted(before, ip)
  }

  predicate Allowed(before: seq<Call>, c: Call)
    decreases |before|, 1
  {
    |Prune(Accepted(before, c.ip), c.at)| < RATE_LIMIT
  }

  predicate Nondecreasing(calls: seq<Call>)
  {
    forall i, j :: 0 <= i < j < |calls| ==> calls[i].at <= calls[j].at
  }

  predicate NotBefore(calls: seq<Call>, now: int)
  {
    forall i :: 0 <= i < |calls| ==> calls[i].at <= now
  }

  lemma {:induction false} PruneConcat(a: seq<int>, b: seq<int>, now: int)
    ensures Prune(a + b, now) == Prune(a, now) + Prune(b, now)
  {
    if b == [] {
      assert a + b == a;
    } else {
      assert (a + b)[..|a + b| - 1] == a + b[..|b| - 1];
      PruneConcat(a, b[..|b| - 1], now);
    }
  }

  lemma {:induction false} PruneTwice(ts: seq<int>, earlier: int, now: int)
    requires earlier <= now
    ensures Prune(Prune(ts, earlier), now) == Prune(ts, now)
  {
    if ts != [] {
      var init, last := ts[..|ts| - 1], [ts[|ts| - 1]];
      PruneTwice(init, earlier, now);
      PruneConcat(Prune(init, earlier), last, now);
    }
  }

  lemma CheckAgrees(pruned: seq<int>, full: seq<int>, at: int, now: int)
    requires at <= now && Prune(pruned, at) == Prune(full, at) && Prune(pruned, now) == Prune(full, now)
    ensures Prune(Prune(pruned, at), now) == Prune(full, now)
    ensures Prune(Prune(pruned, at) + [at], now) == Prune(full + [at], now)
  {
    PruneTwice(pruned, at, now);
    PruneConcat(Prune(pruned, at), [at], now);
    PruneConcat(full, [at], now);
  }

  /** Forgetting is invisible: at any later time the pruned list and the complete history keep the
      same attempts. */
  lemma {:induction false} PrunedAgrees(calls: seq<Call>, ip: string, now: int)
    requires Nondecreasing(calls) && NotBefore(calls, now)
    ensures Prune(History(StateAfter(calls), ip), now) == Prune(Accepted(calls, ip), now)
  {
    if calls != [] {
      var before, c := calls[..|calls| - 1], calls[|calls| - 1];
      PrunedAgrees(before, ip, now);
      if c.ip == ip {
        PrunedAgrees(before, ip, c.at);
        CheckAgrees(History(StateAfter(before), ip), Accepted(before, ip), c.at, now);
      }
    }
  }

  /** The limiter decides exactly as one that keeps the complete accepted history. */
  lemma DecidesAsFullHistory(calls: seq<Call>, c: Call)
    requires Nondecreasing(calls) && NotBefore(calls, c.at)
    ensures Accepts(StateAfter(calls), c) == Allowed(calls, c)
  {
    PrunedAgrees(calls, c.ip, c.at);
  }

  // ── what that history looks like ───────────────────────────────────────────

  predicate Sorted(ts: seq<int>) { forall i, j :: 0 <= i < j < |ts| ==> ts[i] <= ts[j] }

  lemma {:induction false} PruneOfSorted(ts: seq<int>, now: int)
    requires Sorted(ts)
    ensures |Prune(ts, now)| < RATE_LIMIT <==> (|ts| < RATE_LIMIT || ts[|ts| - RATE_LIMIT] <= now - WINDOW)
    ensures forall i :: 0 <= i < |ts| ==> (ts[i] > now - WINDOW <==> i >= |ts| - |Prune(ts, now)|)
  {
    if ts != [] {
      var init := ts[..|ts| - 1];
      PruneOfSorted(init, now);
    }
  }

  lemma {:induction false} AcceptedSpacing(calls: seq<Call>, ip: string)
    requires Nondecreasing(calls)
    ensures Sorted(Accepted(calls, ip))
    ensures forall i :: 0 <= i < |Accepted(calls, ip)| - RATE_LIMIT ==>
              Accepted(calls, ip)[i] + WINDOW <= Accepted(calls, ip)[i + RATE_LIMIT]
    ensures forall i :: 0 <= i < |Accepted(calls, ip)| ==> exists j :: 0 <= j < |calls| && calls[j].at == Accepted(calls, ip)[i]
  {
    if calls != [] {
      var before, c := calls[..|calls| - 1], calls[|calls| - 1];
      AcceptedSpacing(before, ip);
      var acc := Accepted(before, ip);
      assert forall j :: 0 <= j < |before| ==> before[j] == calls[j];
      if c.ip == ip && Allowed(before, c) { PruneOfSorted(acc, c.at); }
    }
  }

  /** A lockout ends exactly one window after the fifth-last accepted attempt. */
  lemma LockoutEnds(calls: seq<Call>, c: Call)
    requires Nondecreasing(calls)
    ensures var acc := Accepted(calls, c.ip);
            Allowed(calls, c) <==> (|acc| < 5 || acc[|acc| - 5] + 60_000_000 <= c.at)
  {
    AcceptedSpacing(calls, c.ip);
    PruneOfSorted(Accepted(calls, c.ip), c.at);
  }

  /** How many times lie in the half-open interval [lo, hi). */
  function CountIn(ts: seq<int>, lo: int, hi: int): nat
  {
    if ts == [] then 0
    else CountIn(ts[..|ts| - 1], lo, hi) + if lo <= ts[|ts| - 1] < hi then 1 else 0
  }

  lemma {:induction false} CountBound(ts: seq<int>, lo: int, hi: int, n: nat)
    requires n <= |ts| && forall i :: 0 <= i < |ts| - n ==> ts[i] < lo
    ensures CountIn(ts, lo, hi) <= n
    decreases |ts|
  {
    if ts != [] { CountBound(ts[..|ts| - 1], lo, hi, if n == 0 then 0 else n - 1); }
  }

  lemma {:induction false} SpacedCount(ts: seq<int>, lo: int)
    requires Sorted(ts) && forall i :: 0 <= i < |ts| - RATE_LIMIT ==> ts[i] + WINDOW <= ts[i + RATE_LIMIT]
    ensures CountIn(ts, lo, lo + WINDOW) <= RATE_LIMIT
  {
    var n := |ts|;
    if n <= RATE_LIMIT {
      CountBound(ts, lo, lo + WINDOW, n);
    } else if lo <= ts[n - 1] < lo + WINDOW {
      assert ts[n - 1 - RATE_LIMIT] + WINDOW <= ts[n - 1];
      CountBound(ts, lo, lo + WINDOW, RATE_LIMIT);
    } else {
      SpacedCount(ts[..n - 1], lo);
    }
  }

  /** No address has more than five accepted attempts in any half-open window of 60 seconds. */
  lemma AtMostFivePerWindow(calls: seq<Call>, ip: string, lo: int)
    requires Nondecreasing(calls)
    ensures CountIn(Accepted(calls, ip), lo, lo + 60_000_000) <= 5
  {
    AcceptedSpacing(calls, ip);
    SpacedCount(Accepted(calls, ip), lo);
  }

  /** A closed window can hold six: the bound is about half-open ones. */
  lemma ClosedWindowCanHoldSix()
    ensures var calls := seq(5, _ => Call("a", 0)) + [Call("a", 60_000_000)];
            Nondecreasing(calls) && Accepted(calls, "a") == [0, 0, 0, 0, 0, 60_000_000]
  {
    var five, sixth := seq(5, _ => Call("a", 0)), Call("a", WINDOW);
    AllAtZero(five, 5);
    LockoutEnds(five, sixth);
    assert (five + [sixth])[..5] == five;
  }

  lemma {:induction false} AllAtZero(calls: seq<Call>, n: nat)
    requires |calls| == n <= RATE_LIMIT && forall i :: 0 <= i < n ==> calls[i] == Call("a", 0)
    ensures Accepted(calls, "a") == seq(n, _ => 0)
  {
    if n > 0 {
      AllAtZero(calls[..n - 1], n - 1);
      LockoutEnds(calls[..n - 1], calls[n - 1]);
    }
  }

  /** Rejected attempts never extend a lockout: taking one out of the run changes no later history. */
  lemma {:induction false} RejectedLeavesNoTrace(before: seq<Call>, c: Call, later: seq<Call>, ip: string)
    requires !Allowed(before, c)
    ensures Accepted(before + [c] + later, ip) == Accepted(before + later, ip)
    decreases |later|
  {
    var long, short := before + [c] + later, before + later;
    if later == [] {
      assert long[..|long| - 1] == before && short == before;
    } else {
      var init, last := later[..|later| - 1], later[|later| - 1];
      assert long[..|long| - 1] == before + [c] + init && short[..|short| - 1] == before + init;
      RejectedLeavesNoTrace(before, c, init, ip);
      RejectedLeavesNoTrace(before, c, init, last.ip);
    }
  }

  /** … and no later decision. */
  lemma RejectedChangesNoDecision(before: seq<Call>, c: Call, later: seq<Call>, next: Call)
    requires !Allowed(before, c)
    ensures Allowed(before + [c] + later, next) <==> Allowed(before + later, next)
  {
    RejectedLeavesNoTrace(before, c, later, next.ip);
  }
}
