/** The licence protocol as a state machine: any number of processes (web, worker, …), each with
    its own cache and its own registered Plus implementation, over one shared state.  The requests
    of `backend/routers/license.py` and the routing of `backend/core/plus_protocol.py` are steps;
    requests are handled one at a time.  `log` and `loadedBy` are history variables. */
module LicenseProtocol {
  import opened Text
  import opened License

  datatype Process = Process(cache: Cache, registered: bool, loadedBy: nat)

  datatype Entry =
    | Loaded(pid: nat, at: real, seen: Shared, status: Status)      // a fresh evaluation of `_load_status`
    | Answered(pid: nat, at: real, status: Status, load: nat)       // a `get_license_status` answer and the load it came from
    | Gated(pid: nat, at: real, registered: bool, plus: bool, load: nat)  // a @gate call; `load` is meaningful when registered
    | Hooked(pid: nat, at: real, registered: bool, plus: bool)      // a @lifecycle call
    | Registered(pid: nat)                                          // a Plus implementation was registered
    | TrialMarked(day: int, over: Shared)                           // the trial start date was written over this state

  datatype State = State(procs: seq<Process>, shared: Shared, now: real, log: seq<Entry>)

  datatype Event =
    | Tick(elapsed: real, days: nat)
    | Register(pid: nat)
    | Query(pid: nat)
    | Upload(pid: nat, file: Option<KeyFile>)   // `None`: content refused with status 422
    | Deactivate(pid: nat)
    | StartTrial(pid: nat)
    | GateCall(pid: nat)
    | LifecycleCall(pid: nat)

  predicate Enabled(st: State, e: Event)
  {
    if e.Tick? then e.elapsed >= 0.0 else e.pid < |st.procs|
  }

  // ── primitive effects ──────────────────────────────────────────────────────

  function Log(st: State, e: Entry): State { st.(log := st.log + [e]) }

  /** `get_license_status` in process `pid`. */
  function Refresh(env: Env, st: State, pid: nat): (r: State)
    requires pid < |st.procs|
    ensures |r.procs| == |st.procs| && r.procs[pid].cache.status.Some?
  {
    var p := st.procs[pid];
    if Fresh(p.cache, st.now) then st
    else
      var status := LoadStatus(env, st.shared);
      Log(st.(procs := st.procs[pid := Process(Refreshed(env, st.shared, st.now, p.cache), p.registered, |st.log|)]),
          Loaded(pid, st.now, st.shared, status))
  }

  function Answer(st: State, pid: nat): Status
    requires pid < |st.procs| && st.procs[pid].cache.status.Some?
  {
    st.procs[pid].cache.status.value
  }

  function Ask(env: Env, st: State, pid: nat): (r: State)
    requires pid < |st.procs|
    ensures |r.procs| == |st.procs| && r.procs[pid].cache.status.Some?
  {
    var r := Refresh(env, st, pid);
    Log(r, Answered(pid, st.now, Answer(r, pid), r.procs[pid].loadedBy))
  }

  /** `reset_license_cache` in process `pid`. */
  function ResetCache(st: State, pid: nat): State
    requires pid < |st.procs|
  {
    st.(procs := st.procs[pid := st.procs[pid].(cache := EMPTY_CACHE)])
  }

  /** The tail of every admin request: reset the cache, then answer with the new status. */
  function ResetAndAsk(env: Env, st: State, pid: nat): State
    requires pid < |st.procs|
  {
    Ask(env, ResetCache(st, pid), pid)
  }

  function MarkTrial(env: Env, st: State): State
  {
    var day := st.shared.today;
    Log(st.(shared := st.shared.(trialUsed := true, trialStartedAt := Some(env.isoFormat(day)))), TrialMarked(day, st.shared))
  }

  // ── steps ──────────────────────────────────────────────────────────────────

  /** The status of a valid licence that is not the trial itself. */
  predicate KeyLicensed(s: Status) { s.valid && s.edition != "plus_trial" }

  /** `start_trial` refuses while the answered status is a valid key licence, or the trial was used. */
  predicate TrialMayStart(st: State, s: Status)
  {
    !KeyLicensed(s) && !st.shared.trialUsed
  }

  function Step(env: Env, st: State, e: Event): State
    requires Enabled(st, e)
  {
    match e
    case Tick(elapsed, days) => st.(now := st.now + elapsed, shared := st.shared.(today := st.shared.today + days))
    case Register(pid) =>
      Log(st.(procs := st.procs[pid := st.procs[pid].(registered := true)]), Registered(pid))
    case Query(pid) => Ask(env, st, pid)
    case Upload(pid, file) =>
      if file.None? then st else ResetAndAsk(env, st.(shared := st.shared.(keyFile := file)), pid)
    case Deactivate(pid) =>
      if st.shared.keyFile.None? then st else ResetAndAsk(env, st.(shared := st.shared.(keyFile := None)), pid)
    case StartTrial(pid) =>
      var asked := Ask(env, st, pid);
      if TrialMayStart(asked, Answer(asked, pid)) then ResetAndAsk(env, MarkTrial(env, asked), pid) else asked
    case GateCall(pid) =>
      if !st.procs[pid].registered then Log(st, Gated(pid, st.now, false, false, 0))
      else
        var asked := Refresh(env, st, pid);
        Log(asked, Gated(pid, st.now, true, Answer(asked, pid).valid, asked.procs[pid].loadedBy))
    case LifecycleCall(pid) =>
      var registered := st.procs[pid].registered;
      Log(st, Hooked(pid, st.now, registered, registered))
  }

  ghost predicate Runs(env: Env, st: State, events: seq<Event>)
    decreases |events|
  {
    events == [] || (Enabled(st, events[0]) && Runs(env, Step(env, st, events[0]), events[1..]))
  }

  function After(env: Env, st: State, events: seq<Event>): State
    requires Runs(env, st, events)
    decreases |events|
  {
    if events == [] then st else After(env, Step(env, st, events[0]), events[1..])
  }

  /** Start-up: nothing cached or registered, an empty log; any key file and any trial flags whose
      start date, if the trial was used and the date is readable, is not in the future. */
  ghost predicate Init(env: Env, st: State)
  {
    && (forall p :: p in st.procs ==> p.cache == EMPTY_CACHE && !p.registered)
    && st.log == [] && StartNotInFuture(env, st.shared)
  }

  ghost predicate StartNotInFuture(env: Env, sh: Shared)
  {
    sh.trialUsed && Truthy(sh.trialStartedAt) && env.parseDate(sh.trialStartedAt.value).Some? ==>
      env.parseDate(sh.trialStartedAt.value).value <= sh.today
  }

  // ── the invariant ──────────────────────────────────────────────────────────

  /** How the shared state may evolve: days pass, and a used trial keeps its start date. */
  ghost predicate Later(a: Shared, b: Shared)
  {
    a.today <= b.today && (a.trialUsed ==> b.trialUsed && b.trialStartedAt == a.trialStartedAt)
  }

  /** Entry `i` is a load by `pid`, valued as the shared state said then, and under 60 seconds old at `at`. */
  ghost predicate RecentLoad(env: Env, log: seq<Entry>, i: nat, pid: nat, at: real, status: Status)
  {
    && i < |log| && log[i].Loaded? && log[i].pid == pid && log[i].status == status
    && status == LoadStatus(env, log[i].seen) && log[i].at <= at < log[i].at + 60.0
  }

  /** Process `pid` registered its implementation in one of the first `n` entries. */
  ghost predicate RegisteredBefore(log: seq<Entry>, n: nat, pid: nat)
  {
    exists j :: 0 <= j < n <= |log| && log[j] == Registered(pid)
  }

  ghost predicate GoodEntry(env: Env, st: State, i: nat)
    requires i < |st.log|
  {
    match st.log[i]
    case Loaded(pid, at, seen, status) =>
      status == LoadStatus(env, seen) && at <= st.now && Later(seen, st.shared) && StartNotInFuture(env, seen)
    case Answered(pid, at, status, load) => load < i && RecentLoad(env, st.log, load, pid, at, status)
    case Gated(pid, at, registered, plus, load) =>
      && registered == RegisteredBefore(st.log, i, pid)
      && if registered then load < i && st.log[load].Loaded?
                            && RecentLoad(env, st.log, load, pid, at, st.log[load].status) && plus == st.log[load].status.valid
         else !plus
    case Hooked(pid, at, registered, plus) => plus == registered == RegisteredBefore(st.log, i, pid)
    case Registered(pid) => true
    case TrialMarked(day, _) =>
      && st.shared.trialUsed && st.shared.trialStartedAt == Some(env.isoFormat(day))
      && i > 0 && st.log[i - 1].Answered? && !KeyLicensed(st.log[i - 1].status)
  }

  /** A filled cache holds the status of the load that filled it. */
  ghost predicate GoodProcess(env: Env, st: State, pid: nat)
    requires pid < |st.procs|
  {
    var p := st.procs[pid];
    && p.registered == RegisteredBefore(st.log, |st.log|, pid)
    && (p.cache.status.Some? ==>
      && p.loadedBy < |st.log| && st.log[p.loadedBy].Loaded? && st.log[p.loadedBy].pid == pid
      && st.log[p.loadedBy].status == p.cache.status.value && st.log[p.loadedBy].at == p.cache.loadedAt
      && p.cache.loadedAt <= st.now)
  }

  ghost predicate Inv(env: Env, st: State)
  {
    && (forall i :: 0 <= i < |st.log| ==> GoodEntry(env, st, i))
    && (forall pid :: 0 <= pid < |st.procs| ==> GoodProcess(env, st, pid))
    && StartNotInFuture(env, st.shared)
    && Ordered(st.log) && MarkedOnce(st.log)
  }

  ghost predicate Ordered(log: seq<Entry>)
  {
    forall i, j :: 0 <= i < j < |log| && log[i].Loaded? && log[j].Loaded? ==> Later(log[i].seen, log[j].seen)
  }

  ghost predicate MarkedOnce(log: seq<Entry>)
  {
    forall i, j :: 0 <= i < j < |log| ==> !(log[i].TrialMarked? && log[j].TrialMarked?)
  }

  // ── every primitive keeps it ───────────────────────────────────────────────

  lemma SharedMoves(env: Env, st: State, sh: Shared, now: real)
    requires Inv(env, st) && Later(st.shared, sh) && StartNotInFuture(env, sh) && st.now <= now
    ensures Inv(env, st.(shared := sh, now := now))
  {
    var st' := st.(shared := sh, now := now);
    forall i | 0 <= i < |st.log| ensures GoodEntry(env, st', i) { assert GoodEntry(env, st, i); }
    forall pid | 0 <= pid < |st.procs| ensures GoodProcess(env, st', pid) { assert GoodProcess(env, st, pid); }
  }

  lemma RegisteredPrefix(log: seq<Entry>, e: Entry, n: nat, pid: nat)
    requires n <= |log|
    ensures RegisteredBefore(log + [e], n, pid) == RegisteredBefore(log, n, pid)
    ensures RegisteredBefore(log + [e], |log| + 1, pid) == (RegisteredBefore(log, |log|, pid) || e == Registered(pid))
  {
    var l := log + [e];
    assert forall j :: 0 <= j < |log| ==> l[j] == log[j];
    assert l[|log|] == e;
  }

  lemma EarlierEntries(env: Env, st: State, st': State, i: nat)
    requires i < |st.log| && GoodEntry(env, st, i)
    requires st'.shared == st.shared && st'.now == st.now && |st'.log| == |st.log| + 1 && st'.log[..|st.log|] == st.log
    ensures GoodEntry(env, st', i)
  {
    var e := st'.log[|st.log|];
    assert st'.log == st.log + [e];
    match st.log[i] {
      case Gated(pid, _, _, _, _) => RegisteredPrefix(st.log, e, i, pid);
      case Hooked(pid, _, _, _) => RegisteredPrefix(st.log, e, i, pid);
      case _ =>
    }
  }

  lemma RegisterKeeps(env: Env, st: State, pid: nat)
    requires Inv(env, st) && pid < |st.procs|
    ensures Inv(env, Step(env, st, Register(pid)))
  {
    var st' := Step(env, st, Register(pid));
    forall i | 0 <= i < |st'.log| ensures GoodEntry(env, st', i) {
      if i < |st.log| { EarlierEntries(env, st, st', i); }
    }
    forall q | 0 <= q < |st.procs| ensures GoodProcess(env, st', q) {
      assert GoodProcess(env, st, q);
      RegisteredPrefix(st.log, Registered(pid), |st.log|, q);
    }
  }

  lemma EntryAdded(env: Env, st: State, e: Entry)
    requires !e.Registered? && Inv(env, st) && GoodEntry(env, Log(st, e), |st.log|)
    requires e.Loaded? ==> e.seen == st.shared
    requires e.TrialMarked? ==> forall i :: 0 <= i < |st.log| ==> !st.log[i].TrialMarked?
    ensures Inv(env, Log(st, e))
  {
    var st' := Log(st, e);
    forall i | 0 <= i < |st'.log| ensures GoodEntry(env, st', i) {
      if i < |st.log| { EarlierEntries(env, st, st', i); }
    }
    forall pid | 0 <= pid < |st.procs| ensures GoodProcess(env, st', pid) {
      assert GoodProcess(env, st, pid);
      RegisteredPrefix(st.log, e, |st.log|, pid);
    }
    forall i, j | 0 <= i < j < |st'.log| && st'.log[i].Loaded? && st'.log[j].Loaded?
      ensures Later(st'.log[i].seen, st'.log[j].seen)
    {
      assert GoodEntry(env, st, i);
    }
  }

  lemma ProcessChanged(env: Env, st: State, pid: nat, p: Process)
    requires Inv(env, st) && pid < |st.procs| && GoodProcess(env, st.(procs := st.procs[pid := p]), pid)
    ensures Inv(env, st.(procs := st.procs[pid := p]))
  {
    var st' := st.(procs := st.procs[pid := p]);
    forall i | 0 <= i < |st.log| ensures GoodEntry(env, st', i) { assert GoodEntry(env, st, i); }
    forall q | 0 <= q < |st.procs| ensures GoodProcess(env, st', q) {
      if q != pid { assert GoodProcess(env, st, q); }
    }
  }

  lemma RefreshKeeps(env: Env, st: State, pid: nat)
    requires Inv(env, st) && pid < |st.procs|
    ensures var r := Refresh(env, st, pid);
            && Inv(env, r) && r.shared == st.shared && r.now == st.now
            && RecentLoad(env, r.log, r.procs[pid].loadedBy, pid, st.now, Answer(r, pid))
  {
    var p := st.procs[pid];
    assert GoodProcess(env, st, pid);
    if Fresh(p.cache, st.now) {
      assert GoodEntry(env, st, p.loadedBy);
    } else {
      var status := LoadStatus(env, st.shared);
      var logged := Log(st, Loaded(pid, st.now, st.shared, status));
      EntryAdded(env, st, Loaded(pid, st.now, st.shared, status));
      assert GoodProcess(env, logged, pid);
      ProcessChanged(env, logged, pid, Process(Cache(Some(status), st.now), p.registered, |st.log|));
    }
  }

  lemma AskKeeps(env: Env, st: State, pid: nat)
    requires Inv(env, st) && pid < |st.procs|
    ensures Inv(env, Ask(env, st, pid)) && Ask(env, st, pid).shared == st.shared && Ask(env, st, pid).now == st.now
  {
    RefreshKeeps(env, st, pid);
    var r := Refresh(env, st, pid);
    EntryAdded(env, r, Answered(pid, st.now, Answer(r, pid), r.procs[pid].loadedBy));
  }

  lemma ResetAndAskKeeps(env: Env, st: State, pid: nat)
    requires Inv(env, st) && pid < |st.procs|
    ensures Inv(env, ResetAndAsk(env, st, pid)) && ResetAndAsk(env, st, pid).shared == st.shared
  {
    assert GoodProcess(env, st, pid);
    ProcessChanged(env, st, pid, st.procs[pid].(cache := EMPTY_CACHE));
    AskKeeps(env, ResetCache(st, pid), pid);
  }

  lemma MarkTrialKeeps(env: Env, st: State)
    requires DatesRoundTrip(env) && Inv(env, st) && !st.shared.trialUsed
    requires st.log != [] && st.log[|st.log| - 1].Answered? && !KeyLicensed(st.log[|st.log| - 1].status)
    ensures Inv(env, MarkTrial(env, st)) && Later(st.shared, MarkTrial(env, st).shared)
  {
    var day := st.shared.today;
    var sh := st.shared.(trialUsed := true, trialStartedAt := Some(env.isoFormat(day)));
    assert env.parseDate(env.isoFormat(day)) == Some(day);
    SharedMoves(env, st, sh, st.now);
    forall i | 0 <= i < |st.log| ensures !st.log[i].TrialMarked? { assert GoodEntry(env, st, i); }
    EntryAdded(env, st.(shared := sh), TrialMarked(day, st.shared));
  }

  lemma GateKeeps(env: Env, st: State, pid: nat)
    requires Inv(env, st) && pid < |st.procs|
    ensures Inv(env, Step(env, st, GateCall(pid)))
  {
    assert GoodProcess(env, st, pid);
    if st.procs[pid].registered {
      RefreshKeeps(env, st, pid);
      var asked := Refresh(env, st, pid);
      var e := Gated(pid, st.now, true, Answer(asked, pid).valid, asked.procs[pid].loadedBy);
      assert GoodProcess(env, asked, pid);
      RegisteredPrefix(asked.log, e, |asked.log|, pid);
      EntryAdded(env, asked, e);
    } else {
      var e := Gated(pid, st.now, false, false, 0);
      RegisteredPrefix(st.log, e, |st.log|, pid);
      EntryAdded(env, st, e);
    }
  }

  lemma HookKeeps(env: Env, st: State, pid: nat)
    requires Inv(env, st) && pid < |st.procs|
    ensures Inv(env, Step(env, st, LifecycleCall(pid)))
  {
    assert GoodProcess(env, st, pid);
    var e := Hooked(pid, st.now, st.procs[pid].registered, st.procs[pid].registered);
    RegisteredPrefix(st.log, e, |st.log|, pid);
    EntryAdded(env, st, e);
  }

  lemma StartKeeps(env: Env, st: State, pid: nat)
    requires DatesRoundTrip(env) && pid < |st.procs| && Inv(env, Ask(env, st, pid))
    ensures Inv(env, Step(env, st, StartTrial(pid)))
  {
    var asked := Ask(env, st, pid);
    if TrialMayStart(asked, Answer(asked, pid)) {
      MarkTrialKeeps(env, asked);
      ResetAndAskKeeps(env, MarkTrial(env, asked), pid);
    }
  }

  lemma StepKeeps(env: Env, st: State, e: Event)
    requires DatesRoundTrip(env) && Inv(env, st) && Enabled(st, e)
    ensures Inv(env, Step(env, st, e))
  {
    match e {
      case Tick(elapsed, days) =>
        SharedMoves(env, st, st.shared.(today := st.shared.today + days), st.now + elapsed);
      case Register(pid) => RegisterKeeps(env, st, pid);
      case Query(pid) => AskKeeps(env, st, pid);
      case Upload(pid, file) =>
        var sh := st.shared.(keyFile := file);
        SharedMoves(env, st, sh, st.now);
        ResetAndAskKeeps(env, st.(shared := sh), pid);
      case Deactivate(pid) =>
        var sh := st.shared.(keyFile := None);
        SharedMoves(env, st, sh, st.now);
        ResetAndAskKeeps(env, st.(shared := sh), pid);
      case StartTrial(pid) =>
        AskKeeps(env, st, pid);
        StartKeeps(env, st, pid);
      case GateCall(pid) => GateKeeps(env, st, pid);
      case LifecycleCall(pid) => HookKeeps(env, st, pid);
    }
  }

  lemma {:induction false} RunKeeps(env: Env, st: State, events: seq<Event>)
    requires DatesRoundTrip(env) && Inv(env, st) && Runs(env, st, events)
    ensures Inv(env, After(env, st, events))
    decreases |events|
  {
    if events != [] {
      StepKeeps(env, st, events[0]);
      RunKeeps(env, Step(env, st, events[0]), events[1..]);
    }
  }
}
