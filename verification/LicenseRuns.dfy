/** What every run of the licence protocol promises: recent answers, licensed routing, the trial's
    start and end, and convergence of all processes. */
module LicenseRuns {
  import opened Text
  import opened License
  import opened LicenseProtocol

  // ── what every run promises ────────────────────────────────────────────────

  lemma ReachableInv(env: Env, init: State, events: seq<Event>)
    requires DatesRoundTrip(env) && Init(env, init) && Runs(env, init, events)
    ensures Inv(env, After(env, init, events))
  {
    forall pid | 0 <= pid < |init.procs| ensures GoodProcess(env, init, pid) {
      assert init.procs[pid] in init.procs;
    }
    RunKeeps(env, init, events);
  }

  // ── the log tells the states of the run ────────────────────────────────────

  /** A load carries the shared state and the clock of `s`. */
  predicate LoadOf(e: Entry, s: State) { e.Loaded? && e.seen == s.shared && e.at == s.now }

  /** An entry made by the step from `before` to `after` tells what these states were. */
  predicate Told(e: Entry, before: State, after: State)
  {
    && (e.Loaded? ==> LoadOf(e, before) || LoadOf(e, after))
    && (e.TrialMarked? ==> e.over == before.shared && !before.shared.trialUsed && after.shared.trialUsed)
  }

  /** Entries a status question adds: loads of the state asked in. */
  ghost predicate NewEntriesLoad(st: State, r: State)
  {
    forall i :: |st.log| <= i < |r.log| ==> !r.log[i].TrialMarked? && (r.log[i].Loaded? ==> LoadOf(r.log[i], st))
  }

  /** Entries a step adds. */
  ghost predicate NewEntriesTell(st: State, r: State)
  {
    st.log <= r.log && forall i :: |st.log| <= i < |r.log| ==> Told(r.log[i], st, r)
  }

  lemma AskTells(env: Env, st: State, pid: nat)
    requires pid < |st.procs|
    ensures st.log <= Refresh(env, st, pid).log <= Ask(env, st, pid).log
    ensures NewEntriesLoad(st, Ask(env, st, pid)) && Ask(env, st, pid).shared == st.shared && Ask(env, st, pid).now == st.now
  {
  }

  lemma ResetAndAskTells(env: Env, st: State, pid: nat)
    requires pid < |st.procs|
    ensures var r := ResetAndAsk(env, st, pid);
            st.log <= r.log && r.shared == st.shared && r.now == st.now && NewEntriesLoad(st, r)
  {
    AskTells(env, ResetCache(st, pid), pid);
  }

  lemma StartTells(env: Env, st: State, pid: nat)
    requires pid < |st.procs|
    ensures NewEntriesTell(st, Step(env, st, StartTrial(pid)))
  {
    AskTells(env, st, pid);
    var asked := Ask(env, st, pid);
    if TrialMayStart(asked, Answer(asked, pid)) {
      var marked := MarkTrial(env, asked);
      ResetAndAskTells(env, marked, pid);
      var r := Step(env, st, StartTrial(pid));
      assert asked.log <= marked.log <= r.log;
      forall i | |st.log| <= i < |r.log| ensures Told(r.log[i], st, r) {
        if i < |asked.log| { assert r.log[i] == asked.log[i]; }
        else if i < |marked.log| { assert r.log[i] == marked.log[i] == TrialMarked(st.shared.today, st.shared); }
        else { assert LoadOf(r.log[i], marked) || !r.log[i].Loaded?; }
      }
    }
  }

  /** One step adds entries, each of which tells the state before or after it. */
  lemma StepTells(env: Env, st: State, e: Event)
    requires Enabled(st, e)
    ensures NewEntriesTell(st, Step(env, st, e))
  {
    match e {
      case Query(pid) => AskTells(env, st, pid);
      case Upload(pid, file) => ResetAndAskTells(env, st.(shared := st.shared.(keyFile := file)), pid);
      case Deactivate(pid) => ResetAndAskTells(env, st.(shared := st.shared.(keyFile := None)), pid);
      case StartTrial(pid) => StartTells(env, st, pid);
      case GateCall(pid) => AskTells(env, st, pid);
      case _ =>
    }
  }

  /** Entry `i` of the log of a run was made in step `j`, and tells the states around that step. */
  ghost predicate ToldInStep(env: Env, init: State, events: seq<Event>, i: nat, j: nat)
    requires Runs(env, init, events) && i < |After(env, init, events).log|
  {
    && j < |events| && Runs(env, init, events[..j]) && Runs(env, init, events[..j + 1])
    && var before, after := After(env, init, events[..j]), After(env, init, events[..j + 1]);
       && |before.log| <= i < |after.log| && after.log[i] == After(env, init, events).log[i]
       && Told(after.log[i], before, after)
  }

  lemma RunsOne(env: Env, st: State, events: seq<Event>)
    requires events != [] && Runs(env, st, events)
    ensures Runs(env, st, events[..0]) && After(env, st, events[..0]) == st
    ensures Runs(env, st, events[..1]) && After(env, st, events[..1]) == Step(env, st, events[0])
  {
    var first := events[..1];
    assert first[0] == events[0] && first[1..] == [] && events[..0] == [];
    assert Runs(env, Step(env, st, events[0]), first[1..]);
    assert After(env, Step(env, st, events[0]), first[1..]) == Step(env, st, events[0]);
  }

  lemma RunsPrefix(env: Env, st: State, events: seq<Event>, n: nat)
    requires events != [] && Runs(env, st, events) && n <= |events| - 1 && Runs(env, Step(env, st, events[0]), events[1..][..n])
    ensures Runs(env, st, events[..n + 1])
    ensures After(env, st, events[..n + 1]) == After(env, Step(env, st, events[0]), events[1..][..n])
  {
    var prefix := events[..n + 1];
    assert prefix[0] == events[0] && prefix[1..] == events[1..][..n];
  }

  lemma {:induction false} LogOnlyGrows(env: Env, st: State, events: seq<Event>)
    requires Runs(env, st, events)
    ensures st.log <= After(env, st, events).log
    decreases |events|
  {
    if events != [] {
      StepTells(env, st, events[0]);
      LogOnlyGrows(env, Step(env, st, events[0]), events[1..]);
    }
  }

  /** Over every run: each entry was made in some step, a load carries the shared state and the clock
      the run had before or after that step, a trial start the state it was written over. */
  lemma {:induction false} LogTellsStates(env: Env, init: State, events: seq<Event>, i: nat)
    requires Runs(env, init, events) && |init.log| <= i < |After(env, init, events).log|
    ensures exists j :: ToldInStep(env, init, events, i, j)
    decreases |events|
  {
    var next := Step(env, init, events[0]);
    StepTells(env, init, events[0]);
    LogOnlyGrows(env, next, events[1..]);
    RunsOne(env, init, events);
    if i < |next.log| {
      assert ToldInStep(env, init, events, i, 0);
    } else {
      LogTellsStates(env, next, events[1..], i);
      var j: nat :| ToldInStep(env, next, events[1..], i, j);
      RunsPrefix(env, init, events, j);
      RunsPrefix(env, init, events, j + 1);
      assert ToldInStep(env, init, events, i, j + 1);
    }
  }

  /** A load by `pid` in the first `i` entries, under 60 seconds before `at`, that found `status`: the
      status of the shared state the run had around the step that made the load. */
  ghost predicate RecentlyTrue(env: Env, init: State, events: seq<Event>, i: nat, pid: nat, at: real, status: Status)
    requires Runs(env, init, events) && i <= |After(env, init, events).log|
  {
    exists k, j :: 0 <= k < i && ToldInStep(env, init, events, k, j)
                && RecentLoad(env, After(env, init, events).log, k, pid, at, status)
  }

  lemma RecentLoadIsTrue(env: Env, init: State, events: seq<Event>, i: nat, k: nat, pid: nat, at: real, status: Status)
    requires Init(env, init) && Runs(env, init, events) && k < i <= |After(env, init, events).log|
    requires RecentLoad(env, After(env, init, events).log, k, pid, at, status)
    ensures RecentlyTrue(env, init, events, i, pid, at, status)
  {
    LogTellsStates(env, init, events, k);
    var j: nat :| ToldInStep(env, init, events, k, j);
  }

  // ── routing and answers ────────────────────────────────────────────────────

  /** Routing, over every interleaving.  A @gate call reaches the Plus implementation exactly when
      one was registered before and the licence was valid in a load by the same process less than
      60 seconds earlier, valued as the shared state of the run was then.  A @lifecycle call
      reaches it exactly when one was registered before. */
  lemma RoutingIsLicensed(env: Env, init: State, events: seq<Event>, i: nat)
    requires DatesRoundTrip(env) && Init(env, init) && Runs(env, init, events)
    requires i < |After(env, init, events).log|
    ensures var log := After(env, init, events).log;
            && (log[i].Hooked? ==> (log[i].plus <==> RegisteredBefore(log, i, log[i].pid)))
            && (log[i].Gated? && !RegisteredBefore(log, i, log[i].pid) ==> !log[i].plus)
            && (log[i].Gated? && RegisteredBefore(log, i, log[i].pid) ==>
                  exists status: Status :: RecentlyTrue(env, init, events, i, log[i].pid, log[i].at, status)
                                        && (log[i].plus <==> status.valid))
  {
    ReachableInv(env, init, events);
    var st := After(env, init, events);
    assert GoodEntry(env, st, i);
    var e := st.log[i];
    if e.Gated? && e.registered {
      RecentLoadIsTrue(env, init, events, i, e.load, e.pid, e.at, st.log[e.load].status);
    }
  }

  /** Every answer of `get_license_status` is what `_load_status` gives on the shared state the run had
      at an instant less than 60 seconds earlier. */
  lemma AnswersAreRecent(env: Env, init: State, events: seq<Event>, i: nat)
    requires DatesRoundTrip(env) && Init(env, init) && Runs(env, init, events)
    requires i < |After(env, init, events).log| && After(env, init, events).log[i].Answered?
    ensures var e := After(env, init, events).log[i]; RecentlyTrue(env, init, events, i, e.pid, e.at, e.status)
  {
    ReachableInv(env, init, events);
    var st := After(env, init, events);
    assert GoodEntry(env, st, i);
    RecentLoadIsTrue(env, init, events, i, st.log[i].load, st.log[i].pid, st.log[i].at, st.log[i].status);
  }

  /** The trial start date is written at most once in any run, and never over a used trial. */
  lemma TrialStartsOnce(env: Env, init: State, events: seq<Event>, i: nat, j: nat)
    requires DatesRoundTrip(env) && Init(env, init) && Runs(env, init, events)
    requires i < j < |After(env, init, events).log|
    ensures var log := After(env, init, events).log; !(log[i].TrialMarked? && log[j].TrialMarked?)
  {
    ReachableInv(env, init, events);
  }

  /** When the start date is written, the status in a load by the same process less than 60 seconds
      earlier was not that of a valid key licence. */
  lemma TrialStartsOnRecentStatus(env: Env, init: State, events: seq<Event>, i: nat)
    requires DatesRoundTrip(env) && Init(env, init) && Runs(env, init, events)
    requires i < |After(env, init, events).log| && After(env, init, events).log[i].TrialMarked?
    ensures var log := After(env, init, events).log;
            && i > 0 && log[i - 1].Answered?
            && exists k :: 0 <= k < i && RecentLoad(env, log, k, log[i - 1].pid, log[i - 1].at, log[i - 1].status)
                        && !KeyLicensed(LoadStatus(env, log[k].seen))
  {
    ReachableInv(env, init, events);
    var st := After(env, init, events);
    assert GoodEntry(env, st, i) && GoodEntry(env, st, i - 1);
  }

  // ── a key licence is never turned into a trial by one web process ──────────

  /** All admin requests reach process `admin`, as with the single web process of `entrypoint.sh`. */
  predicate OneAdmin(events: seq<Event>, admin: nat)
  {
    forall e :: e in events && (e.Upload? || e.Deactivate? || e.StartTrial?) ==> e.pid == admin
  }

  /** The status is what the present key file, if there is one, gave on some day up to today. */
  ghost predicate JudgesPresentKey(env: Env, sh: Shared, s: Status)
  {
    sh.keyFile.Some? ==> exists day :: day <= sh.today && s == KeyStatus(env, sh.keyFile.value, day)
  }

  /** A filled cache of `admin` judges the present key file, and no trial was started over a valid one. */
  ghost predicate AdminInv(env: Env, st: State, admin: nat)
  {
    && (admin < |st.procs| && st.procs[admin].cache.status.Some? ==>
          JudgesPresentKey(env, st.shared, st.procs[admin].cache.status.value))
    && forall i :: 0 <= i < |st.log| && st.log[i].TrialMarked? ==> !KeyLicensed(LoadStatus(env, st.log[i].over))
  }

  /** A key file that was no valid key licence on an earlier day is none today: validity only ends. */
  lemma UnlicensedStays(env: Env, sh: Shared, s: Status)
    requires JudgesPresentKey(env, sh, s) && !KeyLicensed(s)
    ensures !KeyLicensed(LoadStatus(env, sh))
  {
    if sh.keyFile.Some? {
      var day :| day <= sh.today && s == KeyStatus(env, sh.keyFile.value, day);
      KeyValidIff(env, sh.keyFile.value, sh.today);
    }
  }

  lemma AskKeepsAdmin(env: Env, st: State, pid: nat, admin: nat)
    requires AdminInv(env, st, admin) && pid < |st.procs|
    ensures AdminInv(env, Refresh(env, st, pid), admin) && AdminInv(env, Ask(env, st, pid), admin)
  {
    assert JudgesPresentKey(env, st.shared, LoadStatus(env, st.shared));
  }

  /** The invariant survives any change of the shared state by a process that resets its own cache. */
  lemma ResetAndAskKeepsAdmin(env: Env, st: State, admin: nat)
    requires admin < |st.procs| && AdminInv(env, ResetCache(st, admin), admin)
    ensures AdminInv(env, ResetAndAsk(env, st, admin), admin)
  {
    AskKeepsAdmin(env, ResetCache(st, admin), admin, admin);
  }

  /** The start is allowed only on an answer that judges the present key file. */
  lemma StartKeepsAdmin(env: Env, asked: State, admin: nat)
    requires admin < |asked.procs| && asked.procs[admin].cache.status.Some? && AdminInv(env, asked, admin)
    ensures TrialMayStart(asked, Answer(asked, admin)) ==>
              AdminInv(env, ResetAndAsk(env, MarkTrial(env, asked), admin), admin)
  {
    if TrialMayStart(asked, Answer(asked, admin)) {
      UnlicensedStays(env, asked.shared, Answer(asked, admin));
      ResetAndAskKeepsAdmin(env, MarkTrial(env, asked), admin);
    }
  }

  lemma StepKeepsAdmin(env: Env, st: State, e: Event, admin: nat)
    requires AdminInv(env, st, admin) && Enabled(st, e) && OneAdmin([e], admin)
    ensures AdminInv(env, Step(env, st, e), admin)
  {
    assert e in [e];
    match e {
      case Query(pid) => AskKeepsAdmin(env, st, pid, admin);
      case GateCall(pid) => AskKeepsAdmin(env, st, pid, admin);
      case Upload(pid, file) => ResetAndAskKeepsAdmin(env, st.(shared := st.shared.(keyFile := file)), pid);
      case Deactivate(pid) => ResetAndAskKeepsAdmin(env, st.(shared := st.shared.(keyFile := None)), pid);
      case StartTrial(pid) =>
        AskKeepsAdmin(env, st, pid, admin);
        StartKeepsAdmin(env, Ask(env, st, pid), pid);
      case _ =>
    }
  }

  lemma {:induction false} RunKeepsAdmin(env: Env, st: State, events: seq<Event>, admin: nat)
    requires AdminInv(env, st, admin) && Runs(env, st, events) && OneAdmin(events, admin)
    ensures AdminInv(env, After(env, st, events), admin)
    decreases |events|
  {
    if events != [] {
      StepKeepsAdmin(env, st, events[0], admin);
      RunKeepsAdmin(env, Step(env, st, events[0]), events[1..], admin);
    }
  }

  /** A valid key licence is never turned into a trial, if one process takes all admin requests:
      over any run, the state before the step that starts a trial holds no valid key licence. */
  lemma TrialNeverOverKeyLicense(env: Env, init: State, events: seq<Event>, admin: nat, i: nat)
    requires Init(env, init) && Runs(env, init, events) && OneAdmin(events, admin)
    requires i < |After(env, init, events).log| && After(env, init, events).log[i].TrialMarked?
    ensures !KeyLicensed(LoadStatus(env, After(env, init, events).log[i].over))
    ensures exists j: nat :: ToldInStep(env, init, events, i, j) && !KeyLicensed(LoadStatus(env, After(env, init, events[..j]).shared))
  {
    LogTellsStates(env, init, events, i);
    assert AdminInv(env, init, admin) by {
      assert admin < |init.procs| ==> init.procs[admin] in init.procs;
    }
    RunKeepsAdmin(env, init, events, admin);
  }

  /** One step, whoever takes it: a trial is started over a valid key licence exactly when the trial
      is unused and the asking process still answers from a cache without such a licence. */
  lemma StartsOverKeyLicenseIff(env: Env, st: State, pid: nat)
    requires pid < |st.procs|
    ensures var cache := st.procs[pid].cache;
            Step(env, st, StartTrial(pid)).shared != st.shared && KeyLicensed(LoadStatus(env, st.shared)) <==>
            !st.shared.trialUsed && KeyLicensed(LoadStatus(env, st.shared))
            && Fresh(cache, st.now) && !KeyLicensed(cache.status.value)
  {
    var asked := Ask(env, st, pid);
    assert TrialMayStart(asked, Answer(asked, pid)) ==>
      Step(env, st, StartTrial(pid)).shared.trialUsed;
  }

  /** A trial that starts is recorded with the state it is written over. */
  lemma StartIsRecorded(env: Env, st: State, pid: nat)
    requires pid < |st.procs| && Step(env, st, StartTrial(pid)).shared != st.shared
    ensures TrialMarked(st.shared.today, st.shared) in Step(env, st, StartTrial(pid)).log
  {
    var asked := Ask(env, st, pid);
    var marked := MarkTrial(env, asked);
    var n := |asked.log|;
    assert asked.shared == st.shared && marked.log[n] == TrialMarked(st.shared.today, st.shared);
    assert Refresh(env, ResetCache(marked, pid), pid).log[n] == marked.log[n];
    assert Step(env, st, StartTrial(pid)).log[n] == marked.log[n];
  }

  lemma ThreeSteps(env: Env, st: State, a: Event, b: Event, c: Event)
    requires Enabled(st, a) && Enabled(Step(env, st, a), b) && Enabled(Step(env, Step(env, st, a), b), c)
    ensures Runs(env, st, [a, b, c])
    ensures After(env, st, [a, b, c]) == Step(env, Step(env, Step(env, st, a), b), c)
  {
    assert [a, b, c][1..] == [b, c] && [b, c][1..] == [c] && [c][1..] == [];
    var last := Step(env, Step(env, st, a), b);
    assert Runs(env, Step(env, last, c), []) && After(env, Step(env, last, c), []) == Step(env, last, c);
    assert Runs(env, last, [c]) && After(env, last, [c]) == Step(env, last, c);
    assert Runs(env, Step(env, st, a), [b, c]);
  }

  /** A refusal cached by one process outlives an upload through another. */
  lemma StaleRefusal(env: Env, st: State, key: KeyFile)
    requires |st.procs| >= 2 && st.procs[0].cache == EMPTY_CACHE && st.shared.keyFile.None? && !st.shared.trialUsed
    ensures var uploaded := Step(env, Step(env, st, Query(0)), Upload(1, Some(key)));
            && |uploaded.procs| == |st.procs| && uploaded.shared == st.shared.(keyFile := Some(key))
            && Fresh(uploaded.procs[0].cache, uploaded.now) && !KeyLicensed(uploaded.procs[0].cache.status.value)
  {
    var asked := Step(env, st, Query(0));
    assert asked.procs[0].cache == Cache(Some(LoadStatus(env, st.shared)), st.now) && asked.shared == st.shared;
    var uploaded := Step(env, asked, Upload(1, Some(key)));
    assert uploaded.procs[0] == asked.procs[0] && uploaded.now == st.now;
  }

  /** Two processes suffice: one asks, another takes the upload of a valid key file, and the first
      starts the trial on the status it has cached. */
  lemma TwoAdminsTurnKeyIntoTrial(env: Env, init: State, key: KeyFile)
    requires Init(env, init) && |init.procs| >= 2 && init.shared.keyFile.None? && !init.shared.trialUsed
    requires KeyLicensed(KeyStatus(env, key, init.shared.today))
    ensures var events := [Query(0), Upload(1, Some(key)), StartTrial(0)];
            var over := init.shared.(keyFile := Some(key));
            && Runs(env, init, events) && KeyLicensed(LoadStatus(env, over))
            && TrialMarked(over.today, over) in After(env, init, events).log
  {
    assert init.procs[0] in init.procs;
    StaleRefusal(env, init, key);
    var uploaded := Step(env, Step(env, init, Query(0)), Upload(1, Some(key)));
    StartsOverKeyLicenseIff(env, uploaded, 0);
    StartIsRecorded(env, uploaded, 0);
    ThreeSteps(env, init, Query(0), Upload(1, Some(key)), StartTrial(0));
  }

  /** A load reports an active trial only without a key file and within 30 days of the start. */
  lemma ActiveTrialIsInWindow(env: Env, init: State, events: seq<Event>, i: nat)
    requires DatesRoundTrip(env) && Init(env, init) && Runs(env, init, events)
    requires i < |After(env, init, events).log|
    requires After(env, init, events).log[i].Loaded? && After(env, init, events).log[i].status.trialActive
    ensures var seen := After(env, init, events).log[i].seen;
            && seen.keyFile.None? && seen.trialUsed && Truthy(seen.trialStartedAt)
            && env.parseDate(seen.trialStartedAt.value).Some?
            && var start := env.parseDate(seen.trialStartedAt.value).value;
               start <= seen.today <= start + 30
  {
    ReachableInv(env, init, events);
    assert GoodEntry(env, After(env, init, events), i);
  }

  /** Once a load reported an expired trial, no later load is valid unless a key file exists. */
  lemma ExpiryIsFinal(env: Env, init: State, events: seq<Event>, i: nat, j: nat)
    requires DatesRoundTrip(env) && Init(env, init) && Runs(env, init, events)
    requires i < j < |After(env, init, events).log|
    requires var log := After(env, init, events).log;
             log[i].Loaded? && log[i].status.reason == TrialExpired && log[j].Loaded? && log[j].status.valid
    ensures After(env, init, events).log[j].seen.keyFile.Some?
  {
    ReachableInv(env, init, events);
    var st := After(env, init, events);
    assert GoodEntry(env, st, i) && GoodEntry(env, st, j);
    assert Later(st.log[i].seen, st.log[j].seen);
  }

  /** The process that uploads, deactivates or starts the trial answers the request with the status
      of the state it has just written. */
  lemma AdminSeesOwnEffect(env: Env, st: State, e: Event)
    requires Enabled(st, e) && (e.Upload? || e.Deactivate? || e.StartTrial?)
    requires Step(env, st, e).shared != st.shared || (e.Upload? && e.file.Some?)
    ensures var st' := Step(env, st, e);
            && st'.log != [] && st'.log[|st'.log| - 1].Answered? && st'.log[|st'.log| - 1].pid == e.pid
            && st'.log[|st'.log| - 1].status == LoadStatus(env, st'.shared)
    ensures e.Upload? ==> Step(env, st, e).shared == st.shared.(keyFile := e.file)
    ensures e.Deactivate? ==> Step(env, st, e).shared == st.shared.(keyFile := None)
    ensures e.StartTrial? ==> !st.shared.trialUsed
    ensures e.StartTrial? ==>
      Step(env, st, e).shared == st.shared.(trialUsed := true, trialStartedAt := Some(env.isoFormat(st.shared.today)))
  {
  }

  /** Starting the trial without a key file unlocks Plus for today and the next 30 days, and the
      status says until when. */
  lemma TrialUnlocks(env: Env, sh: Shared, start: int)
    requires DatesRoundTrip(env) && sh.keyFile.None? && sh.trialUsed && sh.trialStartedAt == Some(env.isoFormat(start))
    ensures var s, unlocked := LoadStatus(env, sh), sh.today <= start + 30;
            && s.valid == s.trialActive == unlocked && s.trialUsed
            && s.edition == (if unlocked then "plus_trial" else "core") && s.reason == (if unlocked then Trial else TrialExpired)
            && s.expiry == Some(env.isoFormat(start + 30)) && s.contactName == None && s.contactEmail == None
  {
    assert env.parseDate(env.isoFormat(start)) == Some(start);
  }

  /** Without a key file and a trial with a readable start date the licence is missing. */
  lemma MissingIff(env: Env, sh: Shared)
    ensures LoadStatus(env, sh).reason == Missing <==>
            sh.keyFile.None? && !(sh.trialUsed && Truthy(sh.trialStartedAt) && env.parseDate(sh.trialStartedAt.value).Some?)
    ensures LoadStatus(env, sh).reason == Missing ==>
              LoadStatus(env, sh) == Status("core", false, None, None, None, Missing, false, false)
  {
  }

  // ── convergence ────────────────────────────────────────────────────────────

  /** No event of the run changes the shared state. */
  ghost predicate Quiet(env: Env, st: State, events: seq<Event>)
    requires Runs(env, st, events)
    decreases |events|
  {
    events == [] ||
    (Step(env, st, events[0]).shared == st.shared && Quiet(env, Step(env, st, events[0]), events[1..]))
  }

  /** Every cache was loaded by time `since` or holds the status of the present shared state. */
  ghost predicate Settling(env: Env, st: State, since: real)
  {
    forall p :: p in st.procs && p.cache.status.Some? && p.cache.loadedAt > since ==>
      p.cache.status.value == LoadStatus(env, st.shared)
  }

  lemma StepSettles(env: Env, st: State, e: Event, since: real)
    requires Enabled(st, e) && Settling(env, st, since) && Step(env, st, e).shared == st.shared
    ensures Settling(env, Step(env, st, e), since) && |Step(env, st, e).procs| == |st.procs|
  {
    var st' := Step(env, st, e);
    if !e.Tick? {
      var p := st.procs[e.pid];
      forall q | q in st'.procs && q.cache.status.Some? && q.cache.loadedAt > since
        ensures q.cache.status.value == LoadStatus(env, st.shared)
      {
        assert q in st.procs || q.cache == p.cache || q.cache.status.value == LoadStatus(env, st.shared);
      }
    }
  }

  lemma {:induction false} RunSettles(env: Env, st: State, events: seq<Event>, since: real)
    requires Runs(env, st, events) && Quiet(env, st, events) && Settling(env, st, since)
    ensures Settling(env, After(env, st, events), since) && After(env, st, events).shared == st.shared
    ensures |After(env, st, events).procs| == |st.procs|
    decreases |events|
  {
    if events != [] {
      StepSettles(env, st, events[0], since);
      RunSettles(env, Step(env, st, events[0]), events[1..], since);
    }
  }

  /** If nothing changes the shared state for 60 seconds, every process agrees with it: whatever
      happened before and in between, the next answer of any process is the current status. */
  lemma EveryProcessConverges(env: Env, init: State, before: seq<Event>, quiet: seq<Event>, pid: nat)
    requires DatesRoundTrip(env) && Init(env, init) && Runs(env, init, before)
    requires var st := After(env, init, before);
             && Runs(env, st, quiet) && Quiet(env, st, quiet) && pid < |st.procs|
             && After(env, st, quiet).now >= st.now + 60.0
    ensures var st := After(env, init, before);
            var end := After(env, st, quiet);
            && pid < |end.procs| && Answer(Ask(env, end, pid), pid) == LoadStatus(env, st.shared)
  {
    ReachableInv(env, init, before);
    var st := After(env, init, before);
    assert Settling(env, st, st.now) by {
      forall p | p in st.procs && p.cache.status.Some? ensures p.cache.loadedAt <= st.now {
        var q :| 0 <= q < |st.procs| && st.procs[q] == p;
        assert GoodProcess(env, st, q);
      }
    }
    RunSettles(env, st, quiet, st.now);
    var end := After(env, st, quiet);
    assert end.procs[pid] in end.procs;
  }
}
