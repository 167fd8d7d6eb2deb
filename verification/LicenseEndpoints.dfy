/** The admin requests of `backend/routers/license.py` on mutable state: each takes its step of the
    protocol. */
module LicenseEndpoints {
  import opened Text
  import opened License
  import opened LicenseProtocol

  /** The key file and the two trial flags, as the endpoints change them in place. */
  class Store {
    var keyFile: Option<KeyFile>
    var trialUsed: bool
    var trialStartedAt: Option<string>

    function View(today: int): Shared
      reads this
    {
      Shared(keyFile, trialUsed, trialStartedAt, today)
    }
  }

  /** The store and one process's cache are what state `st` says they are. */
  ghost predicate Shows(st: State, pid: nat, store: Store, cache: LicenseCache, today: int)
    reads store, cache
  {
    pid < |st.procs| && st.shared == store.View(today) && st.procs[pid].cache == cache.View()
  }

  /** `upload_license`: `None` is content refused with status 422. */
  method UploadLicense(env: Env, store: Store, cache: LicenseCache, today: int, now: real, content: Option<KeyFile>,
                       ghost st: State, ghost pid: nat) returns (response: Option<Status>)
    requires Shows(st, pid, store, cache, today) && st.now == now
    modifies store, cache
    ensures Shows(Step(env, st, Upload(pid, content)), pid, store, cache, today)
    ensures response == if content.Some? then Some(LoadStatus(env, store.View(today))) else None
  {
    if content.None? { return None; }
    store.keyFile := content;
    cache.Reset();
    var s := cache.GetLicenseStatus(env, store.View(today), now);
    response := Some(s);
  }

  /** `deactivate_license`: `None` is status 404, no key file. */
  method DeactivateLicense(env: Env, store: Store, cache: LicenseCache, today: int, now: real,
                           ghost st: State, ghost pid: nat) returns (response: Option<Status>)
    requires Shows(st, pid, store, cache, today) && st.now == now
    modifies store, cache
    ensures Shows(Step(env, st, Deactivate(pid)), pid, store, cache, today)
    ensures response == if old(store.keyFile).Some? then Some(LoadStatus(env, store.View(today))) else None
  {
    if store.keyFile.None? { return None; }
    store.keyFile := None;
    cache.Reset();
    var s := cache.GetLicenseStatus(env, store.View(today), now);
    response := Some(s);
  }

  /** `start_trial`: `None` is status 409. */
  method BeginTrial(env: Env, store: Store, cache: LicenseCache, today: int, now: real,
                    ghost st: State, ghost pid: nat) returns (response: Option<Status>)
    requires Shows(st, pid, store, cache, today) && st.now == now
    modifies store, cache
    ensures Shows(Step(env, st, StartTrial(pid)), pid, store, cache, today)
    ensures response.Some? ==> response.value == LoadStatus(env, store.View(today)) && !old(store.trialUsed)
    ensures response.None? ==> store.View(today) == old(store.View(today))
  {
    var s := cache.GetLicenseStatus(env, store.View(today), now);
    if s.valid && s.edition != "plus_trial" { return None; }
    if store.trialUsed { return None; }
    store.trialStartedAt := Some(env.isoFormat(today));
    store.trialUsed := true;
    cache.Reset();
    s := cache.GetLicenseStatus(env, store.View(today), now);
    response := Some(s);
  }
}
