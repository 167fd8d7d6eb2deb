/** `backend/core/plus_protocol.py`: generating one dispatch wrapper per stamped method of the
    Core class, and routing a call through a wrapper. */
module Dispatch {
  import opened Text
  import opened License
  import opened LicenseEndpoints
  import opened LicenseProtocol

  /** One item of `vars(core_cls)`; `stamp` is the `_plus_dispatch` attribute, if any. */
  datatype Member = Member(name: string, isFunction: bool, stamp: Option<string>, isAsync: bool)

  datatype Kind = Gate | Lifecycle

  datatype Wrapper = Wrapper(name: string, kind: Kind, isAsync: bool)

  datatype BuildResult = Built(table: map<string, Wrapper>) | BootError(name: string)

  predicate Public(m: Member) { m.isFunction && !("_" <= m.name) }

  function KindOf(stamp: Option<string>): Option<Kind>
  {
    if stamp == Some("gate") then Some(Gate)
    else if stamp == Some("lifecycle") then Some(Lifecycle)
    else None
  }

  predicate Stamped(m: Member) { m.stamp == Some("gate") || m.stamp == Some("lifecycle") }

  /** The method's wrapper in the table: a gate wrapper for the stamp "gate", a lifecycle wrapper for
      the stamp "lifecycle". */
  predicate Wired(m: Member, table: map<string, Wrapper>)
  {
    && m.name in table && table[m.name].name == m.name && table[m.name].isAsync == m.isAsync
    && (table[m.name].kind == Gate <==> m.stamp == Some("gate"))
    && (table[m.name].kind == Lifecycle <==> m.stamp == Some("lifecycle"))
  }

  /** The generated table: a wrapper for every function of the class whose name does not start with
      an underscore, and for nothing else. */
  ghost predicate Wires(members: seq<Member>, table: map<string, Wrapper>)
  {
    && (forall i :: 0 <= i < |members| && members[i].isFunction && (members[i].name == "" || members[i].name[0] != '_') ==>
          Wired(members[i], table))
    && forall name :: name in table ==> exists i :: 0 <= i < |members| && Public(members[i]) && members[i].name == name
  }

  lemma StampKinds(m: Member)
    ensures KindOf(m.stamp) == Some(Gate) <==> m.stamp == Some("gate")
    ensures KindOf(m.stamp) == Some(Lifecycle) <==> m.stamp == Some("lifecycle")
  {
    assert "gate"[0] != "lifecycle"[0];
  }

  lemma PublicIff(m: Member)
    ensures Public(m) <==> m.isFunction && (m.name == "" || m.name[0] != '_')
  {
  }

  /** `_build_dispatch_methods`, for any class body (its names are distinct): it fails, naming the
      first public method stamped neither "gate" nor "lifecycle", or wires every public method. */
  method BuildDispatchMethods(members: seq<Member>) returns (r: BuildResult)
    requires forall i, j :: 0 <= i < j < |members| ==> members[i].name != members[j].name
    ensures r.Built? <==> forall i :: 0 <= i < |members| && Public(members[i]) ==> Stamped(members[i])
    ensures r.BootError? ==>
      exists k :: 0 <= k < |members| && Public(members[k]) && !Stamped(members[k]) && members[k].name == r.name
               && forall i :: 0 <= i < k && Public(members[i]) ==> Stamped(members[i])
    ensures r.Built? ==> Wires(members, r.table)
  {
    var table: map<string, Wrapper> := map[];
    for k := 0 to |members|
      invariant forall i :: 0 <= i < k && Public(members[i]) ==> Stamped(members[i]) && Wired(members[i], table)
      invariant forall name :: name in table ==> exists i :: 0 <= i < k && Public(members[i]) && members[i].name == name
    {
      var m := members[k];
      if Public(m) {
        var kind := KindOf(m.stamp);
        if kind.None? { return BootError(m.name); }
        table := table[m.name := Wrapper(m.name, kind.value, m.isAsync)];
        StampKinds(m);
      }
    }
    forall i | 0 <= i < |members| { PublicIff(members[i]); }
    return Built(table);
  }

  /** `_PlusBehaviorDispatcher`: `registered` says whether `_active` holds an implementation. */
  class Dispatcher {
    var registered: bool

    constructor ()
      ensures !registered
    {
      registered := false;
    }

    /** `_set_active`: the protocol's registration step. */
    method SetActive(ghost env: Env, ghost st: State, ghost pid: nat)
      requires pid < |st.procs| && st.procs[pid].registered == registered
      modifies this
      ensures registered && Step(env, st, Register(pid)).procs[pid].registered == registered
    {
      registered := true;
    }

    /** Calls through a generated wrapper: `_resolve_gate` or `_resolve_lifecycle` decides whether the
        Plus implementation runs.  The licence is read only when one is registered. */
    method Call(w: Wrapper, env: Env, store: Store, cache: LicenseCache, today: int, now: real,
                ghost st: State, ghost pid: nat) returns (plus: bool)
      requires Shows(st, pid, store, cache, today) && st.now == now && st.procs[pid].registered == registered
      modifies cache
      ensures var st' := Step(env, st, if w.kind == Gate then GateCall(pid) else LifecycleCall(pid));
              && Shows(st', pid, store, cache, today)
              && st'.log != [] && var e := st'.log[|st'.log| - 1];
                 (e.Gated? || e.Hooked?) && e.pid == pid && e.plus == plus
      ensures w.kind == Lifecycle ==> plus == registered
      ensures w.kind == Gate ==>
                plus == (registered && if old(cache.cache).Some? && now - old(cache.loadedAt) < 60.0 then old(cache.cache).value.valid
                                       else LoadStatus(env, store.View(today)).valid)
    {
      if w.kind == Gate {
        plus := false;
        if registered {
          var s := cache.GetLicenseStatus(env, store.View(today), now);
          plus := s.valid;
        }
      } else {
        plus := registered;
      }
    }

    /** A call of the class's `k`-th method by its name: one stamped "gate" reaches the Plus
        implementation exactly when one is registered and the licence, as cached for under 60 seconds
        or else as the shared state now says, is valid; one stamped "lifecycle" whenever one is
        registered; every public method is stamped one or the other. */
    method CallByName(members: seq<Member>, table: map<string, Wrapper>, k: nat, env: Env, store: Store, cache: LicenseCache,
                      today: int, now: real, ghost st: State, ghost pid: nat) returns (plus: bool)
      requires Wires(members, table) && k < |members| && Public(members[k])
      requires Shows(st, pid, store, cache, today) && st.now == now && st.procs[pid].registered == registered
      modifies cache
      ensures members[k].stamp == Some("gate") || members[k].stamp == Some("lifecycle")
      ensures members[k].stamp == Some("lifecycle") ==>
                plus == registered && Shows(Step(env, st, LifecycleCall(pid)), pid, store, cache, today)
      ensures members[k].stamp == Some("gate") ==>
                && plus == (registered && if old(cache.cache).Some? && now - old(cache.loadedAt) < 60.0 then old(cache.cache).value.valid
                                          else LoadStatus(env, store.View(today)).valid)
                && Shows(Step(env, st, GateCall(pid)), pid, store, cache, today)
    {
      PublicIff(members[k]);
      plus := Call(table[members[k].name], env, store, cache, today, now, st, pid);
    }
  }
}
