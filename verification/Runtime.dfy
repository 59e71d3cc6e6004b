/** The execution context, updated in place, and the Wasmtime handles that it owns. */
module Runtime {
  import opened Basics
  import opened Resume

  datatype Kind = StoreHandle | FutureHandle | TrapHandle | ErrorHandle | ExternHandle

  /** What Wasmtime hands out; `home` is the store of a future. */
  datatype Handle = Handle(kind: Kind, id: nat, home: nat)

  /** Wasmtime's own record: every handle made, and every deletion asked for. */
  datatype Ledger = Ledger(made: seq<Handle>, deleted: multiset<Handle>)
  {
    function Next(kind: Kind, home: nat): Handle { Handle(kind, |made|, home) }

    function Make(kind: Kind, home: nat): Ledger { this.(made := made + [Next(kind, home)]) }

    function Delete(h: Handle): Ledger { this.(deleted := deleted + multiset{h}) }

    /** What is owned has never been deleted; all else that was made has been deleted exactly once. */
    ghost predicate Balances(owned: set<Handle>) {
      && (forall i :: 0 <= i < |made| ==> made[i].id == i)
      && (forall h :: h in owned ==> h in made)
      && (forall h :: deleted[h] == if h in made && h !in owned then 1 else 0)
    }

    lemma MakeBalances(owned: set<Handle>, kind: Kind, home: nat)
      requires Balances(owned)
      ensures Make(kind, home).Balances(owned + {Next(kind, home)}) && Next(kind, home) !in owned
    {
      var h := Next(kind, home);
      assert h !in made;
      forall g ensures g in Make(kind, home).made <==> g in made || g == h { }
    }

    lemma DeleteBalances(owned: set<Handle>, h: Handle)
      requires Balances(owned) && h in owned
      ensures Delete(h).Balances(owned - {h})
    {
    }
  }

  function Opt(o: Option<Handle>): set<Handle> { if o.Some? then {o.value} else {} }

  class ExecContext {
    const loaded: bool
    var phase: Phase
    var fuelLimit: nat
    var timeslice: nat
    var fuelRemaining: nat
    var state: State
    var suspendKind: Suspension
    var yielded: bool
    var subrequestActive: bool
    // The resume state.
    var hasResume: bool
    var store: Option<Handle>
    var future: Option<Handle>
    var futureKind: Work
    var trap: Option<Handle>
    var error: Option<Handle>
    var result: Value
    var instanceReady: bool
    var funcReady: bool
    // The engine's side.
    var wasmtime: Ledger
    var interval: nat
    ghost var armedWith: nat
    var storeFuel: nat
    ghost var burned: nat
    ghost var failed: bool
    ghost var leaked: set<Handle>

    ghost function Host(): Host
      reads this
    {
      Resume.Host(yielded, suspendKind, subrequestActive)
    }

    ghost function View(): Exec
      reads this
    {
      Exec(loaded, phase, fuelLimit, timeslice, fuelRemaining, state, Host(), hasResume, store.Some?, futureKind,
           instanceReady, funcReady, interval, armedWith, storeFuel, burned, failed)
    }

    ghost function Owned(): set<Handle>
      reads this
    {
      Opt(store) + Opt(future) + Opt(trap) + Opt(error) + leaked
    }

    /** Each slot holds its own kind of handle, and the future belongs to the store. */
    ghost predicate Typed()
      reads this
    {
      && (store.Some? ==> store.value.kind == StoreHandle && hasResume)
      && (future.Some? ==> future.value.kind == FutureHandle && store.Some? && future.value.home == store.value.id)
      && (trap.Some? ==> trap.value.kind == TrapHandle && hasResume)
      && (error.Some? ==> error.value.kind == ErrorHandle && hasResume)
      && (forall h :: h in leaked ==> h.kind == ExternHandle)
    }

    ghost predicate Books()
      reads this
    {
      Typed() && wasmtime.Balances(Owned())
    }

    /** A future and its kind come and go together, and its outputs are empty while it lives. */
    ghost predicate Paired()
      reads this
    {
      (future.None? <==> futureKind == NoWork) && (future.Some? ==> trap.None? && error.None?)
    }

    ghost predicate Valid()
      reads this
    {
      Books() && Paired()
    }

    constructor (loaded: bool, phase: Phase, fuelLimit: nat, timeslice: nat)
      ensures Valid() && leaked == {} && View() == Initial(loaded, phase, fuelLimit, timeslice, false)
    {
      this.loaded, this.phase, this.fuelLimit, this.timeslice, fuelRemaining := loaded, phase, fuelLimit, timeslice, fuelLimit;
      state, suspendKind, yielded, subrequestActive := Ready, NotSuspended, false, false;
      hasResume, store, future, futureKind, trap, error := false, None, None, NoWork, None, None;
      result, instanceReady, funcReady := NotI32, false, false;
      wasmtime, interval, storeFuel := Ledger([], multiset{}), 0, 0;
      armedWith, burned, failed, leaked := 0, 0, false, {};
    }

    method DeleteFuture()
      requires Books() && future.Some?
      modifies this`future, this`wasmtime
      ensures Books() && future.None?
    {
      hide Ledger.Balances;
      wasmtime.DeleteBalances(Owned(), future.value);
      wasmtime := wasmtime.Delete(future.value);
      assert Owned() - {future.value} == Opt(store) + Opt(trap) + Opt(error) + leaked;
      future := None;
      assert Owned() == Opt(store) + Opt(trap) + Opt(error) + leaked;
    }

    method ClearAsyncFuture()
      requires Books()
      modifies this`future, this`futureKind, this`wasmtime
      ensures Books() && future.None? && futureKind == NoWork && View() == old(View()).(work := NoWork)
    {
      hide Ledger.Balances;
      if future.Some? {
        DeleteFuture();
      }
      futureKind := NoWork;
    }

    /** Deletes the trap, as the log helper does after naming it. */
    method DeleteTrap()
      requires Books() && trap.Some?
      modifies this`trap, this`wasmtime
      ensures Books() && trap.None? && View() == old(View())
    {
      hide Ledger.Balances;
      wasmtime.DeleteBalances(Owned(), trap.value);
      wasmtime := wasmtime.Delete(trap.value);
      assert Owned() - {trap.value} == Opt(store) + Opt(future) + Opt(error) + leaked;
      trap := None;
      assert Owned() == Opt(store) + Opt(future) + Opt(error) + leaked;
    }

    method DeleteError()
      requires Books() && error.Some?
      modifies this`error, this`wasmtime
      ensures Books() && error.None? && View() == old(View())
    {
      hide Ledger.Balances;
      wasmtime.DeleteBalances(Owned(), error.value);
      wasmtime := wasmtime.Delete(error.value);
      assert Owned() - {error.value} == Opt(store) + Opt(future) + Opt(trap) + leaked;
      error := None;
      assert Owned() == Opt(store) + Opt(future) + Opt(trap) + leaked;
    }

    method ClearAsyncOutputs()
      requires Books()
      modifies this`trap, this`error, this`result, this`wasmtime
      ensures Books() && trap.None? && error.None? && View() == old(View())
    {
      if trap.Some? {
        DeleteTrap();
      }
      if error.Some? {
        DeleteError();
      }
      result := I32(0);
    }

    method DeleteStore()
      requires Books() && store.Some? && future.None?
      modifies this`store, this`wasmtime
      ensures Books() && store.None?
    {
      hide Ledger.Balances;
      wasmtime.DeleteBalances(Owned(), store.value);
      wasmtime := wasmtime.Delete(store.value);
      assert Owned() - {store.value} == Opt(future) + Opt(trap) + Opt(error) + leaked;
      store := None;
      assert Owned() == Opt(future) + Opt(trap) + Opt(error) + leaked;
    }

    method ResetResumeState()
      requires Books()
      modifies this`future, this`futureKind, this`trap, this`error, this`result, this`store, this`wasmtime
      modifies this`instanceReady, this`funcReady
      ensures Books() && Owned() == leaked && futureKind == NoWork && !instanceReady && !funcReady
      ensures store.None? && future.None? && trap.None? && error.None?
    {
      hide Ledger.Balances, View;
      ClearAsyncFuture();
      ClearAsyncOutputs();
      if store.Some? {
        DeleteStore();
      }
      instanceReady, funcReady := false, false;
    }

    /** Everything this context ever obtained is deleted, once; only unfit export items are left over. */
    method CleanupExecCtx()
      requires Valid() && Zeroed()
      modifies this`future, this`futureKind, this`trap, this`error, this`result, this`store, this`wasmtime
      modifies this`instanceReady, this`funcReady, this`hasResume
      ensures Valid() && !hasResume && Owned() == leaked && futureKind == NoWork && !instanceReady && !funcReady
      ensures forall h :: h in wasmtime.made && h.kind != ExternHandle ==> wasmtime.deleted[h] == 1
      ensures forall h :: wasmtime.deleted[h] <= 1
      ensures leaked == {} ==> forall h :: h in wasmtime.made ==> wasmtime.deleted[h] == 1
    {
      if hasResume {
        ResetResumeState();
        hasResume := false;
      }
      assert Owned() == leaked;
    }

    /** Without resume state there is nothing to resume. */
    ghost predicate Zeroed()
      reads this
    {
      !hasResume ==> store.None? && futureKind == NoWork && !instanceReady && !funcReady
    }

    /** init_request_exec: clean up, then begin anew. */
    method InitRequestExec(phase: Phase, fuelLimit: nat, timeslice: nat)
      requires Valid() && Zeroed()
      modifies this
      ensures Valid() && Owned() == leaked == old(leaked)
      ensures View() == Initial(loaded, phase, fuelLimit, timeslice, old(subrequestActive))
    {
      CleanupExecCtx();
      hide Ledger.Balances;
      InitExecCtx(phase, fuelLimit, timeslice);
    }

    method InitExecCtx(phase: Phase, fuelLimit: nat, timeslice: nat)
      requires !hasResume && store.None? && futureKind == NoWork && !instanceReady && !funcReady
      modifies this`phase, this`fuelLimit, this`timeslice, this`fuelRemaining, this`state, this`suspendKind, this`yielded
      modifies this`interval, this`armedWith, this`storeFuel, this`burned, this`failed
      ensures View() == Initial(loaded, phase, fuelLimit, timeslice, subrequestActive)
    {
      ClearRun();
      this.phase, this.fuelLimit, this.timeslice, fuelRemaining := phase, fuelLimit, timeslice, fuelLimit;
    }

    method ClearRun()
      modifies this`state, this`suspendKind, this`yielded, this`interval, this`armedWith, this`storeFuel, this`burned, this`failed
      ensures View() == old(View()).(state := Ready, host := Resume.Host(false, NotSuspended, subrequestActive),
                                     interval := 0, armedWith := 0, storeFuel := 0, burned := 0, failed := false)
    {
      hide View;
      ClearMarks();
      ClearAccounts();
    }

    method ClearMarks()
      modifies this`state, this`suspendKind, this`yielded
      ensures View() == old(View()).(state := Ready, host := Resume.Host(false, NotSuspended, subrequestActive))
    {
      state, suspendKind, yielded := Ready, NotSuspended, false;
    }

    method ClearAccounts()
      modifies this`interval, this`armedWith, this`storeFuel, this`burned, this`failed
      ensures View() == old(View()).(interval := 0, armedWith := 0, storeFuel := 0, burned := 0, failed := false)
    {
      interval, armedWith, storeFuel, burned, failed := 0, 0, 0, 0, false;
    }

    /** Every future not yet deleted runs in a store not yet deleted. */
    lemma FuturesHaveStores(f: Handle)
      requires Valid() && f in wasmtime.made && f.kind == FutureHandle && wasmtime.deleted[f] == 0
      ensures Some(f) == future && exists st :: st in wasmtime.made && wasmtime.deleted[st] == 0 && st.kind == StoreHandle && st.id == f.home
    {
      assert f in Owned() && store.value in Owned();
    }

    /** An error that is only logged: made by the engine, deleted at once. */
    method LogEngineError()
      requires Books()
      modifies this`wasmtime
      ensures Books() && View() == old(View())
    {
      MakeAndDelete(ErrorHandle);
    }

    method MakeAndDelete(kind: Kind)
      requires Books()
      modifies this`wasmtime
      ensures Books() && View() == old(View())
    {
      hide Ledger.Balances;
      var h := wasmtime.Next(kind, 0);
      wasmtime.MakeBalances(Owned(), kind, 0);
      wasmtime := wasmtime.Make(kind, 0);
      wasmtime.DeleteBalances(Owned() + {h}, h);
      wasmtime := wasmtime.Delete(h);
      assert Owned() + {h} - {h} == Owned();
    }

    method LeakItem()
      requires Books()
      modifies this`wasmtime, this`leaked
      ensures Books() && View() == old(View()) && old(leaked) < leaked
    {
      hide Ledger.Balances;
      var h := wasmtime.Next(ExternHandle, 0);
      wasmtime.MakeBalances(Owned(), ExternHandle, 0);
      wasmtime := wasmtime.Make(ExternHandle, 0);
      assert Owned() + {h} == Opt(store) + Opt(future) + Opt(trap) + Opt(error) + (leaked + {h});
      leaked := leaked + {h};
      assert Owned() == Opt(store) + Opt(future) + Opt(trap) + Opt(error) + leaked;
    }

    method StoreNew(made: bool)
      requires Books() && store.None? && hasResume
      modifies this`store, this`wasmtime
      ensures Books() && store.Some? == made && View() == old(View()).(hasStore := made)
    {
      hide Ledger.Balances;
      if made {
        var h := wasmtime.Next(StoreHandle, 0);
        wasmtime.MakeBalances(Owned(), StoreHandle, 0);
        wasmtime := wasmtime.Make(StoreHandle, 0);
        assert Owned() + {h} == Opt(Some(h)) + Opt(future) + Opt(trap) + Opt(error) + leaked;
        store := Some(h);
        assert Owned() == Opt(Some(h)) + Opt(future) + Opt(trap) + Opt(error) + leaked;
      }
    }

    method FutureNew()
      requires Books() && store.Some? && future.None?
      modifies this`future, this`wasmtime
      ensures Books() && future.Some? && View() == old(View())
    {
      hide Ledger.Balances;
      var h := wasmtime.Next(FutureHandle, store.value.id);
      wasmtime.MakeBalances(Owned(), FutureHandle, store.value.id);
      wasmtime := wasmtime.Make(FutureHandle, store.value.id);
      assert Owned() + {h} == Opt(store) + Opt(Some(h)) + Opt(trap) + Opt(error) + leaked;
      future := Some(h);
      assert Owned() == Opt(store) + Opt(Some(h)) + Opt(trap) + Opt(error) + leaked;
    }

    method TrapNew()
      requires Books() && trap.None? && hasResume
      modifies this`trap, this`wasmtime
      ensures Books() && trap.Some? && View() == old(View())
    {
      hide Ledger.Balances;
      var h := wasmtime.Next(TrapHandle, 0);
      wasmtime.MakeBalances(Owned(), TrapHandle, 0);
      wasmtime := wasmtime.Make(TrapHandle, 0);
      assert Owned() + {h} == Opt(store) + Opt(future) + Opt(Some(h)) + Opt(error) + leaked;
      trap := Some(h);
      assert Owned() == Opt(store) + Opt(future) + Opt(Some(h)) + Opt(error) + leaked;
    }

    method ErrorNew()
      requires Books() && error.None? && hasResume
      modifies this`error, this`wasmtime
      ensures Books() && error.Some? && View() == old(View())
    {
      hide Ledger.Balances;
      var h := wasmtime.Next(ErrorHandle, 0);
      wasmtime.MakeBalances(Owned(), ErrorHandle, 0);
      wasmtime := wasmtime.Make(ErrorHandle, 0);
      assert Owned() + {h} == Opt(store) + Opt(future) + Opt(trap) + Opt(Some(h)) + leaked;
      error := Some(h);
      assert Owned() == Opt(store) + Opt(future) + Opt(trap) + Opt(Some(h)) + leaked;
    }

    /** The engine fills the two outputs; it finds them empty. */
    method Outputs(e: bool, t: bool)
      requires Books() && trap.None? && error.None? && hasResume
      modifies this`trap, this`error, this`wasmtime
      ensures Books() && error.Some? == e && trap.Some? == t && View() == old(View())
    {
      if e {
        ErrorNew();
      }
      if t {
        TrapNew();
      }
    }

    method UpdateFuel(readable: bool) returns (rc: int)
      requires Books()
      modifies this`fuelRemaining, this`wasmtime
      ensures Books() && rc == (if readable then OK else ERROR)
      ensures View() == if readable then old(View()).(fuelRemaining := storeFuel) else old(View())
      ensures View().fuelRemaining == fuelRemaining && View().storeFuel == storeFuel
    {
      if !readable {
        LogEngineError();
        return ERROR;
      }
      fuelRemaining := storeFuel;
      return OK;
    }

    method BeginRun()
      modifies this`state, this`suspendKind, this`yielded, this`armedWith
      ensures View() == Begin(old(View()))
    {
      state, suspendKind, yielded, armedWith := Running, NotSuspended, false, 0;
    }

    method SuspendRun(kind: Suspension) returns (rc: int)
      modifies this`state, this`suspendKind
      ensures Stop(View(), rc) == Suspend(old(View()), kind)
    {
      state, suspendKind := Suspended, kind;
      return AGAIN;
    }

    method PrepareAsyncOp(kind: Work) returns (rc: int)
      requires Books()
      modifies this`state, this`failed, this`futureKind, this`trap, this`error, this`result, this`wasmtime
      ensures Books()
      ensures rc == OK <==> future.None? && old(futureKind) == NoWork
      ensures rc == OK ==> futureKind == kind && trap.None? && error.None? && View() == old(View()).(work := kind)
      ensures rc != OK ==> Stop(View(), rc) == Fail(old(View())) && futureKind == old(futureKind)
    {
      hide Ledger.Balances, View;
      if (future.None?) != (futureKind == NoWork) {
        rc := FailRun();
        return;
      }
      if future.Some? {
        rc := FailRun();
        return;
      }
      ClearAsyncOutputs();
      SetKind(kind);
      return OK;
    }

    method SetKind(kind: Work)
      modifies this`futureKind
      ensures futureKind == kind && View() == old(View()).(work := kind)
    {
      futureKind := kind;
    }

    method PrepareAsyncYield(intervalSet: bool) returns (rc: int)
      requires Books()
      modifies this`interval, this`armedWith, this`wasmtime
      ensures Books() && rc == (if fuelRemaining > 0 && intervalSet then OK else ERROR)
      ensures rc == OK ==> 1 <= interval <= fuelRemaining && (timeslice > 0 ==> interval <= timeslice)
      ensures rc == OK ==> interval == fuelRemaining || interval == timeslice
      ensures View() == if rc == OK then old(View()).(interval := Interval(old(View())), armedWith := fuelRemaining) else old(View())
      ensures View().fuelRemaining == fuelRemaining
    {
      if fuelRemaining == 0 {
        return ERROR;
      }
      var n := fuelRemaining;
      if timeslice > 0 && timeslice < n {
        n := timeslice;
      }
      if !intervalSet {
        LogEngineError();
        return ERROR;
      }
      interval, armedWith := n, fuelRemaining;
      return OK;
    }

    method HostYield()
      modifies this`yielded
      ensures Host() == HostDone(phase.MayWait(), old(Host()), Yield)
    {
      if !phase.MayWait() {
        return;
      }
      yielded := true;
    }

    method HostSubreq(launches: bool)
      modifies this`yielded, this`suspendKind, this`subrequestActive
      ensures Host() == HostDone(phase.MayWait(), old(Host()), Subrequest(launches))
    {
      if !phase.MayWait() {
        return;
      }
      if subrequestActive || !launches {
        return;
      }
      subrequestActive, yielded, suspendKind := true, true, WaitIo;
    }

    method GuestHostCalls(calls: seq<HostCall>)
      modifies this`yielded, this`suspendKind, this`subrequestActive
      ensures Host() == Hosted(phase.MayWait(), old(Host()), calls)
    {
      for i := 0 to |calls|
        invariant Hosted(phase.MayWait(), Host(), calls[i..]) == Hosted(phase.MayWait(), old(Host()), calls)
      {
        assert calls[i..][0] == calls[i] && calls[i..][1..] == calls[i + 1..];
        match calls[i]
        case Yield => HostYield();
        case Subrequest(launches) => HostSubreq(launches);
      }
    }

    /** What guest code does while it runs: it burns fuel and makes host calls. */
    method GuestRuns(p: Poll)
      modifies this`storeFuel, this`burned, this`yielded, this`suspendKind, this`subrequestActive
      ensures View() == Ticked(old(View()), p)
    {
      hide Hosted;
      var burn := if p.burn < storeFuel then p.burn else storeFuel;
      storeFuel, burned := storeFuel - burn, burned + burn;
      GuestHostCalls(p.hostCalls);
    }

    /** The engine polls; a future that completes fills its outputs. */
    method CallFuturePoll(p: Poll) returns (complete: bool)
      requires Valid() && future.Some?
      modifies this`storeFuel, this`burned, this`yielded, this`suspendKind, this`subrequestActive
      modifies this`trap, this`error, this`result, this`wasmtime
      ensures Books() && complete == p.complete && View() == Ticked(old(View()), p)
      ensures !complete ==> trap.None? && error.None?
      ensures complete ==> error.Some? == p.error && trap.Some? == p.trap && result == p.value
    {
      hide Ledger.Balances, Ticked;
      GuestRuns(p);
      complete := p.complete;
      if complete {
        Outputs(p.error, p.trap);
        result := p.value;
      }
    }

    ghost function Told(go: bool, rc: int): Turn
      reads this
    {
      if go then Go(View()) else Stop(View(), rc)
    }

    method FailRun() returns (rc: int)
      modifies this`state, this`failed
      ensures Stop(View(), rc) == Fail(old(View()))
    {
      state, failed := Failed, true;
      return ERROR;
    }

    /** Start a future, unless one is under way. */
    method StartAsync(work: Work, g: Stage) returns (go: bool, rc: int)
      requires Valid() && store.Some? && hasResume && work != NoWork
      modifies this`state, this`failed, this`future, this`futureKind, this`trap, this`error, this`result, this`wasmtime, this`interval, this`armedWith
      ensures Valid() && Told(go, rc) == Begun(old(View()), work, g) && (go ==> future.Some?)
    {
      if future.Some? {
        return true, OK;
      }
      go, rc := StartFuture(work, g);
    }

    method StartFuture(work: Work, g: Stage) returns (go: bool, rc: int)
      requires Valid() && store.Some? && hasResume && work != NoWork && future.None? && View().work == NoWork
      modifies this`state, this`failed, this`future, this`futureKind, this`trap, this`error, this`result, this`wasmtime, this`interval, this`armedWith
      ensures Valid() && Told(go, rc) == Begun(old(View()), work, g) && (go ==> future.Some?)
    {
      hide Ledger.Balances, View;
      rc := Prepare(work, g.intervalSet);
      if rc != OK {
        return false, rc;
      }
      go, rc := Launch(g.start);
    }

    /** What comes before a future is asked for: the interval, and the checks on what is left of an earlier one. */
    method Prepare(work: Work, intervalSet: bool) returns (rc: int)
      requires Valid() && store.Some? && hasResume && work != NoWork && future.None? && View().work == NoWork
      modifies this`state, this`failed, this`futureKind, this`trap, this`error, this`result, this`wasmtime, this`interval, this`armedWith
      ensures Books() && rc in {OK, ERROR} && (rc != OK ==> Valid())
      ensures rc == OK ==> trap.None? && error.None? && futureKind == work
      ensures var v := old(View());
        View() == (if v.fuelRemaining == 0 || !intervalSet then Fail(v).e
                   else v.(interval := Interval(v), armedWith := v.fuelRemaining, work := work))
      ensures rc == OK <==> old(View()).fuelRemaining > 0 && intervalSet
    {
      hide Ledger.Balances, View;
      rc := PrepareAsyncYield(intervalSet);
      if rc != OK {
        rc := FailRun();
        return;
      }
      rc := PrepareAsyncOp(work);
    }

    /** instantiate_async or call_async, and what a refusal leaves to clear. */
    method Launch(start: Start) returns (go: bool, rc: int)
      requires Books() && store.Some? && hasResume && future.None? && futureKind != NoWork && trap.None? && error.None?
      modifies this`state, this`failed, this`future, this`futureKind, this`trap, this`error, this`wasmtime
      ensures Valid() && (go ==> future.Some?)
      ensures Told(go, rc) == if start.Refused? then Fail(old(View()).(work := NoWork)) else Go(old(View()))
    {
      hide Ledger.Balances, View;
      match start
      case Started =>
        FutureNew();
        return true, OK;
      case Refused(e, t) =>
        rc := FailRun();
        Outputs(e, t);
        DropOutput();
        ClearAsyncFuture();
        return false, rc;
    }

    /** The error that a failed start has logged, or else its trap. */
    method DropOutput()
      requires Books()
      modifies this`trap, this`error, this`wasmtime
      ensures Books() && View() == old(View())
      ensures old(error.Some?) ==> error.None? && trap == old(trap)
      ensures old(error.None?) ==> trap.None? && error.None?
    {
      hide Ledger.Balances, View;
      if error.Some? {
        DeleteError();
      } else if trap.Some? {
        DeleteTrap();
      }
    }

    /** Poll the future; when it is over, delete it. */
    method PollAsync(g: Stage) returns (go: bool, rc: int)
      requires Valid() && future.Some?
      modifies this`state, this`failed, this`future, this`futureKind, this`trap, this`error, this`result, this`wasmtime
      modifies this`suspendKind, this`yielded, this`subrequestActive, this`storeFuel, this`burned, this`fuelRemaining
      ensures Valid() && Told(go, rc) == Polled(old(View()), g)
      ensures go ==> error.Some? == g.poll.error && trap.Some? == g.poll.trap && result == g.poll.value
    {
      hide Ledger.Balances, View, Ticked;
      var complete := CallFuturePoll(g.poll);
      if !complete {
        rc := SliceOver(g.fuelRead);
        return false, rc;
      }
      go, rc := FutureOver(g.fuelRead);
    }

    /** The future is complete: delete it, and read the fuel that is left. */
    method FutureOver(fuelRead: bool) returns (go: bool, rc: int)
      requires Books()
      modifies this`state, this`failed, this`future, this`futureKind, this`fuelRemaining, this`wasmtime
      ensures Valid() && Told(go, rc) == var t := old(View()).(work := NoWork);
        if fuelRead then Go(t.(fuelRemaining := t.storeFuel)) else Fail(t)
    {
      hide Ledger.Balances, View;
      ClearAsyncFuture();
      rc := UpdateFuel(fuelRead);
      if rc != OK {
        rc := FailRun();
        return false, rc;
      }
      return true, OK;
    }

    /** The future is not complete: suspend, if there is fuel left. */
    method SliceOver(fuelRead: bool) returns (rc: int)
      requires Valid()
      modifies this`state, this`failed, this`suspendKind, this`fuelRemaining, this`wasmtime
      ensures Valid() && Stop(View(), rc) == var t := old(View());
        if !fuelRead then Fail(t)
        else if t.storeFuel == 0 then Fail(t.(fuelRemaining := 0))
        else Suspend(t.(fuelRemaining := t.storeFuel), Reschedule)
    {
      hide Ledger.Balances, View;
      rc := UpdateFuel(fuelRead);
      if rc != OK || fuelRemaining == 0 {
        rc := FailRun();
        return;
      }
      rc := SuspendRun(Reschedule);
    }

    /** The checks before any guest code: resume state, store, fuel. */
    method OpenRun(a: Answers) returns (go: bool, rc: int)
      requires Valid() && Zeroed()
      modifies this`state, this`failed, this`hasResume, this`store, this`storeFuel, this`wasmtime, this`suspendKind, this`yielded, this`armedWith
      ensures Valid() && Zeroed() && Told(go, rc) == Opened(old(View()), a) && (go ==> store.Some? && hasResume)
    {
      hide Ledger.Balances;
      if !loaded || (!hasResume && !a.resumeMade) {
        rc := FailRun();
        return false, rc;
      }
      hasResume := true;
      go, rc := OpenStore(a);
    }

    method OpenStore(a: Answers) returns (go: bool, rc: int)
      requires Valid() && hasResume && View().loaded && View().hasResume && View().hasStore == store.Some?
      requires View().fuelLimit == fuelLimit
      modifies this`state, this`failed, this`store, this`storeFuel, this`wasmtime, this`suspendKind, this`yielded, this`armedWith
      ensures Valid() && Told(go, rc) == Opened(old(View()), a) && (go ==> store.Some?)
    {
      hide Ledger.Balances, View;
      if store.None? {
        rc := CreateStore(a);
        if rc != OK {
          return false, rc;
        }
      }
      BeginRun();
      return true, OK;
    }

    /** A new store, with the fuel limit set on it. */
    method CreateStore(a: Answers) returns (rc: int)
      requires Valid() && store.None? && hasResume && View().fuelLimit == fuelLimit
      modifies this`state, this`failed, this`store, this`storeFuel, this`wasmtime
      ensures Valid() && rc in {OK, ERROR} && (rc == OK ==> store.Some?)
      ensures rc == OK <==> a.storeMade && (old(View()).fuelLimit == 0 || a.fuelSet)
      ensures var v := old(View());
        View() == (if !a.storeMade then Fail(v.(hasStore := false)).e
                   else if v.fuelLimit == 0 then v.(hasStore := true)
                   else if !a.fuelSet then Fail(v.(hasStore := true)).e
                   else v.(hasStore := true, storeFuel := v.fuelLimit))
    {
      hide Ledger.Balances, View;
      StoreNew(a.storeMade);
      if store.None? {
        rc := FailRun();
        return;
      }
      rc := SetFuel(a.fuelSet);
      if rc != OK {
        rc := FailRun();
      }
    }

    method SetFuel(settable: bool) returns (rc: int)
      requires Books()
      modifies this`storeFuel, this`wasmtime
      ensures Books() && rc == (if fuelLimit == 0 || settable then OK else ERROR)
      ensures View() == if fuelLimit > 0 && settable then old(View()).(storeFuel := fuelLimit) else old(View())
    {
      rc := OK;
      if fuelLimit > 0 {
        if !settable {
          LogEngineError();
          return ERROR;
        }
        storeFuel := fuelLimit;
      }
    }

    method InstantiateStage(g: Stage) returns (go: bool, rc: int)
      requires Valid() && store.Some? && hasResume
      modifies this`state, this`failed, this`future, this`futureKind, this`trap, this`error, this`result, this`wasmtime, this`interval, this`armedWith
      modifies this`suspendKind, this`yielded, this`subrequestActive, this`storeFuel, this`burned, this`fuelRemaining, this`instanceReady
      ensures Valid() && Told(go, rc) == Instantiated(old(View()), g)
    {
      if instanceReady {
        return true, OK;
      }
      go, rc := InstantiateNow(g);
    }

    method InstantiateNow(g: Stage) returns (go: bool, rc: int)
      requires Valid() && store.Some? && hasResume && !View().instanceReady
      modifies this`state, this`failed, this`future, this`futureKind, this`trap, this`error, this`result, this`wasmtime, this`interval, this`armedWith
      modifies this`suspendKind, this`yielded, this`subrequestActive, this`storeFuel, this`burned, this`fuelRemaining, this`instanceReady
      ensures Valid() && Told(go, rc) == Instantiated(old(View()), g)
    {
      hide Ledger.Balances, Driven, View;
      go, rc := DriveAsync(Instantiate, g);
      if !go {
        return;
      }
      if error.Some? {
        rc := FailRun();
        DeleteError();
        return false, rc;
      }
      if trap.Some? {
        rc := FailRun();
        DeleteTrap();
        return false, rc;
      }
      SetInstanceReady();
    }

    method SetInstanceReady()
      modifies this`instanceReady
      ensures View() == old(View()).(instanceReady := true)
    {
      instanceReady := true;
    }

    /** Start if need be, then poll: the part that instantiation and call have in common. */
    method DriveAsync(work: Work, g: Stage) returns (go: bool, rc: int)
      requires Valid() && store.Some? && hasResume && work != NoWork
      modifies this`state, this`failed, this`future, this`futureKind, this`trap, this`error, this`result, this`wasmtime, this`interval, this`armedWith
      modifies this`suspendKind, this`yielded, this`subrequestActive, this`storeFuel, this`burned, this`fuelRemaining
      ensures Valid() && Told(go, rc) == Driven(old(View()), work, g)
      ensures go ==> error.Some? == g.poll.error && trap.Some? == g.poll.trap && result == g.poll.value
    {
      hide Ledger.Balances, Begun, Polled, View;
      go, rc := StartAsync(work, g);
      if go {
        go, rc := PollAsync(g);
      }
    }

    /** Look the export up; an item of another kind than a function is left undeleted. */
    method ExportStage(x: Export) returns (go: bool, rc: int)
      requires Valid() && store.Some?
      modifies this`state, this`failed, this`funcReady, this`wasmtime, this`leaked
      ensures Valid() && Told(go, rc) == Exported(old(View()), x)
      ensures leaked != old(leaked) <==> !old(View()).funcReady && x.NotFunction?
      ensures old(leaked) <= leaked
    {
      hide Ledger.Balances;
      if funcReady {
        return true, OK;
      }
      match x
      case Missing =>
        rc := FailRun();
        return false, rc;
      case NotFunction =>
        LeakItem();
        rc := FailRun();
        return false, rc;
      case Function =>
        MakeAndDelete(ExternHandle);
        funcReady := true;
        return true, OK;
    }

    method CallStage(g: Stage) returns (rc: int)
      requires Valid() && store.Some? && hasResume
      modifies this`state, this`failed, this`future, this`futureKind, this`trap, this`error, this`result, this`wasmtime, this`interval, this`armedWith
      modifies this`suspendKind, this`yielded, this`subrequestActive, this`storeFuel, this`burned, this`fuelRemaining
      ensures Valid() && Stop(View(), rc) == Called(old(View()), g)
    {
      hide Ledger.Balances, Driven, View, Concluded;
      var go;
      go, rc := DriveAsync(Invoke, g);
      if go {
        rc := Conclude(g.poll);
      }
    }

    /** After the call: an error, a yield, a trap, the guest's own result, in this order. */
    method Conclude(ghost p: Poll) returns (rc: int)
      requires Valid() && error.Some? == p.error && trap.Some? == p.trap && result == p.value
      modifies this`state, this`failed, this`suspendKind, this`trap, this`error, this`wasmtime
      ensures Valid() && Stop(View(), rc) == Concluded(old(View()), p)
    {
      hide Ledger.Balances;
      if error.Some? {
        rc := FailRun();
        DeleteError();
        return;
      }
      if yielded {
        rc := SuspendRun(if suspendKind == NotSuspended then Reschedule else suspendKind);
        return;
      }
      if trap.Some? {
        rc := FailRun();
        DeleteTrap();
        return;
      }
      if result != I32(0) {
        rc := FailRun();
        return;
      }
      state := Done;
      return OK;
    }

    /** runtime_run: every exit keeps the books, and the new state is that of `Run`. */
    method RuntimeRun(a: Answers) returns (rc: int)
      requires Valid() && Zeroed()
      modifies this
      ensures Valid() && Zeroed() && Stop(View(), rc) == Run(old(View()), a)
      ensures old(leaked) <= leaked
      ensures leaked != old(leaked) <==> LooksUp(old(View()), a) && a.exported.NotFunction?
    {
      hide Ledger.Balances, Opened, Instantiated, Exported, Called, View;
      var go;
      go, rc := OpenRun(a);
      if !go {
        return;
      }
      go, rc := InstantiateStage(a.instantiate);
      if !go {
        return;
      }
      go, rc := ExportStage(a.exported);
      if !go {
        return;
      }
      rc := CallStage(a.call);
    }

    /** The active subrequest completes between two runs. */
    method SubrequestDone(done: bool)
      modifies this`subrequestActive
      ensures View() == Woken(old(View()), done)
    {
      if done {
        subrequestActive := false;
      }
    }

    /** A request's life: any number of runs, whatever they come to, and the cleanup of its pool. */
    method RunsThenCleanup(runs: seq<(bool, Answers)>)
      requires Valid() && Zeroed() && leaked == {}
      modifies this
      ensures Valid() && forall h :: h in wasmtime.made && h.kind != ExternHandle ==> wasmtime.deleted[h] == 1
      ensures forall h :: wasmtime.deleted[h] <= 1
      ensures (forall r :: r in runs ==> !r.1.exported.NotFunction?) ==> forall h :: h in wasmtime.made ==> wasmtime.deleted[h] == 1
    {
      hide Ledger.Balances, Run, LooksUp;
      for i := 0 to |runs|
        invariant Valid() && Zeroed()
        invariant (forall r :: r in runs ==> !r.1.exported.NotFunction?) ==> leaked == {}
      {
        assert runs[i] in runs;
        SubrequestDone(runs[i].0);
        var rc := RuntimeRun(runs[i].1);
      }
      CleanupExecCtx();
    }
  }
}
