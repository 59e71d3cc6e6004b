/** When a run completes, when it suspends, and what a series of runs amounts to. */
module ResumeRuns {
  import opened Resume
  import opened ResumeLaws

  predicate Sound(e: Exec) { Resumable(e) && Fuelled(e) }

  predicate Launches(h: Host, calls: seq<HostCall>) { !h.active && Subrequest(true) in calls }

  /** Host calls, told without their order: who asked for a wait, and which. */
  lemma {:induction false} HostedMeans(may: bool, h: Host, calls: seq<HostCall>)
    ensures var r := Hosted(may, h, calls);
      && (r.yielded <==> h.yielded || (may && (Yield in calls || Launches(h, calls))))
      && (r.kind == WaitIo <==> h.kind == WaitIo || (may && Launches(h, calls)))
      && (r.active <==> h.active || (may && Launches(h, calls)))
      && (r.kind != WaitIo ==> r.kind == h.kind)
    decreases |calls|
  {
    if calls != [] {
      HostedMeans(may, HostDone(may, h, calls[0]), calls[1..]);
      assert forall c :: c in calls <==> c == calls[0] || c in calls[1..];
    }
  }

  predicate Opens(e: Exec, a: Answers) {
    e.loaded && (e.hasResume || a.resumeMade) && (e.hasStore || (a.storeMade && (e.fuelLimit == 0 || a.fuelSet)))
  }

  function Left(fuel: nat, p: Poll): nat { if p.burn < fuel then fuel - p.burn else 0 }

  /** A future is under way, or there is fuel and the engine starts one. */
  predicate Starts(underway: bool, fuel: nat, g: Stage) {
    underway || (fuel > 0 && g.intervalSet && g.start.Started?)
  }

  predicate Ends(g: Stage) { g.poll.complete && g.fuelRead && !g.poll.error }

  /** The engine stopped the guest after a timeslice, and fuel is left. */
  predicate Pauses(fuel: nat, g: Stage) { !g.poll.complete && g.fuelRead && Left(fuel, g.poll) > 0 }

  predicate Readies(e: Exec, a: Answers) {
    e.instanceReady || (Starts(e.work != NoWork, e.fuelRemaining, a.instantiate) && Ends(a.instantiate) && !a.instantiate.poll.trap)
  }

  /** What is left on the store of `e`; a store to come is filled to the limit. */
  function Fuel(e: Exec): nat { if e.hasStore then e.storeFuel else e.fuelLimit }

  function FuelAtCall(e: Exec, a: Answers): nat {
    if e.instanceReady then e.fuelRemaining else Left(Fuel(e), a.instantiate.poll)
  }

  predicate Invokes(e: Exec, a: Answers) {
    Opens(e, a) && Readies(e, a) && (e.funcReady || a.exported.Function?) && Starts(e.work == Invoke, FuelAtCall(e, a), a.call)
  }

  function FuelInCall(e: Exec, a: Answers): nat {
    if e.instanceReady then Fuel(e) else FuelAtCall(e, a)
  }

  /** The host calls that the guest makes if this run gets as far as the call. */
  function HostCalls(e: Exec, a: Answers): seq<HostCall> {
    (if e.instanceReady then [] else a.instantiate.poll.hostCalls) + a.call.poll.hostCalls
  }

  predicate LaunchedIn(e: Exec, a: Answers) { e.phase.MayWait() && Launches(e.host, HostCalls(e, a)) }

  predicate YieldedIn(e: Exec, a: Answers) { e.phase.MayWait() && (Yield in HostCalls(e, a) || Launches(e.host, HostCalls(e, a))) }

  lemma {:induction false} HostedConcat(may: bool, h: Host, c: seq<HostCall>, d: seq<HostCall>)
    ensures Hosted(may, h, c + d) == Hosted(may, Hosted(may, h, c), d)
    decreases |c|
  {
    if c == [] {
      assert c + d == d;
    } else {
      assert (c + d)[1..] == c[1..] + d;
      HostedConcat(may, HostDone(may, h, c[0]), c[1..], d);
    }
  }

  predicate Completes(e: Exec, a: Answers) {
    Invokes(e, a) && Ends(a.call) && !YieldedIn(e, a) && !a.call.poll.trap && a.call.poll.value == I32(0)
  }

  predicate GuestWaits(e: Exec, a: Answers) { Invokes(e, a) && Ends(a.call) && YieldedIn(e, a) }

  predicate SlicedOut(e: Exec, a: Answers) {
    || (Opens(e, a) && !e.instanceReady && Starts(e.work != NoWork, e.fuelRemaining, a.instantiate) && Pauses(Fuel(e), a.instantiate))
    || (Invokes(e, a) && Pauses(FuelInCall(e, a), a.call))
  }

  function Driving(e: Exec, interval: nat, armedWith: nat, burned: nat, p: Poll): Exec {
    e.(work := NoWork, interval := interval, armedWith := armedWith, burned := burned, storeFuel := Left(e.storeFuel, p),
       fuelRemaining := Left(e.storeFuel, p), host := Hosted(e.phase.MayWait(), e.host, p.hostCalls))
  }

  lemma DrivenMeans(e: Exec, work: Work, g: Stage)
    requires work != NoWork
    ensures var t := Driven(e, work, g);
      && (t.Go? <==> Starts(e.work != NoWork, e.fuelRemaining, g) && g.poll.complete && g.fuelRead)
      && (t.Stop? ==> (t.rc == AGAIN <==> Starts(e.work != NoWork, e.fuelRemaining, g) && Pauses(e.storeFuel, g)))
      && (t.Stop? ==> t.rc in {AGAIN, ERROR})
      && (t.Stop? && t.rc == AGAIN ==> t.e.host.kind == Reschedule && t.e.work != NoWork)
      && (t.Go? ==> t.e == Driving(e, t.e.interval, t.e.armedWith, t.e.burned, g.poll))
  {
    BegunMeans(e, work, g);
    var b := Begun(e, work, g);
    hide Hosted, Begun;
    if b.Go? {
      PolledMeans(b.e, g);
      hide Polled, Pauses;
    }
  }

  lemma BegunMeans(e: Exec, work: Work, g: Stage)
    requires work != NoWork
    ensures var t := Begun(e, work, g);
      && (t.Go? <==> Starts(e.work != NoWork, e.fuelRemaining, g))
      && (t.Stop? ==> t.rc == ERROR)
      && (t.Go? ==> t.e.work != NoWork && t.e == e.(work := t.e.work, interval := t.e.interval, armedWith := t.e.armedWith))
      && (t.Go? ==> t.e.work == if e.work == NoWork then work else e.work)
      && (t.Stop? ==> t.e.work == NoWork && t.e.state == Failed) && Frame(e, t.e)
      && (t.e.armedWith == if e.work == NoWork && e.fuelRemaining > 0 && g.intervalSet then e.fuelRemaining else e.armedWith)
  {
  }

  /** Driving a future moves none of the marks of progress. */
  predicate Frame(a: Exec, b: Exec) {
    && b.loaded == a.loaded && b.phase == a.phase && b.fuelLimit == a.fuelLimit && b.timeslice == a.timeslice
    && b.hasResume == a.hasResume && b.hasStore == a.hasStore && b.instanceReady == a.instanceReady && b.funcReady == a.funcReady
  }

  lemma PolledMeans(e: Exec, g: Stage)
    ensures var t := Polled(e, g);
      && (t.Go? <==> g.poll.complete && g.fuelRead)
      && (t.Stop? ==> t.rc in {AGAIN, ERROR} && (t.rc == AGAIN <==> Pauses(e.storeFuel, g)))
      && (t.Stop? && t.rc == AGAIN ==> t.e.host.kind == Reschedule && t.e.work == e.work)
      && (t.Go? ==> t.e == Driving(e, e.interval, e.armedWith, t.e.burned, g.poll))
      && (t.Stop? ==> t.e.work == if g.poll.complete then NoWork else e.work)
      && (t.Stop? && t.rc == AGAIN ==> t.e.fuelRemaining == Left(e.storeFuel, g.poll))
      && (t.Stop? && t.rc == ERROR ==> t.e.state == Failed) && t.e.armedWith == e.armedWith && Frame(e, t.e)
  {
    hide Hosted;
  }

  /** What driving a future leaves, whether it goes on or stops. */
  lemma DrivenLeaves(e: Exec, work: Work, g: Stage)
    requires work != NoWork
    ensures var t := Driven(e, work, g);
      && Frame(e, t.e)
      && t.e.work == (if Starts(e.work != NoWork, e.fuelRemaining, g) && !g.poll.complete then (if e.work == NoWork then work else e.work)
                      else NoWork)
      && t.e.armedWith == (if e.work == NoWork && e.fuelRemaining > 0 && g.intervalSet then e.fuelRemaining else e.armedWith)
      && (t.Go? || t.rc == AGAIN ==> t.e.fuelRemaining == Left(e.storeFuel, g.poll))
      && (t.Stop? ==> t.rc == AGAIN || t.e.state == Failed)
  {
    BegunMeans(e, work, g);
    var b := Begun(e, work, g);
    hide Begun;
    if b.Go? {
      PolledMeans(b.e, g);
      hide Polled;
    }
  }

  lemma OpenedMeans(e: Exec, a: Answers)
    requires Sound(e)
    ensures Opened(e, a).Go? <==> Opens(e, a)
    ensures Opened(e, a).Go? ==> Opened(e, a).e == Begin(e.(hasResume := true, hasStore := true, storeFuel := Fuel(e)))
    ensures Opened(e, a).Stop? ==> Opened(e, a).rc == ERROR
    ensures var t := Opened(e, a).e;
      && t.work == e.work && t.instanceReady == e.instanceReady && t.funcReady == e.funcReady
      && (t.hasResume <==> e.hasResume || (e.loaded && a.resumeMade))
      && (t.hasStore <==> e.hasStore || (t.hasResume && e.loaded && a.storeMade))
  {
  }

  lemma ConcludedMeans(e: Exec, p: Poll)
    ensures var t := Concluded(e, p);
      && t.Stop?
      && (t.rc == OK <==> !p.error && !e.host.yielded && !p.trap && p.value == I32(0))
      && (t.rc == AGAIN <==> !p.error && e.host.yielded)
      && (t.rc == AGAIN ==> t.e.host.kind == (if e.host.kind == NotSuspended then Reschedule else e.host.kind))
      && t.e.work == e.work && t.e.host.active == e.host.active
      && t.e.armedWith == e.armedWith && t.e.fuelRemaining == e.fuelRemaining && Frame(e, t.e)
  {
  }

  /** What a run comes to, in terms of the engine's answers alone. */
  ghost predicate Outcome(e: Exec, a: Answers, t: Turn) {
    && t.Stop?
    && (t.rc == OK <==> Completes(e, a))
    && (t.rc == AGAIN <==> GuestWaits(e, a) || SlicedOut(e, a))
    && (GuestWaits(e, a) ==> t.e.work == NoWork && t.e.host.kind == (if LaunchedIn(e, a) then WaitIo else Reschedule))
    && (GuestWaits(e, a) && LaunchedIn(e, a) ==> t.e.host.active)
    && (SlicedOut(e, a) ==> t.e.work != NoWork && t.e.host.kind == Reschedule)
  }

  /** The call stage, from a context `u` that has its function. */
  lemma CallMeans(u: Exec, g: Stage)
    requires u.host.kind in {NotSuspended, WaitIo}
    ensures var t := Called(u, g);
      var started := Starts(u.work != NoWork, u.fuelRemaining, g);
      var h := Hosted(u.phase.MayWait(), u.host, g.poll.hostCalls);
      && t.Stop?
      && (t.rc == OK <==> started && Ends(g) && !h.yielded && !g.poll.trap && g.poll.value == I32(0))
      && (t.rc == AGAIN <==> (started && Ends(g) && h.yielded) || (started && Pauses(u.storeFuel, g)))
      && (started && Ends(g) && h.yielded ==> t.e.work == NoWork && t.e.host.active == h.active)
      && (started && Ends(g) && h.yielded ==> t.e.host.kind == (if h.kind == WaitIo then WaitIo else Reschedule))
      && (started && Pauses(u.storeFuel, g) ==> t.e.work != NoWork && t.e.host.kind == Reschedule)
  {
    DrivenMeans(u, Invoke, g);
    HostedMeans(u.phase.MayWait(), u.host, g.poll.hostCalls);
    var d := Driven(u, Invoke, g);
    hide Driven, Hosted;
    if d.Go? {
      ConcludedMeans(d.e, g.poll);
      hide Concluded;
    }
  }

  lemma HostOfRun(e: Exec, a: Answers)
    ensures var m := e.phase.MayWait();
      var h0 := Host(false, NotSuspended, e.host.active);
      var h1 := if e.instanceReady then h0 else Hosted(m, h0, a.instantiate.poll.hostCalls);
      var h := Hosted(m, h1, a.call.poll.hostCalls);
      && h1.kind in {NotSuspended, WaitIo}
      && (h.yielded <==> YieldedIn(e, a)) && (h.kind == WaitIo <==> LaunchedIn(e, a)) && (LaunchedIn(e, a) ==> h.active)
  {
    var m, h0 := e.phase.MayWait(), Host(false, NotSuspended, e.host.active);
    HostedConcat(m, h0, a.instantiate.poll.hostCalls, a.call.poll.hostCalls);
    HostedMeans(m, h0, HostCalls(e, a));
    HostedMeans(m, h0, a.instantiate.poll.hostCalls);
    if e.instanceReady { assert HostCalls(e, a) == a.call.poll.hostCalls; }
  }

  /** The instantiation stage, from a context `o` that a run has just opened. */
  lemma InstantiatedMeans(o: Exec, g: Stage)
    ensures var t := Instantiated(o, g);
      var started := Starts(o.work != NoWork, o.fuelRemaining, g);
      && (t.Go? <==> o.instanceReady || (started && Ends(g) && !g.poll.trap))
      && (t.Stop? ==> t.rc in {AGAIN, ERROR})
      && (t.Stop? ==> (t.rc == AGAIN <==> started && Pauses(o.storeFuel, g)))
      && (t.Stop? && t.rc == AGAIN ==> t.e.work != NoWork && t.e.host.kind == Reschedule)
      && (t.Go? && o.instanceReady ==> t.e == o)
      && (t.Go? && !o.instanceReady ==> t.e == Driving(o, t.e.interval, t.e.armedWith, t.e.burned, g.poll).(instanceReady := true))
  {
    DrivenMeans(o, Instantiate, g);
    hide Driven, Hosted;
  }

  lemma OutcomeBeforeCall(e: Exec, a: Answers)
    requires Sound(e) && (Opened(e, a).Go? ==> Instantiated(Opened(e, a).e, a.instantiate).Stop?)
    ensures Outcome(e, a, Run(e, a))
  {
    hide Starts, Left, Launches;
    OpenedMeans(e, a);
    var o := Opened(e, a);
    hide Opened;
    if o.Go? {
      InstantiatedMeans(o.e, a.instantiate);
      hide Instantiated;
    }
  }

  lemma OutcomeOfCall(e: Exec, a: Answers)
    requires Sound(e) && Opened(e, a).Go? && Instantiated(Opened(e, a).e, a.instantiate).Go?
    ensures Outcome(e, a, Run(e, a))
  {
    hide Starts, Left, Launches;
    OpenedMeans(e, a);
    HostOfRun(e, a);
    var o := Opened(e, a);
    InstantiatedMeans(o.e, a.instantiate);
    var u := Instantiated(o.e, a.instantiate);
    hide Opened, Instantiated, Hosted;
    var v := Exported(u.e, a.exported);
    if v.Go? {
      CallMeans(v.e, a.call);
      hide Called;
    }
  }

  /** What a run comes to, for every context and every answer of the engine. */
  lemma RunOutcome(e: Exec, a: Answers)
    requires Sound(e)
    ensures Outcome(e, a, Run(e, a))
  {
    hide Outcome;
    if Opened(e, a).Go? && Instantiated(Opened(e, a).e, a.instantiate).Go? {
      OutcomeOfCall(e, a);
    } else {
      OutcomeBeforeCall(e, a);
    }
  }

  /** The call is begun anew in this run. */
  predicate CallsAnew(e: Exec, a: Answers) {
    && Opens(e, a) && Readies(e, a) && (e.funcReady || a.exported.Function?) && e.work != Invoke
    && FuelAtCall(e, a) > 0 && a.call.intervalSet
  }

  /** The instantiation is begun in this run. */
  predicate InstantiatesAnew(e: Exec, a: Answers) {
    Opens(e, a) && !e.instanceReady && e.work == NoWork && e.fuelRemaining > 0 && a.instantiate.intervalSet
  }

  /** The fuel left when the run last set the interval, 0 if it did not. */
  function ArmedWith(e: Exec, a: Answers): nat {
    if CallsAnew(e, a) then FuelAtCall(e, a) else if InstantiatesAnew(e, a) then e.fuelRemaining else 0
  }

  /** What a run leaves behind, however it ends. */
  ghost predicate Leaves(e: Exec, a: Answers, z: Exec) {
    && (z.hasResume <==> e.hasResume || (e.loaded && a.resumeMade))
    && (z.hasStore <==> e.hasStore || (z.hasResume && e.loaded && a.storeMade))
    && (z.instanceReady <==> e.instanceReady || (Opens(e, a) && Readies(e, a)))
    && (z.funcReady <==> e.funcReady || (Opens(e, a) && Readies(e, a) && a.exported.Function?))
    && z.work == (
         if !Opens(e, a) then e.work
         else if !Readies(e, a) then
           (if Starts(e.work != NoWork, e.fuelRemaining, a.instantiate) && !a.instantiate.poll.complete then Instantiate else NoWork)
         else if Invokes(e, a) && !a.call.poll.complete then Invoke
         else NoWork)
    && (Opens(e, a) ==> z.armedWith == ArmedWith(e, a))
    && (z.armedWith > 0 && Opens(e, a) ==> Lesser(z.interval, e.timeslice, z.armedWith))
    && (Invokes(e, a) && z.state != Failed ==> z.fuelRemaining == Left(FuelInCall(e, a), a.call.poll))
  }

  /**
    * The marks of progress, the future that stays alive, the fuel that is left and the interval, at every exit of a run: a
    * guest is instantiated and looked up once, and the interval is the timeslice or all the fuel there was.
    */
  lemma RunLeaves(e: Exec, a: Answers)
    requires Sound(e)
    ensures Leaves(e, a, Run(e, a).e)
  {
    RunKeeps(e, a);
    hide Leaves, Keeps;
    if Opened(e, a).Go? && Instantiated(Opened(e, a).e, a.instantiate).Go? {
      LeavesOfCall(e, a);
    } else {
      LeavesBeforeCall(e, a);
    }
  }

  lemma LeavesBeforeCall(e: Exec, a: Answers)
    requires Sound(e) && (Opened(e, a).Go? ==> Instantiated(Opened(e, a).e, a.instantiate).Stop?)
    ensures Leaves(e, a, Run(e, a).e)
  {
    RunKeeps(e, a);
    OpenedMeans(e, a);
    var o := Opened(e, a);
    hide Opened, Keeps, Left;
    if o.Go? {
      InstantiatedLeaves(o.e, a.instantiate);
      InstantiatedMeans(o.e, a.instantiate);
      hide Instantiated;
    }
  }

  lemma LeavesOfCall(e: Exec, a: Answers)
    requires Sound(e) && Opened(e, a).Go? && Instantiated(Opened(e, a).e, a.instantiate).Go?
    ensures Leaves(e, a, Run(e, a).e)
  {
    RunKeeps(e, a);
    OpenedMeans(e, a);
    var o := Opened(e, a);
    InstantiatedLeaves(o.e, a.instantiate);
    InstantiatedMeans(o.e, a.instantiate);
    var u := Instantiated(o.e, a.instantiate);
    hide Opened, Keeps, Instantiated, Left;
    var v := Exported(u.e, a.exported);
    if v.Go? {
      CalledLeaves(v.e, a.call);
      hide Called;
    }
  }

  lemma InstantiatedLeaves(o: Exec, g: Stage)
    ensures var t := Instantiated(o, g).e;
      && t.hasResume == o.hasResume && t.hasStore == o.hasStore && t.funcReady == o.funcReady
      && (Instantiated(o, g).Stop? ==> t.instanceReady == o.instanceReady)
      && (o.instanceReady ==> t == o)
    ensures !o.instanceReady ==> var t := Instantiated(o, g).e;
      && t.work == (if Starts(o.work != NoWork, o.fuelRemaining, g) && !g.poll.complete then (if o.work == NoWork then Instantiate else o.work)
                    else NoWork)
      && t.armedWith == (if o.work == NoWork && o.fuelRemaining > 0 && g.intervalSet then o.fuelRemaining else o.armedWith)
  {
    DrivenLeaves(o, Instantiate, g);
    hide Driven;
  }

  lemma CalledLeaves(v: Exec, g: Stage)
    ensures var t := Called(v, g).e;
      && Frame(v, t)
      && t.work == (if Starts(v.work != NoWork, v.fuelRemaining, g) && !g.poll.complete then (if v.work == NoWork then Invoke else v.work)
                    else NoWork)
      && t.armedWith == (if v.work == NoWork && v.fuelRemaining > 0 && g.intervalSet then v.fuelRemaining else v.armedWith)
      && (t.state != Failed ==> t.fuelRemaining == Left(v.storeFuel, g.poll))
  {
    DrivenLeaves(v, Invoke, g);
    DrivenMeans(v, Invoke, g);
    var d := Driven(v, Invoke, g);
    hide Driven, Starts, Driving, Left;
    if d.Go? {
      ConcludedMeans(d.e, g.poll);
      hide Concluded;
    }
  }

  /** Which runs look the export up, and so leave an item of the wrong kind undeleted. */
  lemma LooksUpWhen(e: Exec, a: Answers)
    requires Sound(e)
    ensures LooksUp(e, a) <==> Opens(e, a) && Readies(e, a) && !e.funcReady
    ensures LooksUp(e, a) && !a.exported.Function? ==> Run(e, a).rc == ERROR
  {
    RunOutcome(e, a);
    RunKeeps(e, a);
    OpenedMeans(e, a);
    var o := Opened(e, a);
    hide Opened, Driven, Run;
    if o.Go? {
      InstantiatedMeans(o.e, a.instantiate);
    }
    hide Instantiated;
  }

  /** A first run that finds the export to be no function. */
  lemma ItemLeft()
    ensures LooksUp(Fresh(), Unfit()) && Unfit().exported.NotFunction? && Run(Fresh(), Unfit()).rc == ERROR
  {
    hide LooksUp;
    LooksUpWhen(Fresh(), Unfit());
  }

  function Unfit(): Answers { Finish().(exported := NotFunction) }

  /** A run of a series, and whether the active subrequest has completed since the run before it. */
  datatype Resumption = Resumption(subrequestDone: bool, answers: Answers)

  /** The context after a series of runs. */
  function After(e: Exec, runs: seq<Resumption>): Exec {
    if runs == [] then e
    else
      var last := runs[|runs| - 1];
      Run(Woken(After(e, runs[..|runs| - 1]), last.subrequestDone), last.answers).e
  }

  /** Every run of the series suspends. */
  predicate AllSuspend(e: Exec, runs: seq<Resumption>) {
    runs == [] || (AllSuspend(e, runs[..|runs| - 1]) && After(e, runs).state == Suspended)
  }

  /** Every run of the series burns fuel. */
  predicate AllBurn(e: Exec, runs: seq<Resumption>) {
    runs == [] || (AllBurn(e, runs[..|runs| - 1]) && After(e, runs[..|runs| - 1]).burned < After(e, runs).burned)
  }

  /** Any series of runs, failed ones included: the resume state stays consistent and fuel never comes back. */
  lemma {:induction false} SeriesKeeps(e: Exec, runs: seq<Resumption>)
    requires Sound(e)
    ensures Sound(After(e, runs)) && Later(e, After(e, runs))
  {
    if runs != [] {
      var before, last := runs[..|runs| - 1], runs[|runs| - 1];
      SeriesKeeps(e, before);
      RunKeeps(Woken(After(e, before), last.subrequestDone), last.answers);
      hide Run;
    }
  }

  /** Fuel bounds the suspensions of a request: at most one per unit of the limit. */
  lemma {:induction false} SuspensionsBounded(e: Exec, runs: seq<Resumption>)
    requires Sound(e) && !e.failed && AllSuspend(e, runs) && AllBurn(e, runs)
    ensures var z := After(e, runs);
      && Sound(z) && !z.failed
      && (runs != [] ==> z.burned + z.fuelRemaining == e.fuelLimit)
      && e.burned + |runs| <= z.burned && |runs| <= e.fuelRemaining
      && (runs != [] && z.work != NoWork ==> |runs| < e.fuelRemaining)
  {
    if runs != [] {
      var before, last := runs[..|runs| - 1], runs[|runs| - 1];
      SuspensionsBounded(e, before);
      SeriesKeeps(e, before);
      RunKeeps(Woken(After(e, before), last.subrequestDone), last.answers);
      hide Run;
    }
  }

  /** `a`, had the engine answered the start of the call otherwise. */
  function Restarted(a: Answers, start: Start): Answers { a.(call := a.call.(start := start)) }

  /** While a call is under way, runs ask for no new one. */
  lemma OngoingCall(n: Exec, b: Answers, start: Start)
    requires Sound(n) && n.work == Invoke
    ensures Run(n, Restarted(b, start)) == Run(n, b)
  {
    OpenedMeans(n, b);
    OpenedMeans(n, Restarted(b, start));
    hide Polled, Concluded;
  }

  /** Which suspensions leave a call under way. */
  lemma WorkAfter(e: Exec, a: Answers)
    requires Sound(e) && Run(e, a).rc == AGAIN
    ensures Run(e, a).e.work == Invoke <==> !GuestWaits(e, a) && Invokes(e, a)
  {
    RunOutcome(e, a);
    RunKeeps(e, a);
    OpenedMeans(e, a);
    var o := Opened(e, a);
    hide Opened;
    InstantiatedMeans(o.e, a.instantiate);
    hide Polled, Concluded;
  }

  /**
    * What a resumption does about the guest call: after a wait of the guest's own it is begun anew, and does not
    * complete if it cannot be; after a timeslice within the call the same call goes on, and no new one is asked for.
    */
  lemma CallAfterSuspension(e: Exec, a: Answers, b: Answers, start: Start)
    requires Sound(e) && Run(e, a).rc == AGAIN
    ensures var n := Run(e, a).e;
      && (GuestWaits(e, a) && start.Refused? ==> Run(n, Restarted(b, start)).rc != OK)
      && (n.work == Invoke ==> Run(n, Restarted(b, start)) == Run(n, b))
      && (n.work == Invoke <==> !GuestWaits(e, a) && Invokes(e, a))
  {
    RunOutcome(e, a);
    RunKeeps(e, a);
    WorkAfter(e, a);
    var n := Run(e, a).e;
    if n.work == Invoke {
      OngoingCall(n, b, start);
    } else if n.work == NoWork {
      RunOutcome(n, Restarted(b, start));
    }
    hide Run;
  }

  lemma CodeFitsState(e: Exec, a: Answers)
    requires Sound(e)
    ensures var t := Run(e, a);
      && t.rc in {OK, AGAIN, ERROR}
      && (t.rc == OK <==> t.e.state == Done) && (t.rc == AGAIN <==> t.e.state == Suspended) && (t.rc == ERROR <==> t.e.state == Failed)
      && (t.e.failed <==> e.failed || t.rc == ERROR)
  {
    RunKeeps(e, a);
  }

  /** A context before its first run: sound for every phase and budget, all of the limit left, nothing begun. */
  lemma InitialMeans(loaded: bool, phase: Phase, fuelLimit: nat, timeslice: nat, active: bool)
    ensures var e := Initial(loaded, phase, fuelLimit, timeslice, active);
      && Sound(e) && e.loaded == loaded && e.phase == phase && e.state == Ready && !e.failed
      && e.fuelLimit == fuelLimit && e.timeslice == timeslice && e.fuelRemaining == fuelLimit && e.burned == 0
      && !e.hasResume && !e.hasStore && e.work == NoWork && !e.instanceReady && !e.funcReady
      && e.host.active == active && !e.host.yielded && e.host.kind == NotSuspended
  {
  }

  /** A first run of any phase opens, instantiates, finds the function and calls it, if the engine answers so and there is fuel. */
  lemma FirstRunInvokes(phase: Phase, fuelLimit: nat, timeslice: nat, a: Answers)
    requires a.resumeMade && a.storeMade && a.fuelSet && a.exported.Function?
    requires a.instantiate.intervalSet && a.instantiate.start.Started? && Ends(a.instantiate) && !a.instantiate.poll.trap
    requires a.call.intervalSet && a.call.start.Started?
    ensures Invokes(Initial(true, phase, fuelLimit, timeslice, false), a) <==> fuelLimit > 0 && a.instantiate.poll.burn < fuelLimit
  {
  }

  /** A yield, or a subrequest, counts in the content phase and the two rewrite phases and in no other. */
  lemma WaitingPhases(e: Exec, a: Answers)
    requires Sound(e) && Invokes(e, a) && Ends(a.call)
    requires Yield in HostCalls(e, a) || (!e.host.active && Subrequest(true) in HostCalls(e, a))
    ensures Run(e, a).rc == AGAIN <==> e.phase in {Content, Rewrite, ServerRewrite}
  {
    RunOutcome(e, a);
    hide Run;
  }

  /** Once a subrequest has completed, the guest may launch the next one; until then it may not. */
  lemma NextSubrequest(e: Exec, a: Answers, done: bool)
    requires Subrequest(true) in HostCalls(e, a)
    ensures Woken(e, done) == e.(host := e.host.(active := e.host.active && !done))
    ensures LaunchedIn(Woken(e, done), a) <==> (done || !e.host.active) && e.phase in {Content, Rewrite, ServerRewrite}
  {
  }

  /** A trap at the end of a call is reported if and only if nothing in the run has yielded. */
  lemma TrapAfterYield(e: Exec, a: Answers)
    requires Sound(e) && Invokes(e, a) && Ends(a.call) && a.call.poll.trap
    ensures Run(e, a).rc == if YieldedIn(e, a) then AGAIN else ERROR
  {
    RunOutcome(e, a);
    CodeFitsState(e, a);
    hide Run;
  }

  /** A guest that yields and then traps in its first run: the request is suspended, not failed. */
  lemma TrapHidden()
    ensures Run(Fresh(), YieldAndTrap()).rc == AGAIN
  {
    assert HostCalls(Fresh(), YieldAndTrap())[0] == Yield;
    TrapAfterYield(Fresh(), YieldAndTrap());
  }

  function YieldAndTrap(): Answers {
    Answers(true, true, true, Quiet, Function, Quiet.(poll := Poll(true, 1, [Yield], false, true, NotI32)))
  }

  /** Without fuel no guest code runs: the run fails before any future exists. */
  lemma NoFuelNoRun(e: Exec, a: Answers)
    requires Sound(e) && e.fuelLimit == 0 && e.work == NoWork
    ensures Run(e, a).rc == ERROR && Run(e, a).e.work == NoWork
  {
    RunOutcome(e, a);
    CodeFitsState(e, a);
    OpenedMeans(e, a);
    var o := Opened(e, a);
    hide Opened, Polled;
    if o.Go? {
      assert Driven(o.e, Instantiate, a.instantiate) == Fail(o.e);
      var v := Exported(o.e, a.exported);
      assert v.Go? ==> Driven(v.e, Invoke, a.call) == Fail(v.e);
    }
  }

  /**
    * A yield is not a promise to call the guest again: a timeslice later in the same run makes the next run forget it,
    * and the request is done after one call.
    */
  lemma YieldLost()
    ensures Sound(Fresh()) && YieldedIn(Fresh(), Slice()) && Run(Fresh(), Slice()).rc == AGAIN
    ensures Run(Fresh(), Slice()).e.work == Invoke && Run(Run(Fresh(), Slice()).e, Finish()).rc == OK
  {
    hide Run, Fresh;
    FirstSlice();
    var next := Run(Fresh(), Slice()).e;
    RunOutcome(next, Finish());
    assert HostCalls(next, Finish()) == [];
  }

  lemma FirstSlice()
    ensures Sound(Fresh()) && YieldedIn(Fresh(), Slice()) && Run(Fresh(), Slice()).rc == AGAIN
    ensures var n := Run(Fresh(), Slice()).e; Sound(n) && n.work == Invoke && n.loaded
  {
    hide Run;
    var e := Fresh();
    RunKeeps(e, Slice());
    RunOutcome(e, Slice());
    WorkAfter(e, Slice());
    assert HostCalls(e, Slice())[0] == Yield;
  }

  const Quiet := Stage(true, Started, Poll(true, 0, [], false, false, I32(0)), true)

  /** A content phase before its first run. */
  function Fresh(): Exec { Initial(true, Content, 10, 1, false) }

  function Slice(): Answers {
    Answers(true, true, true, Quiet, Function, Quiet.(poll := Poll(false, 1, [Yield], false, false, NotI32)))
  }

  function Finish(): Answers { Answers(true, true, true, Quiet, Function, Quiet) }
}
