/** What every run keeps, and what a request's whole series of runs adds up to. */
module ResumeLaws {
  import opened Resume

  /** An INSTANTIATE future lives only before the instance is ready, a CALL future only after the function is. */
  predicate Resumable(e: Exec) {
    && (e.work == Instantiate ==> !e.instanceReady)
    && (e.work == Invoke ==> e.funcReady)
    && (e.funcReady ==> e.instanceReady)
    && (e.instanceReady || e.work != NoWork ==> e.hasStore)
    && (e.hasStore ==> e.hasResume)
    && (e.work != NoWork ==> Paced(e, e.fuelLimit))
  }

  /** The accounts: what is burned and what is left make up the limit until a run has failed. */
  predicate Fuelled(e: Exec) {
    && e.storeFuel <= e.fuelRemaining <= e.fuelLimit && e.storeFuel + e.burned <= e.fuelLimit
    && (!e.hasStore ==> e.storeFuel == 0 && e.burned == 0 && e.fuelRemaining == e.fuelLimit)
    && (e.hasStore && !e.failed ==> e.storeFuel == e.fuelRemaining && e.storeFuel + e.burned == e.fuelLimit)
  }

  /** What no run undoes. */
  predicate Later(a: Exec, b: Exec) {
    && b.fuelLimit == a.fuelLimit && b.timeslice == a.timeslice && b.phase == a.phase && b.loaded == a.loaded
    && b.fuelRemaining <= a.fuelRemaining && a.burned <= b.burned
    && (a.failed ==> b.failed) && (a.hasStore ==> b.hasStore) && (a.hasResume ==> b.hasResume)
    && (a.instanceReady ==> b.instanceReady) && (a.funcReady ==> b.funcReady)
  }

  predicate CodeFits(t: Turn) {
    match t
    case Go(e) => e.state == Running && e.hasStore
    case Stop(e, rc) =>
      || (rc == OK && e.state == Done)
      || (rc == AGAIN && e.state == Suspended && e.host.kind != NotSuspended)
      || (rc == ERROR && e.state == Failed && e.failed)
  }

  /** An interval never 0, and neither above what is left nor above the timeslice. */
  predicate Paced(e: Exec, remaining: nat) {
    1 <= e.interval <= remaining && (e.timeslice > 0 ==> e.interval <= e.timeslice)
  }

  /** Of what is left and the timeslice, if there is one, the lesser. */
  predicate Lesser(interval: nat, timeslice: nat, remaining: nat) {
    && 1 <= interval <= remaining && (timeslice > 0 ==> interval <= timeslice)
    && (interval == remaining || interval == timeslice)
  }

  /** From one point of a run to a later one, the interval is the one already set, or is set as it should be. */
  predicate IntervalFits(a: Exec, b: Exec) {
    || (b.armedWith == a.armedWith && b.interval == a.interval)
    || b.armedWith == 0
    || (b.armedWith <= a.fuelRemaining && Lesser(b.interval, b.timeslice, b.armedWith))
  }

  predicate Keeps(a: Exec, t: Turn) {
    && Resumable(t.e) && Fuelled(t.e) && Later(a, t.e) && CodeFits(t)
    && IntervalFits(a, t.e)
    && (a.host.active ==> t.e.host.active)
    && (t.e.failed ==> a.failed || (t.Stop? && t.rc == ERROR))
    && (t.Stop? && t.rc == AGAIN && t.e.work != NoWork ==> t.e.fuelRemaining > 0)
  }

  predicate Underway(e: Exec) { Resumable(e) && Fuelled(e) && e.state == Running && e.hasStore }

  lemma OpenedKeeps(e: Exec, a: Answers)
    requires Resumable(e) && Fuelled(e)
    ensures Keeps(e, Opened(e, a))
  {
  }

  lemma BegunKeeps(e: Exec, work: Work, g: Stage)
    requires Underway(e) && (work == Instantiate ==> !e.instanceReady) && (work == Invoke ==> e.funcReady)
    ensures Keeps(e, Begun(e, work, g))
  {
    FailKeeps(e);
    if e.work == NoWork && e.fuelRemaining > 0 {
      var f := e.(interval := Interval(e), armedWith := e.fuelRemaining);
      ArmedKeeps(e);
      FailKeeps(f);
      Compose(e, Go(f), Fail(f));
      WorkKeeps(e, work);
    }
    hide Fail;
  }

  lemma ArmedKeeps(e: Exec)
    requires Underway(e) && e.work == NoWork && e.fuelRemaining > 0
    ensures Keeps(e, Go(e.(interval := Interval(e), armedWith := e.fuelRemaining)))
  {
  }

  lemma WorkKeeps(e: Exec, work: Work)
    requires Underway(e) && e.work == NoWork && e.fuelRemaining > 0
    requires (work == Instantiate ==> !e.instanceReady) && (work == Invoke ==> e.funcReady)
    ensures Keeps(e, Go(e.(interval := Interval(e), armedWith := e.fuelRemaining, work := work)))
  {
  }

  lemma TickedKeeps(e: Exec, p: Poll)
    ensures var t := Ticked(e, p);
      && t.storeFuel <= e.storeFuel && t.storeFuel + t.burned == e.storeFuel + e.burned
      && (e.host.active ==> t.host.active)
      && t == e.(storeFuel := t.storeFuel, burned := t.burned, host := t.host)
  {
    HostedKeeps(e.phase.MayWait(), e.host, p.hostCalls);
  }

  lemma PolledKeeps(e: Exec, g: Stage)
    requires Underway(e)
    ensures Keeps(e, Polled(e, g)) && Polled(e, g).e.interval == e.interval && Polled(e, g).e.armedWith == e.armedWith
    ensures Polled(e, g).Go? ==> Polled(e, g).e.work == NoWork
  {
    TickedKeeps(e, g.poll);
    hide Ticked;
    if g.poll.complete {
      hide Suspend;
    }
  }

  lemma ConcludedKeeps(e: Exec, p: Poll)
    requires Underway(e) && e.work == NoWork
    ensures Keeps(e, Concluded(e, p)) && Concluded(e, p).Stop?
  {
    FailKeeps(e);
    SuspendKeeps(e, if e.host.kind == NotSuspended then Reschedule else e.host.kind);
    DoneKeeps(e);
    hide Fail, Suspend, Keeps;
  }

  lemma FailKeeps(e: Exec)
    requires Underway(e)
    ensures Keeps(e, Fail(e)) && Fail(e).Stop?
  {
  }

  lemma SuspendKeeps(e: Exec, kind: Suspension)
    requires Underway(e) && e.work == NoWork && kind != NotSuspended
    ensures Keeps(e, Suspend(e, kind)) && Suspend(e, kind).Stop?
  {
  }

  lemma DoneKeeps(e: Exec)
    requires Underway(e)
    ensures Keeps(e, Stop(e.(state := Done), OK))
  {
  }

  lemma {:induction false} HostedKeeps(may: bool, h: Host, calls: seq<HostCall>)
    ensures h.active ==> Hosted(may, h, calls).active
    ensures h.yielded ==> Hosted(may, h, calls).yielded
    ensures Hosted(may, h, calls).kind in {h.kind, WaitIo}
    decreases |calls|
  {
    if calls != [] {
      HostedKeeps(may, HostDone(may, h, calls[0]), calls[1..]);
    }
  }

  lemma Compose(a: Exec, t: Turn, u: Turn)
    requires Keeps(a, t) && t.Go? && Keeps(t.e, u)
    ensures Keeps(a, u)
  {
  }

  lemma DrivenKeeps(e: Exec, work: Work, g: Stage)
    requires Underway(e) && (work == Instantiate ==> !e.instanceReady) && (work == Invoke ==> e.funcReady)
    ensures Keeps(e, Driven(e, work, g))
    ensures Driven(e, work, g).Go? ==> Driven(e, work, g).e.work == NoWork && Driven(e, work, g).e.instanceReady == e.instanceReady
  {
    BegunKeeps(e, work, g);
    var t := Begun(e, work, g);
    if t.Go? {
      PolledKeeps(t.e, g);
      Compose(e, t, Polled(t.e, g));
    }
  }

  lemma InstantiatedKeeps(e: Exec, g: Stage)
    requires Underway(e)
    ensures Keeps(e, Instantiated(e, g))
    ensures Instantiated(e, g).Go? ==> Instantiated(e, g).e.instanceReady
  {
    if !e.instanceReady {
      DrivenKeeps(e, Instantiate, g);
      hide Driven;
    }
  }

  lemma CalledKeeps(e: Exec, g: Stage)
    requires Underway(e) && e.funcReady
    ensures Keeps(e, Called(e, g)) && Called(e, g).Stop?
  {
    DrivenKeeps(e, Invoke, g);
    var t := Driven(e, Invoke, g);
    hide Driven;
    if t.Go? {
      ConcludedKeeps(t.e, g.poll);
      hide Concluded;
      Compose(e, t, Concluded(t.e, g.poll));
    }
  }

  lemma TailKeeps(e: Exec, x: Export, g: Stage)
    requires Underway(e) && e.instanceReady
    ensures match Exported(e, x)
      case Stop(_, _) => Keeps(e, Exported(e, x))
      case Go(s) => Keeps(e, Called(s, g)) && Called(s, g).Stop?
  {
    var t := Exported(e, x);
    assert Keeps(e, t);
    if t.Go? {
      CalledKeeps(t.e, g);
      hide Called;
      Compose(e, t, Called(t.e, g));
    }
  }

  /** The resume state, the fuel accounts and the return code, at every exit of a run. */
  lemma RunKeeps(e: Exec, a: Answers)
    requires Resumable(e) && Fuelled(e)
    ensures Keeps(e, Run(e, a)) && Run(e, a).Stop?
    ensures var r := Run(e, a).e;
      Opened(e, a).Go? && r.armedWith > 0 ==> r.armedWith <= e.fuelRemaining && Lesser(r.interval, r.timeslice, r.armedWith)
  {
    OpenedKeeps(e, a);
    var t := Opened(e, a);
    if t.Go? {
      InstantiatedKeeps(t.e, a.instantiate);
      var u := Instantiated(t.e, a.instantiate);
      Compose(e, t, u);
      if u.Go? {
        TailKeeps(u.e, a.exported, a.call);
        hide *;
        var v := Exported(u.e, a.exported);
        if v.Go? {
          Compose(e, u, Called(v.e, a.call));
        } else {
          Compose(e, u, v);
        }
      }
    }
  }
}
