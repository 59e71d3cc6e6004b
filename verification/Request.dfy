/** Running a request's phase: suspension, wake-up, and the count that keeps the main request alive. */
module Requests {
  import opened Resume
  import opened ResumeLaws
  import opened ResumeRuns
  import opened Runtime

  const DONE := -4
  const DECLINED := -5
  const INTERNAL_SERVER_ERROR := 500

  datatype Handler = CoreRunPhases | ResumeHandler

  /** One run's outside: the engine, the posting of the request, and the response the guest has set up. */
  datatype Outside = Outside(engine: Answers, posts: bool, responds: bool, sendRc: int)

  /** A request: `posted` counts how often it went onto the list of posted requests. */
  datatype Req = Req(exec: Exec, waiting: bool, completed: bool, handler: Handler, posted: nat, count: nat)

  predicate Rewrites(p: Phase) { p.Rewrite? || p.ServerRewrite? }

  /** run_request */
  function Perform(q: Req, o: Outside): (Req, int) {
    var t := Run(q.exec, o.engine);
    if t.Stop? && t.rc == AGAIN then
      var r := q.(exec := t.e, handler := ResumeHandler);
      if t.e.host.kind == Reschedule && !o.posts then (r, INTERNAL_SERVER_ERROR)
      else
        var p := if t.e.host.kind == Reschedule then r.(posted := r.posted + 1) else r;
        (p.(waiting := true, count := if !p.waiting && t.e.phase == Content then p.count + 1 else p.count), DONE)
    else if t.Go? || t.rc != OK then (q.(exec := t.e), INTERNAL_SERVER_ERROR)
    else
      (q.(exec := t.e, waiting := false, completed := true),
       if Rewrites(t.e.phase) && !o.responds then DECLINED else if o.sendRc == ERROR then INTERNAL_SERVER_ERROR else o.sendRc)
  }

  /** What becomes of a resumed request. */
  datatype Resumed = Waits | GoesOn | Finalized(rc: int)

  class Request {
    const exec: ExecContext
    var waiting: bool
    var execCompleted: bool
    var writeEventHandler: Handler
    var requestBodyStatus: int
    var posted: nat
    var mainCount: nat

    ghost predicate Valid()
      reads this, exec
    {
      exec.Valid() && exec.Zeroed()
    }

    ghost function View(): Req
      reads this, exec
    {
      Req(exec.View(), waiting, execCompleted, writeEventHandler, posted, mainCount)
    }

    constructor (exec: ExecContext)
      requires exec.Valid() && exec.Zeroed()
      ensures Valid() && this.exec == exec && View() == Req(exec.View(), false, false, CoreRunPhases, 0, 1)
    {
      this.exec, waiting, execCompleted, writeEventHandler := exec, false, false, CoreRunPhases;
      requestBodyStatus, posted, mainCount := OK, 0, 1;
    }

    /** init_request_exec: the phase begins anew, as one that has not been completed. */
    method InitRequestExec(phase: Phase, fuelLimit: nat, timeslice: nat)
      requires Valid()
      modifies this`execCompleted, exec
      ensures Valid()
      ensures View() == old(View()).(exec := Initial(exec.loaded, phase, fuelLimit, timeslice, old(exec.subrequestActive)),
                                     completed := false)
    {
      exec.InitRequestExec(phase, fuelLimit, timeslice);
      execCompleted := false;
    }

    method RunRequest(o: Outside) returns (rc: int)
      requires Valid()
      modifies this, exec
      ensures Valid() && (View(), rc) == Perform(old(View()), o) && requestBodyStatus == old(requestBodyStatus)
    {
      hide Run, ExecContext.Valid, ExecContext.Zeroed;
      rc := exec.RuntimeRun(o.engine);
      if rc == AGAIN {
        rc := Park(o.posts);
        return;
      }
      if rc != OK {
        return INTERNAL_SERVER_ERROR;
      }
      waiting, execCompleted := false, true;
      if Rewrites(exec.phase) && !o.responds {
        return DECLINED;
      }
      if o.sendRc == ERROR {
        return INTERNAL_SERVER_ERROR;
      }
      return o.sendRc;
    }

    /** The guest is suspended: arrange for the request to be resumed. */
    method Park(posts: bool) returns (rc: int)
      requires exec.Valid() && exec.Zeroed()
      modifies this`waiting, this`writeEventHandler, this`posted, this`mainCount
      ensures exec.Valid() && exec.Zeroed() && exec.View() == old(exec.View())
      ensures var q := old(View()); var posting := q.exec.host.kind == Reschedule;
        if posting && !posts then View() == q.(handler := ResumeHandler) && rc == INTERNAL_SERVER_ERROR
        else rc == DONE && View() == q.(handler := ResumeHandler, waiting := true,
                                        posted := if posting then q.posted + 1 else q.posted,
                                        count := if !q.waiting && q.exec.phase == Content then q.count + 1 else q.count)
    {
      hide ExecContext.Valid, ExecContext.Zeroed;
      writeEventHandler := ResumeHandler;
      if exec.suspendKind == Reschedule {
        if !posts {
          return INTERNAL_SERVER_ERROR;
        }
        posted := posted + 1;
      }
      if !waiting && exec.phase == Content {
        waiting := true;
        mainCount := mainCount + 1;
      }
      if !waiting {
        waiting := true;
      }
      return DONE;
    }

    /** The write event handler of a suspended request. */
    method Resume(o: Outside) returns (r: Resumed)
      requires Valid()
      modifies this, exec
      ensures Valid()
      ensures old(requestBodyStatus) != OK ==> View() == old(View()) && r == Finalized(old(requestBodyStatus))
      ensures old(requestBodyStatus) == OK ==> var (q, rc) := Perform(old(View()), o);
        && View() == (if rc == DECLINED then q.(handler := CoreRunPhases) else q)
        && r == (if rc == DONE then Waits else if rc == DECLINED then GoesOn else Finalized(rc))
    {
      hide Perform, ExecContext.Valid, ExecContext.Zeroed;
      if requestBodyStatus != OK {
        return Finalized(requestBodyStatus);
      }
      var rc := RunRequest(o);
      if rc == DONE {
        return Waits;
      }
      if rc == DECLINED {
        writeEventHandler := CoreRunPhases;
        return GoesOn;
      }
      return Finalized(rc);
    }
  }

  /** The run has suspended the request, and a posting it needs has succeeded. */
  predicate Parked(r: Req, o: Outside) { r.exec.state == Suspended && (r.exec.host.kind == Reschedule ==> o.posts) }

  /** The run has completed the phase, and sending the response has returned NGX_DONE. */
  predicate SentDone(q: Req, o: Outside) {
    Completes(q.exec, o.engine) && (Rewrites(q.exec.phase) ==> o.responds) && o.sendRc == DONE
  }

  /**
    * No lost wake-up: a parked request is posted, or waits for a subrequest that its guest launched in this very run.
    * NGX_DONE stands for a parked request, and also for a response whose sending returns it.
    */
  lemma NoLostWakeup(q: Req, o: Outside)
    requires Sound(q.exec)
    ensures var (r, rc) := Perform(q, o);
      && (rc == DONE <==> Parked(r, o) || SentDone(q, o)) && !(Parked(r, o) && SentDone(q, o))
      && (!Parked(r, o) ==> r.count == q.count && r.posted == q.posted)
      && (Parked(r, o) ==> r.waiting && r.handler == ResumeHandler && r.exec.host.kind in {Reschedule, WaitIo})
      && (Parked(r, o) ==> r.count == q.count + if !q.waiting && q.exec.phase == Content then 1 else 0)
      && (Parked(r, o) && r.exec.host.kind == Reschedule ==> r.posted == q.posted + 1)
      && (Parked(r, o) && r.exec.host.kind == WaitIo ==> r.posted == q.posted && r.exec.host.active && LaunchedIn(q.exec, o.engine))
      && (SentDone(q, o) ==> !r.waiting && r.completed && r.handler == q.handler)
  {
    RunOutcome(q.exec, o.engine);
    CodeFitsState(q.exec, o.engine);
    RunKeeps(q.exec, o.engine);
    hide Run, Keeps, Completes;
  }

  /**
    * The code of every run, and what it does to the request: a failed run, or a parking that could not be posted, is an
    * internal error; a completed phase goes on if it is a rewrite phase whose guest has set nothing, and otherwise gives the
    * code of the sending, an error in it being an internal error too.
    */
  lemma PerformCode(q: Req, o: Outside)
    requires Sound(q.exec)
    ensures var (r, rc) := Perform(q, o);
      && (r.exec.state == Failed ==> rc == 500 && r == q.(exec := r.exec))
      && (r.exec.state == Suspended && !Parked(r, o) ==> rc == 500 && r == q.(exec := r.exec, handler := ResumeHandler))
      && (Parked(r, o) ==> rc == -4 && r.completed == q.completed)
      && (r.exec.state == Done <==> Completes(q.exec, o.engine))
      && (Completes(q.exec, o.engine) ==>
        && r == q.(exec := r.exec, waiting := false, completed := true)
        && rc == (if q.exec.phase in {Rewrite, ServerRewrite} && !o.responds then -5 else if o.sendRc == -1 then 500 else o.sendRc))
      && r.exec.state in {Failed, Suspended, Done}
  {
    RunOutcome(q.exec, o.engine);
    CodeFitsState(q.exec, o.engine);
    RunKeeps(q.exec, o.engine);
    hide Run, Keeps, Completes, GuestWaits, SlicedOut;
  }

  /** A first run that completes, and a response whose sending returns NGX_DONE: nothing is installed or posted. */
  lemma DoneWithoutWakeup()
    ensures var q, o := Req(Fresh(), false, false, CoreRunPhases, 0, 1), Outside(Finish(), true, true, DONE);
      var (r, rc) := Perform(q, o);
      rc == DONE && r.completed && !r.waiting && r.handler == CoreRunPhases && r.posted == 0 && r.count == 1
  {
    var q, o := Req(Fresh(), false, false, CoreRunPhases, 0, 1), Outside(Finish(), true, true, DONE);
    assert HostCalls(Fresh(), Finish()) == [];
    assert SentDone(q, o);
    NoLostWakeup(q, o);
    hide Perform;
  }

  /** The request after the subrequest it waited for, if any, has completed. */
  function Wake(q: Req, subrequestDone: bool): Req { q.(exec := Woken(q.exec, subrequestDone)) }

  /** The request and the last code after a series of runs, each with what happened before it. */
  function Resumptions(q: Req, runs: seq<(bool, Outside)>): (Req, int) {
    if runs == [] then (q, DONE)
    else
      var (done, o) := runs[|runs| - 1];
      Perform(Wake(Resumptions(q, runs[..|runs| - 1]).0, done), o)
  }

  /** Every run of the series parks the request. */
  predicate AllPark(q: Req, runs: seq<(bool, Outside)>) {
    runs == [] || (AllPark(q, runs[..|runs| - 1]) && Parked(Resumptions(q, runs).0, runs[|runs| - 1].1))
  }

  /** However often a content request suspends, it takes one reference to the main request; the rewrite phases take none. */
  lemma {:induction false} OneReference(q: Req, runs: seq<(bool, Outside)>)
    requires Sound(q.exec) && !q.waiting && AllPark(q, runs)
    ensures var r := Resumptions(q, runs).0;
      && Sound(r.exec) && r.exec.phase == q.exec.phase
      && (r.waiting <==> runs != [])
      && r.count == q.count + (if runs != [] && q.exec.phase == Content then 1 else 0)
  {
    if runs != [] {
      var before, last := runs[..|runs| - 1], runs[|runs| - 1];
      var (done, o) := last;
      OneReference(q, before);
      var r := Wake(Resumptions(q, before).0, done);
      NoLostWakeup(r, o);
      RunKeeps(r.exec, o.engine);
      hide Run;
    }
  }
}
