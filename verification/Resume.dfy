/** Resumable guest execution as steps on values: what one run does, given what the engine answers. */
module Resume {

  const OK := 0
  const ERROR := -1
  const AGAIN := -2

  datatype Phase = Content | Rewrite | ServerRewrite | Balancer | HeaderFilter | BodyFilter | Log | ClientHello | Certificate
  {
    /** The phases whose capabilities include yield and subrequest. */
    predicate MayWait() { Content? || Rewrite? || ServerRewrite? }
  }

  datatype State = Ready | Running | Suspended | Done | Failed

  datatype Suspension = NotSuspended | Reschedule | WaitIo

  /** future_kind */
  datatype Work = NoWork | Instantiate | Invoke

  datatype HostCall = Yield | Subrequest(launches: bool)

  datatype Start = Started | Refused(error: bool, trap: bool)

  datatype Value = I32(v: int) | NotI32

  datatype Poll = Poll(complete: bool, burn: nat, hostCalls: seq<HostCall>, error: bool, trap: bool, value: Value)

  /** The engine's answers while one future is set up and polled. */
  datatype Stage = Stage(intervalSet: bool, start: Start, poll: Poll, fuelRead: bool)

  datatype Export = Missing | NotFunction | Function

  /** All that the outside may answer during one run. */
  datatype Answers = Answers(resumeMade: bool, storeMade: bool, fuelSet: bool, instantiate: Stage, exported: Export, call: Stage)

  /** What host calls change: the yield mark, the kind of suspension, and whether a subrequest is active. */
  datatype Host = Host(yielded: bool, kind: Suspension, active: bool)

  /** An execution context. `armedWith` is the fuel left when the current run set the interval, 0 if it has not; `storeFuel` and `burned` are the engine's side of the accounts; `failed` tells that some run failed. */
  datatype Exec = Exec(loaded: bool, phase: Phase, fuelLimit: nat, timeslice: nat, fuelRemaining: nat, state: State, host: Host,
                       hasResume: bool, hasStore: bool, work: Work, instanceReady: bool, funcReady: bool,
                       interval: nat, armedWith: nat, storeFuel: nat, burned: nat, failed: bool)

  /** A run goes on, or stops with a return code. */
  datatype Turn = Go(e: Exec) | Stop(e: Exec, rc: int)

  function Initial(loaded: bool, phase: Phase, fuelLimit: nat, timeslice: nat, active: bool): Exec {
    Exec(loaded, phase, fuelLimit, timeslice, fuelLimit, Ready, Host(false, NotSuspended, active),
         false, false, NoWork, false, false, 0, 0, 0, 0, false)
  }

  function Fail(e: Exec): Turn { Stop(e.(state := Failed, failed := true), ERROR) }

  function Suspend(e: Exec, kind: Suspension): Turn { Stop(e.(state := Suspended, host := e.host.(kind := kind)), AGAIN) }

  function Begin(e: Exec): Exec { e.(state := Running, armedWith := 0, host := Host(false, NotSuspended, e.host.active)) }

  function HostDone(may: bool, h: Host, c: HostCall): Host {
    if !may then h
    else match c
      case Yield => h.(yielded := true)
      case Subrequest(launches) => if launches && !h.active then Host(true, WaitIo, true) else h
  }

  function Hosted(may: bool, h: Host, calls: seq<HostCall>): Host
    decreases |calls|
  {
    if calls == [] then h else Hosted(may, HostDone(may, h, calls[0]), calls[1..])
  }

  /** The start of a run: resume state, store, fuel. */
  function Opened(e: Exec, a: Answers): Turn {
    if !e.loaded || (!e.hasResume && !a.resumeMade) then Fail(e)
    else
      var r := e.(hasResume := true);
      if r.hasStore then Go(Begin(r))
      else if !a.storeMade then Fail(r)
      else if e.fuelLimit == 0 then Go(Begin(r.(hasStore := true)))
      else if !a.fuelSet then Fail(r.(hasStore := true))
      else Go(Begin(r.(hasStore := true, storeFuel := e.fuelLimit)))
  }

  function Interval(e: Exec): nat {
    if 0 < e.timeslice < e.fuelRemaining then e.timeslice else e.fuelRemaining
  }

  /** Unless a future is under way, start one. */
  function Begun(e: Exec, work: Work, g: Stage): Turn {
    if e.work != NoWork then Go(e)
    else if e.fuelRemaining == 0 || !g.intervalSet then Fail(e)
    else if g.start.Refused? then Fail(e.(interval := Interval(e), armedWith := e.fuelRemaining))
    else Go(e.(interval := Interval(e), armedWith := e.fuelRemaining, work := work))
  }

  function Ticked(e: Exec, p: Poll): Exec {
    var burn := if p.burn < e.storeFuel then p.burn else e.storeFuel;
    e.(storeFuel := e.storeFuel - burn, burned := e.burned + burn, host := Hosted(e.phase.MayWait(), e.host, p.hostCalls))
  }

  /** One poll and the reading of the fuel that is left. */
  function Polled(e: Exec, g: Stage): Turn {
    var t := Ticked(e, g.poll);
    if !g.poll.complete then
      if !g.fuelRead then Fail(t)
      else if t.storeFuel == 0 then Fail(t.(fuelRemaining := 0))
      else Suspend(t.(fuelRemaining := t.storeFuel), Reschedule)
    else if !g.fuelRead then Fail(t.(work := NoWork))
    else Go(t.(work := NoWork, fuelRemaining := t.storeFuel))
  }

  function Driven(e: Exec, work: Work, g: Stage): Turn {
    match Begun(e, work, g)
    case Stop(s, rc) => Stop(s, rc)
    case Go(s) => Polled(s, g)
  }

  function Instantiated(e: Exec, g: Stage): Turn {
    if e.instanceReady then Go(e)
    else match Driven(e, Instantiate, g)
      case Stop(s, rc) => Stop(s, rc)
      case Go(s) => if g.poll.error || g.poll.trap then Fail(s) else Go(s.(instanceReady := true))
  }

  function Exported(e: Exec, x: Export): Turn {
    if e.funcReady then Go(e) else if !x.Function? then Fail(e) else Go(e.(funcReady := true))
  }

  /** After the call is over: a yield is looked at before a trap. */
  function Concluded(e: Exec, p: Poll): Turn {
    if p.error then Fail(e)
    else if e.host.yielded then Suspend(e, if e.host.kind == NotSuspended then Reschedule else e.host.kind)
    else if p.trap || p.value != I32(0) then Fail(e)
    else Stop(e.(state := Done), OK)
  }

  function Called(e: Exec, g: Stage): Turn {
    match Driven(e, Invoke, g)
    case Stop(s, rc) => Stop(s, rc)
    case Go(s) => Concluded(s, g.poll)
  }

  /** runtime_run */
  function Run(e: Exec, a: Answers): Turn {
    match Opened(e, a)
    case Stop(s, rc) => Stop(s, rc)
    case Go(s) =>
      match Instantiated(s, a.instantiate)
      case Stop(s, rc) => Stop(s, rc)
      case Go(s) =>
        match Exported(s, a.exported)
        case Stop(s, rc) => Stop(s, rc)
        case Go(s) => Called(s, a.call)
  }

  /** Between two runs the active subrequest may complete. */
  function Woken(e: Exec, subrequestDone: bool): Exec {
    if subrequestDone then e.(host := e.host.(active := false)) else e
  }

  /** The run gets as far as looking the export up. */
  predicate LooksUp(e: Exec, a: Answers) {
    match Opened(e, a)
    case Stop(_, _) => false
    case Go(s) =>
      match Instantiated(s, a.instantiate)
      case Stop(_, _) => false
      case Go(s) => !s.funcReady
  }
}
