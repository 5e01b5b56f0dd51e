/**
 The seams of the browser tool: guard, driver, runtime and connector as arbitrary functions
 of everything that has happened so far, and the trace of what the orchestration does to them.
 */
module Browsing {
  import opened Base

  datatype Error = Blocked(reason: string) | Invalid(message: string) | DriverError(message: string)
      | Container(message: string)

  datatype Navigation = Navigation(redirectChain: seq<string>, finalUrl: string, status: Option<nat>)

  datatype Mode = Screenshot | DomText | AriaSnapshot

  datatype Artifact = ScreenshotPath(path: string) | PageText(body: string)

  /** Every output carries the one provenance there is. */
  datatype Provenance = Untrusted

  datatype Output = Output(
    finalUrl: string, mode: Mode, provenance: Provenance,
    screenshotPath: Option<string>, text: Option<string>, status: Option<nat>)

  /** A scroll delta; only finite ones are accepted. */
  datatype Delta = Finite(d: real) | NotFinite

  datatype Action =
    | Click(selector: string)
    | TypeText(selector: string, text: string)
    | Scroll(target: Option<string>, dx: Delta, dy: Delta)
    | WaitForSelector(selector: string, timeoutMs: Option<nat>)

  datatype Event =
    | TargetChecked(url: string, allowed: bool)
    | HopChecked(url: string, allowed: bool)
    | Navigated(url: string, nav: Navigation)
    | NavigateFailed(url: string)
    | Acted(action: Action, nav: Navigation)
    | ActFailed(action: Action)
    | ReadDone(mode: Mode)
    | ReadFailed(mode: Mode)
    | Rendered(url: string, nav: Navigation)
    | RenderFailed(url: string)
    | Spawned(name: string, ok: bool)
    | IpResolved(name: string, ip: Option<string>)
    | Connected(base: string, ok: bool)
    | Removed(name: string, ok: bool)

  type Trace = seq<Event>

  /** `None` allows the URL, `Some` blocks it with a reason. */
  datatype Guard = Guard(target: (Trace, string) -> Option<string>, redirect: (Trace, string) -> Option<string>)

  /** The read-only driver (`render`) and the interactive one (the rest). */
  datatype Driver = Driver(
    navigate: (Trace, string) -> Result<Navigation, Error>,
    act: (Trace, Action) -> Result<Navigation, Error>,
    read: (Trace, Mode) -> Result<Artifact, Error>,
    render: (Trace, string, Mode) -> Result<(Navigation, Artifact), Error>)

  /** Containers by name; `None` is success. */
  datatype Runtime = Runtime(
    spawn: (Trace, string) -> Option<string>,
    containerIp: (Trace, string) -> Result<Option<string>, string>,
    remove: (Trace, string) -> Option<string>)

  /** Gives a driver for the browser listening at an address. */
  datatype Connector = Connector(connect: (Trace, string) -> Result<Driver, Error>)

  /** What a call did and what it returned. */
  datatype Run<+T> = Run(trace: Trace, result: Result<T, Error>)

  function OutputOf(nav: Navigation, mode: Mode, artifact: Artifact): Output {
    match artifact
    case ScreenshotPath(path) => Output(nav.finalUrl, Screenshot, Untrusted, Some(path), None, nav.status)
    case PageText(body) => Output(nav.finalUrl, mode, Untrusted, None, Some(body), nav.status)
  }

  function CheckTarget(g: Guard, t: Trace, url: string): Run<()> {
    match g.target(t, url)
    case None => Run(t + [TargetChecked(url, true)], Ok(()))
    case Some(reason) => Run(t + [TargetChecked(url, false)], Err(Blocked(reason)))
  }

  function CheckHops(g: Guard, t: Trace, hops: seq<string>): Run<()>
    decreases |hops|
  {
    if hops == [] then Run(t, Ok(()))
    else match g.redirect(t, hops[0])
      case None => CheckHops(g, t + [HopChecked(hops[0], true)], hops[1..])
      case Some(reason) => Run(t + [HopChecked(hops[0], false)], Err(Blocked(reason)))
  }

  // ----- facts every trace of checks has -----

  predicate IsCheck(e: Event) { e.TargetChecked? || e.HopChecked? }

  predicate IsDriver(e: Event) {
    e.Navigated? || e.NavigateFailed? || e.Acted? || e.ActFailed? || e.ReadDone? || e.ReadFailed? || e.Rendered?
        || e.RenderFailed?
  }

  /** The navigation an event reports, if it does. */
  function Reported(e: Event): Option<Navigation> {
    if e.Navigated? || e.Acted? then Some(e.nav) else None
  }

  predicate AllChecks(t: Trace) {
    forall i :: 0 <= i < |t| ==> IsCheck(t[i])
  }

  function HopEvents(hops: seq<string>): Trace {
    seq(|hops|, i requires 0 <= i < |hops| => HopChecked(hops[i], true))
  }

  /** Hop checks append exactly the accepted hops, up to and including the first rejected one. */
  lemma {:induction false} CheckHopsTrace(g: Guard, t: Trace, hops: seq<string>)
    ensures var r := CheckHops(g, t, hops);
            && (r.result.Ok? ==> r.trace == t + HopEvents(hops))
            && (r.result.Err? ==>
                 && r.result.error.Blocked?
                 && exists n :: 0 <= n < |hops| && r.trace == t + HopEvents(hops[..n]) + [HopChecked(hops[n], false)])
    decreases |hops|
  {
    if hops == [] {
      assert t + HopEvents(hops) == t;
    } else if g.redirect(t, hops[0]).None? {
      var next := t + [HopChecked(hops[0], true)];
      CheckHopsTrace(g, next, hops[1..]);
      var r := CheckHops(g, next, hops[1..]);
      if r.result.Ok? {
        assert next + HopEvents(hops[1..]) == t + HopEvents(hops);
      } else {
        var n :| 0 <= n < |hops[1..]|
          && r.trace == next + HopEvents(hops[1..][..n]) + [HopChecked(hops[1..][n], false)];
        assert next + HopEvents(hops[1..][..n]) == t + HopEvents(hops[..n + 1]);
      }
    } else {
      assert t + HopEvents(hops[..0]) == t;
    }
  }

  method GuardHops(g: Guard, t0: Trace, hops: seq<string>) returns (r: Run<()>)
    ensures r == CheckHops(g, t0, hops)
  {
    var t := t0;
    var i := 0;
    while i < |hops|
      invariant 0 <= i <= |hops|
      invariant CheckHops(g, t, hops[i..]) == CheckHops(g, t0, hops)
    {
      var blocked := g.redirect(t, hops[i]);
      if blocked.Some? {
        return Run(t + [HopChecked(hops[i], false)], Err(Blocked(blocked.value)));
      }
      t := t + [HopChecked(hops[i], true)];
      i := i + 1;
    }
    return Run(t, Ok(()));
  }
}
