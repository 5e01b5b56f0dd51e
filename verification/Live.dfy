/** A browser session inside a child container: check, spawn, connect, drive, tear down. */
module Live {
  import opened Base
  import opened Strings
  import opened Decimal
  import opened Browsing
  import opened Interact

  datatype RenderRequest = RenderRequest(url: string, mode: Mode)

  datatype Child = Child(name: string, cdpPort: nat)

  const EMPTY_URL: Error := Invalid("`url` must be non-empty")

  function SpawnFailed(child: Child, why: string): Error {
    Container("spawn browser child `" + child.name + "`: " + why)
  }

  function NoAddress(child: Child): Error {
    Container("browser child `" + child.name + "` has no bridge IP (cannot reach CDP endpoint)")
  }

  // ----- the read-only render -----

  /** A valid read-only request, run after `t`. */
  function Rendering(req: RenderRequest, g: Guard, d: Driver, t: Trace): Run<Output> {
    var pre := CheckTarget(g, t, req.url);
    if pre.result.Err? then Run(pre.trace, Err(pre.result.error))
    else match d.render(pre.trace, req.url, req.mode)
      case Err(e) => Run(pre.trace + [RenderFailed(req.url)], Err(e))
      case Ok((nav, artifact)) =>
        var hops := CheckHops(g, pre.trace + [Rendered(req.url, nav)], nav.redirectChain);
        if hops.result.Err? then Run(hops.trace, Err(hops.result.error))
        else Run(hops.trace, Ok(OutputOf(nav, req.mode, artifact)))
  }

  /** `driver::render` */
  method Render(req: RenderRequest, g: Guard, d: Driver, t0: Trace) returns (r: Run<Output>)
    ensures !Blank(req.url) ==> r == Rendering(req, g, d, t0)
    ensures Blank(req.url) ==> r == Run(t0, Err(EMPTY_URL))
  {
    if Blank(req.url) { return Run(t0, Err(EMPTY_URL)); }
    var blocked := g.target(t0, req.url);
    if blocked.Some? { return Run(t0 + [TargetChecked(req.url, false)], Err(Blocked(blocked.value))); }
    var t := t0 + [TargetChecked(req.url, true)];
    var rendered := d.render(t, req.url, req.mode);
    if rendered.Err? { return Run(t + [RenderFailed(req.url)], Err(rendered.error)); }
    var (nav, artifact) := rendered.value;
    var checked := GuardHops(g, t + [Rendered(req.url, nav)], nav.redirectChain);
    if checked.result.Err? { return Run(checked.trace, Err(checked.result.error)); }
    return Run(checked.trace, Ok(OutputOf(nav, req.mode, artifact)));
  }

  /** What an accepted read-only render leaves behind: the target check, the render, every hop. */
  function RenderTrace(url: string, nav: Navigation): Trace {
    [TargetChecked(url, true), Rendered(url, nav)] + HopEvents(nav.redirectChain)
  }

  /**
   A read-only render succeeds exactly when its trace is a target check, the render and an accepted
   check of every hop it reported; no artifact is returned past a hop that was not accepted.
   */
  lemma RenderOkExactly(req: RenderRequest, g: Guard, d: Driver, t: Trace)
    ensures var r := Rendering(req, g, d, t);
            && (r.result.Ok? <==> exists nav :: r.trace == t + RenderTrace(req.url, nav))
            && (r.result.Ok? ==> exists nav :: r.trace == t + RenderTrace(req.url, nav)
                                   && r.result.value.finalUrl == nav.finalUrl && r.result.value.status == nav.status)
  {
    var r := Rendering(req, g, d, t);
    var pre := CheckTarget(g, t, req.url);
    if pre.result.Err? {
      assert |r.trace| == |t| + 1;
    } else if d.render(pre.trace, req.url, req.mode).Err? {
      assert r.trace[|t| + 1] == RenderFailed(req.url);
    } else {
      var (nav, artifact) := d.render(pre.trace, req.url, req.mode).value;
      var sent := pre.trace + [Rendered(req.url, nav)];
      CheckHopsTrace(g, sent, nav.redirectChain);
      if r.result.Ok? {
        assert sent + HopEvents(nav.redirectChain) == t + RenderTrace(req.url, nav);
      } else {
        var n :| 0 <= n < |nav.redirectChain|
          && r.trace == sent + HopEvents(nav.redirectChain[..n]) + [HopChecked(nav.redirectChain[n], false)];
        assert r.trace[|t| + 1] == Rendered(req.url, nav);
        assert r.trace[|t| + 2 + n] == HopChecked(nav.redirectChain[n], false);
        forall other ensures r.trace != t + RenderTrace(req.url, other) {
          var alike := t + RenderTrace(req.url, other);
          assert alike[|t| + 1] == RenderTrace(req.url, other)[1] == Rendered(req.url, other);
          assert other == nav ==> alike[|t| + 2 + n] == HopEvents(nav.redirectChain)[n];
        }
      }
    }
  }

  // ----- inside the child container -----

  type Body = (Driver, Trace) -> Run<Output>

  function Address(ip: string, child: Child): string {
    "http://" + ip + ":" + NatText(child.cdpPort)
  }

  function Inside(child: Child, rt: Runtime, cn: Connector, body: Body, t: Trace): Run<Output> {
    match rt.containerIp(t, child.name)
    case Err(e) => Run(t + [IpResolved(child.name, None)], Err(Container("resolve browser child ip: " + e)))
    case Ok(None) => Run(t + [IpResolved(child.name, None)], Err(NoAddress(child)))
    case Ok(Some(ip)) =>
      var found := t + [IpResolved(child.name, Some(ip))];
      match cn.connect(found, Address(ip, child))
      case Err(e) => Run(found + [Connected(Address(ip, child), false)], Err(e))
      case Ok(d) => body(d, found + [Connected(Address(ip, child), true)])
  }

  /** A valid request for `url`, from the host's own target check to the teardown. */
  function LiveRun(url: string, child: Child, g: Guard, rt: Runtime, cn: Connector, body: Body): Run<Output> {
    var pre := CheckTarget(g, [], url);
    if pre.result.Err? then Run(pre.trace, Err(pre.result.error))
    else match rt.spawn(pre.trace, child.name)
      case Some(e) => Run(pre.trace + [Spawned(child.name, false)], Err(SpawnFailed(child, e)))
      case None =>
        var inner := Inside(child, rt, cn, body, pre.trace + [Spawned(child.name, true)]);
        Run(inner.trace + [Removed(child.name, rt.remove(inner.trace, child.name).None?)], inner.result)
  }

  function RenderBody(req: RenderRequest, g: Guard): Body { (d: Driver, t: Trace) => Rendering(req, g, d, t) }

  function InteractBody(req: Request, g: Guard): Body { (d: Driver, t: Trace) => Session(req, g, d, t) }

  method RenderAfterSpawn(req: RenderRequest, child: Child, g: Guard, rt: Runtime, cn: Connector, t0: Trace)
    returns (r: Run<Output>)
    requires !Blank(req.url)
    ensures r == Inside(child, rt, cn, RenderBody(req, g), t0)
  {
    var ip := rt.containerIp(t0, child.name);
    if ip.Err? {
      return Run(t0 + [IpResolved(child.name, None)], Err(Container("resolve browser child ip: " + ip.error)));
    }
    if ip.value.None? {
      return Run(t0 + [IpResolved(child.name, None)], Err(NoAddress(child)));
    }
    var t := t0 + [IpResolved(child.name, ip.value)];
    var base := Address(ip.value.value, child);
    var driver := cn.connect(t, base);
    if driver.Err? { return Run(t + [Connected(base, false)], Err(driver.error)); }
    r := Render(req, g, driver.value, t + [Connected(base, true)]);
  }

  /** `render_live` */
  method RenderLive(req: RenderRequest, child: Child, g: Guard, rt: Runtime, cn: Connector) returns (r: Run<Output>)
    ensures !Blank(req.url) ==> r == LiveRun(req.url, child, g, rt, cn, RenderBody(req, g))
    ensures Blank(req.url) ==> r == Run([], Err(EMPTY_URL))
  {
    if Blank(req.url) { return Run([], Err(EMPTY_URL)); }
    var blocked := g.target([], req.url);
    if blocked.Some? { return Run([TargetChecked(req.url, false)], Err(Blocked(blocked.value))); }
    var t := [TargetChecked(req.url, true)];
    assert t == CheckTarget(g, [], req.url).trace;
    var spawned := rt.spawn(t, child.name);
    if spawned.Some? {
      return Run(t + [Spawned(child.name, false)], Err(SpawnFailed(child, spawned.value)));
    }
    var outcome := RenderAfterSpawn(req, child, g, rt, cn, t + [Spawned(child.name, true)]);
    var removed := rt.remove(outcome.trace, child.name);
    return Run(outcome.trace + [Removed(child.name, removed.None?)], outcome.result);
  }

  method InteractAfterSpawn(req: Request, child: Child, g: Guard, rt: Runtime, cn: Connector, t0: Trace)
    returns (r: Run<Output>)
    requires RequestOk(req)
    ensures r == Inside(child, rt, cn, InteractBody(req, g), t0)
  {
    var ip := rt.containerIp(t0, child.name);
    if ip.Err? {
      return Run(t0 + [IpResolved(child.name, None)], Err(Container("resolve browser child ip: " + ip.error)));
    }
    if ip.value.None? {
      return Run(t0 + [IpResolved(child.name, None)], Err(NoAddress(child)));
    }
    var t := t0 + [IpResolved(child.name, ip.value)];
    var base := Address(ip.value.value, child);
    var driver := cn.connect(t, base);
    if driver.Err? { return Run(t + [Connected(base, false)], Err(driver.error)); }
    r := InteractOnce(req, g, driver.value, t + [Connected(base, true)]);
  }

  /** `interact_live` */
  method InteractLive(req: Request, child: Child, g: Guard, rt: Runtime, cn: Connector) returns (r: Run<Output>)
    ensures RequestOk(req) ==> r == LiveRun(req.url, child, g, rt, cn, InteractBody(req, g))
    ensures !RequestOk(req) ==> r.trace == [] && r.result.Err? && r.result.error.Invalid?
  {
    var invalid := Validate(req);
    if invalid.Some? { return Run([], Err(invalid.value)); }
    var blocked := g.target([], req.url);
    if blocked.Some? { return Run([TargetChecked(req.url, false)], Err(Blocked(blocked.value))); }
    var t := [TargetChecked(req.url, true)];
    assert t == CheckTarget(g, [], req.url).trace;
    var spawned := rt.spawn(t, child.name);
    if spawned.Some? {
      return Run(t + [Spawned(child.name, false)], Err(SpawnFailed(child, spawned.value)));
    }
    var outcome := InteractAfterSpawn(req, child, g, rt, cn, t + [Spawned(child.name, true)]);
    var removed := rt.remove(outcome.trace, child.name);
    return Run(outcome.trace + [Removed(child.name, removed.None?)], outcome.result);
  }

  // ----- the life of the container -----

  predicate IsContainer(e: Event) { e.Spawned? || e.Removed? }

  /** `later` is `t` followed by events that leave the container alone. */
  predicate Extends(later: Trace, t: Trace) {
    t <= later
    && forall i :: |t| <= i < |later| ==> !IsContainer(later[i]) && !later[i].IpResolved? && !later[i].Connected?
  }

  ghost predicate Confined(body: Body) {
    forall d: Driver, t: Trace :: Extends(body(d, t).trace, t)
  }

  lemma CheckHopsExtends(g: Guard, t: Trace, hops: seq<string>)
    ensures Extends(CheckHops(g, t, hops).trace, t)
  {
    CheckHopsTrace(g, t, hops);
  }

  lemma ReguardExtends(g: Guard, t: Trace, nav: Navigation)
    ensures Extends(Reguard(g, t, nav).trace, t)
  {
    CheckHopsExtends(g, t + [TargetChecked(nav.finalUrl, true)], nav.redirectChain);
  }

  lemma {:induction false} ActionsExtend(g: Guard, d: Driver, t: Trace, actions: seq<Action>, nav: Navigation)
    ensures Extends(RunActions(g, d, t, actions, nav).trace, t)
    decreases |actions|
  {
    if actions == [] || d.act(t, actions[0]).Err? {
    } else {
      var next := d.act(t, actions[0]).value;
      var moved := t + [Acted(actions[0], next)];
      ReguardExtends(g, moved, next);
      if Reguard(g, moved, next).result.Ok? {
        ActionsExtend(g, d, Reguard(g, moved, next).trace, actions[1..], next);
      }
    }
  }

  lemma ScriptExtends(req: Request, g: Guard, d: Driver, t: Trace, nav: Navigation)
    ensures Extends(Script(req, g, d, t, nav).trace, t)
  {
    var moved := t + [Navigated(req.url, nav)];
    var r := Reguard(g, moved, nav);
    ReguardExtends(g, moved, nav);
    if r.result.Ok? { ActionsExtend(g, d, r.trace, req.actions, nav); }
  }

  lemma InteractConfined(req: Request, g: Guard)
    ensures Confined(InteractBody(req, g))
  {
    forall d: Driver, t: Trace ensures Extends(InteractBody(req, g)(d, t).trace, t) {
      var pre := CheckTarget(g, t, req.url);
      if pre.result.Ok? && d.navigate(pre.trace, req.url).Ok? {
        var nav := d.navigate(pre.trace, req.url).value;
        ScriptExtends(req, g, d, pre.trace, nav);
      }
    }
  }

  lemma RenderConfined(req: RenderRequest, g: Guard)
    ensures Confined(RenderBody(req, g))
  {
    forall d: Driver, t: Trace ensures Extends(RenderBody(req, g)(d, t).trace, t) {
      var pre := CheckTarget(g, t, req.url);
      if pre.result.Ok? && d.render(pre.trace, req.url, req.mode).Ok? {
        var sent := pre.trace + [Rendered(req.url, d.render(pre.trace, req.url, req.mode).value.0)];
        CheckHopsExtends(g, sent, d.render(pre.trace, req.url, req.mode).value.0.redirectChain);
      }
    }
  }

  /** Did the child start? */
  predicate Up(child: Child, t: Trace) { |t| > 1 && t[1] == Spawned(child.name, true) }

  /**
   Nothing is spawned before an accepted target check; a started child is removed exactly once,
   as the last thing, and only a started one is; whatever talks to it does so in between.
   */
  predicate Balanced(url: string, child: Child, t: Trace) {
    && (forall i :: 0 <= i < |t| && t[i].Spawned? ==>
        i == 1 && t[0] == TargetChecked(url, true) && t[i].name == child.name)
    && (forall i :: 0 <= i < |t| && t[i].Removed? ==> i == |t| - 1 && Up(child, t) && t[i].name == child.name)
    && (Up(child, t) ==> |t| > 2 && t[|t| - 1].Removed?)
    && (forall i :: 0 <= i < |t| && (IsDriver(t[i]) || t[i].IpResolved? || t[i].Connected?) ==>
        Up(child, t) && 1 < i < |t| - 1)
  }

  lemma LiveBalanced(url: string, child: Child, g: Guard, rt: Runtime, cn: Connector, body: Body)
    requires Confined(body)
    ensures Balanced(url, child, LiveRun(url, child, g, rt, cn, body).trace)
  {
    var pre := CheckTarget(g, [], url);
    if pre.result.Ok? && rt.spawn(pre.trace, child.name).None? {
      var start := pre.trace + [Spawned(child.name, true)];
      var inner := Inside(child, rt, cn, body, start).trace;
      assert inner[0] == inner[..2][0] && inner[1] == inner[..2][1];
      BalancedShape(url, child, inner, rt.remove(inner, child.name).None?);
    }
  }

  lemma BalancedShape(url: string, child: Child, inner: Trace, removed: bool)
    requires |inner| > 2 && inner[0] == TargetChecked(url, true) && Up(child, inner)
    requires forall i :: 2 <= i < |inner| ==> !IsContainer(inner[i])
    ensures Balanced(url, child, inner + [Removed(child.name, removed)])
  {
    var t := inner + [Removed(child.name, removed)];
    assert forall i :: 0 <= i < |inner| ==> t[i] == inner[i];
  }

  /** However the teardown goes, the caller gets the same result after the same events. */
  lemma TeardownCannotFail(url: string, child: Child, g: Guard, rt: Runtime, cn: Connector, body: Body,
      remove: (Trace, string) -> Option<string>)
    requires Confined(body)
    ensures var r := LiveRun(url, child, g, rt, cn, body);
            var s := LiveRun(url, child, g, rt.(remove := remove), cn, body);
            && r.result == s.result
            && |r.trace| == |s.trace|
            && (Up(child, r.trace) || Up(child, s.trace) ==> r.trace[..|r.trace| - 1] == s.trace[..|s.trace| - 1])
            && (!Up(child, r.trace) ==> r.trace == s.trace)
  {
    LiveBalanced(url, child, g, rt, cn, body);
    LiveBalanced(url, child, g, rt.(remove := remove), cn, body);
  }

  lemma RenderLiveBalanced(req: RenderRequest, child: Child, g: Guard, rt: Runtime, cn: Connector)
    ensures Balanced(req.url, child, LiveRun(req.url, child, g, rt, cn, RenderBody(req, g)).trace)
  {
    RenderConfined(req, g);
    LiveBalanced(req.url, child, g, rt, cn, RenderBody(req, g));
  }

  lemma InteractLiveBalanced(req: Request, child: Child, g: Guard, rt: Runtime, cn: Connector)
    ensures Balanced(req.url, child, LiveRun(req.url, child, g, rt, cn, InteractBody(req, g)).trace)
  {
    InteractConfined(req, g);
    LiveBalanced(req.url, child, g, rt, cn, InteractBody(req, g));
  }

  lemma InsideSafe(req: Request, child: Child, g: Guard, rt: Runtime, cn: Connector, t: Trace)
    requires Quiet(t)
    ensures Safe(req.url, Inside(child, rt, cn, InteractBody(req, g), t).trace)
  {
    if rt.containerIp(t, child.name).Ok? && rt.containerIp(t, child.name).value.Some? {
      var ip := rt.containerIp(t, child.name).value.value;
      var found := t + [IpResolved(child.name, Some(ip))];
      if cn.connect(found, Address(ip, child)).Ok? {
        DriverOnlyOnClear(req, g, cn.connect(found, Address(ip, child)).value,
          found + [Connected(Address(ip, child), true)]);
      }
    }
  }

  /** Also inside the container the driver only moves or is read on a clear trace. */
  lemma InteractLiveSafe(req: Request, child: Child, g: Guard, rt: Runtime, cn: Connector)
    ensures Safe(req.url, LiveRun(req.url, child, g, rt, cn, InteractBody(req, g)).trace)
  {
    var pre := CheckTarget(g, [], req.url);
    if pre.result.Ok? && rt.spawn(pre.trace, child.name).None? {
      var start := pre.trace + [Spawned(child.name, true)];
      InsideSafe(req, child, g, rt, cn, start);
      var inner := Inside(child, rt, cn, InteractBody(req, g), start);
      SafeIdle(req.url, inner.trace, Removed(child.name, rt.remove(inner.trace, child.name).None?));
    }
  }

  lemma SafeIdle(url: string, t: Trace, e: Event)
    requires Safe(url, t) && !IsDriver(e)
    ensures Safe(url, t + [e])
  {
    forall p | 0 <= p < |t + [e]| && IsDriver((t + [e])[p]) ensures Clear(url, (t + [e])[..p]) {
      assert p < |t| && (t + [e])[..p] == t[..p];
    }
  }
}
