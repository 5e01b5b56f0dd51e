/** What a run returns, explained by the last thing that happened in it. */
module Outcomes {
  import opened Base
  import opened Decimal
  import opened Browsing
  import opened Interact
  import opened Live

  /** The output is the artifact the driver handed out, under the navigation it belongs to. */
  predicate Delivers(out: Output, nav: Navigation, mode: Mode, artifact: Artifact) {
    && out.finalUrl == nav.finalUrl && out.status == nav.status
    && match artifact
       case ScreenshotPath(path) => out.mode == Screenshot && out.screenshotPath == Some(path) && out.text == None
       case PageText(body) => out.mode == mode && out.screenshotPath == None && out.text == Some(body)
  }

  /** The error is the one the guard or the driver gave for the event the trace ends with. */
  predicate FailedBy(g: Guard, d: Driver, mode: Mode, t: Trace, e: Error) {
    t != [] &&
    var p := t[..|t| - 1];
    match t[|t| - 1]
    case TargetChecked(url, allowed) =>
      !allowed && g.target(p, url).Some? && e == Blocked(g.target(p, url).value)
    case HopChecked(url, allowed) =>
      !allowed && g.redirect(p, url).Some? && e == Blocked(g.redirect(p, url).value)
    case NavigateFailed(url) => d.navigate(p, url) == Err(e)
    case ActFailed(action) => d.act(p, action) == Err(e)
    case ReadFailed(m) => d.read(p, m) == Err(e)
    case RenderFailed(url) => d.render(p, url, mode) == Err(e)
    case _ => false
  }

  lemma FailsBy(g: Guard, d: Driver, mode: Mode, p: Trace, last: Event, e: Error)
    requires match last
             case TargetChecked(url, allowed) => !allowed && e.Blocked? && g.target(p, url) == Some(e.reason)
             case HopChecked(url, allowed) => !allowed && e.Blocked? && g.redirect(p, url) == Some(e.reason)
             case NavigateFailed(url) => d.navigate(p, url) == Err(e)
             case ActFailed(action) => d.act(p, action) == Err(e)
             case ReadFailed(m) => d.read(p, m) == Err(e)
             case RenderFailed(url) => d.render(p, url, mode) == Err(e)
             case _ => false
    ensures FailedBy(g, d, mode, p + [last], e)
  {
    assert (p + [last])[..|p|] == p;
  }

  lemma {:induction false} HopsFail(g: Guard, d: Driver, mode: Mode, t: Trace, hops: seq<string>)
    ensures var r := CheckHops(g, t, hops); r.result.Err? ==> FailedBy(g, d, mode, r.trace, r.result.error)
    decreases |hops|
  {
    if hops == [] {
    } else if g.redirect(t, hops[0]).None? {
      HopsFail(g, d, mode, t + [HopChecked(hops[0], true)], hops[1..]);
    } else {
      FailsBy(g, d, mode, t, HopChecked(hops[0], false), Blocked(g.redirect(t, hops[0]).value));
    }
  }

  lemma TargetFails(g: Guard, d: Driver, mode: Mode, t: Trace, url: string)
    ensures var r := CheckTarget(g, t, url); r.result.Err? ==> FailedBy(g, d, mode, r.trace, r.result.error)
  {
    if g.target(t, url).Some? {
      FailsBy(g, d, mode, t, TargetChecked(url, false), Blocked(g.target(t, url).value));
    }
  }

  lemma ReguardFails(g: Guard, d: Driver, mode: Mode, t: Trace, nav: Navigation)
    ensures var r := Reguard(g, t, nav); r.result.Err? ==> FailedBy(g, d, mode, r.trace, r.result.error)
  {
    TargetFails(g, d, mode, t, nav.finalUrl);
    HopsFail(g, d, mode, CheckTarget(g, t, nav.finalUrl).trace, nav.redirectChain);
  }

  lemma {:induction false} ActionsFail(g: Guard, d: Driver, mode: Mode, t: Trace, actions: seq<Action>, nav: Navigation)
    ensures var r := RunActions(g, d, t, actions, nav);
            r.result.Err? ==> FailedBy(g, d, mode, r.trace, r.result.error)
    decreases |actions|
  {
    if actions == [] {
    } else {
      match d.act(t, actions[0])
      case Err(e) => FailsBy(g, d, mode, t, ActFailed(actions[0]), e);
      case Ok(next) =>
        var moved := t + [Acted(actions[0], next)];
        ReguardFails(g, d, mode, moved, next);
        if Reguard(g, moved, next).result.Ok? {
          ActionsFail(g, d, mode, Reguard(g, moved, next).trace, actions[1..], next);
        }
    }
  }

  /** A read delivered what the driver gave for it, under the last navigation reported. */
  ghost predicate ReadBy(d: Driver, mode: Mode, t: Trace, out: Output) {
    exists p, nav, artifact ::
      && t == p + [ReadDone(mode)] && LastNav(p) == Some(nav) && d.read(p, mode) == Ok(artifact)
      && Delivers(out, nav, mode, artifact)
  }

  ghost predicate SessionExplained(g: Guard, d: Driver, mode: Mode, r: Run<Output>) {
    match r.result
    case Ok(out) => ReadBy(d, mode, r.trace, out)
    case Err(e) => FailedBy(g, d, mode, r.trace, e)
  }

  lemma ScriptResult(req: Request, g: Guard, d: Driver, t: Trace, nav: Navigation)
    ensures SessionExplained(g, d, req.mode, Script(req, g, d, t, nav))
  {
    var e := Navigated(req.url, nav);
    ReguardFails(g, d, req.mode, t + [e], nav);
    MoveCounts(g, t, e, nav);
    var r := Reguard(g, t + [e], nav);
    if r.result.Ok? {
      ActionsFail(g, d, req.mode, r.trace, req.actions, nav);
      ActionsCounts(g, d, r.trace, req.actions, nav);
      var done := RunActions(g, d, r.trace, req.actions, nav);
      if done.result.Ok? { ReadResult(g, d, done.trace, done.result.value, req.mode); }
    }
  }

  lemma ReadResult(g: Guard, d: Driver, t: Trace, nav: Navigation, mode: Mode)
    requires LastNav(t) == Some(nav)
    ensures SessionExplained(g, d, mode, FinishRead(d, t, nav, mode))
  {
    match d.read(t, mode)
    case Err(e) => FailsBy(g, d, mode, t, ReadFailed(mode), e);
    case Ok(artifact) => assert Delivers(OutputOf(nav, mode, artifact), nav, mode, artifact);
  }

  /**
   A session returns the artifact of its read, under the last navigation reported, or the very error
   that the guard or the driver gave for the event it ends with.
   */
  lemma SessionResult(req: Request, g: Guard, d: Driver, t: Trace)
    ensures SessionExplained(g, d, req.mode, Session(req, g, d, t))
  {
    TargetFails(g, d, req.mode, t, req.url);
    var pre := CheckTarget(g, t, req.url);
    if pre.result.Ok? {
      match d.navigate(pre.trace, req.url)
      case Err(e) => FailsBy(g, d, req.mode, pre.trace, NavigateFailed(req.url), e);
      case Ok(nav) => ScriptResult(req, g, d, pre.trace, nav);
    }
  }

  /** A render delivered what the driver gave for it. */
  ghost predicate RenderedBy(req: RenderRequest, d: Driver, t: Trace, r: Trace, out: Output) {
    exists nav, artifact ::
      && r == t + RenderTrace(req.url, nav)
      && d.render(t + [TargetChecked(req.url, true)], req.url, req.mode) == Ok((nav, artifact))
      && Delivers(out, nav, req.mode, artifact)
  }

  /** The same for the read-only render, which checks the hops after it has the artifact. */
  lemma RenderResult(req: RenderRequest, g: Guard, d: Driver, t: Trace)
    ensures var r := Rendering(req, g, d, t);
            match r.result
            case Ok(out) => RenderedBy(req, d, t, r.trace, out)
            case Err(e) => FailedBy(g, d, req.mode, r.trace, e)
  {
    TargetFails(g, d, req.mode, t, req.url);
    var pre := CheckTarget(g, t, req.url);
    if pre.result.Ok? {
      match d.render(pre.trace, req.url, req.mode)
      case Err(e) => FailsBy(g, d, req.mode, pre.trace, RenderFailed(req.url), e);
      case Ok((nav, artifact)) =>
        var sent := pre.trace + [Rendered(req.url, nav)];
        HopsFail(g, d, req.mode, sent, nav.redirectChain);
        CheckHopsTrace(g, sent, nav.redirectChain);
        assert sent + HopEvents(nav.redirectChain) == t + RenderTrace(req.url, nav);
        assert Delivers(OutputOf(nav, req.mode, artifact), nav, req.mode, artifact);
    }
  }

  // ----- the container run -----

  /** `base` is the browser's port at the address `ip`. */
  ghost predicate Reaches(base: string, ip: string, port: nat) {
    exists digits :: ParseNat(digits) == Some(port) && base == "http://" + ip + ":" + digits
  }

  /** Every connection goes to the child's port at the address just resolved for it. */
  ghost predicate ConnectsToChild(child: Child, rt: Runtime, t: Trace) {
    forall i :: 0 <= i < |t| && t[i].Connected? ==>
      && i > 0 && t[i - 1].IpResolved? && t[i - 1].name == child.name && t[i - 1].ip.Some?
      && rt.containerIp(t[..i - 1], child.name) == Ok(t[i - 1].ip)
      && Reaches(t[i].base, t[i - 1].ip.value, child.cdpPort)
  }

  lemma ConnectsOnce(child: Child, rt: Runtime, p: Trace, ip: string, base: string, ok: bool, later: Trace)
    requires forall i :: 0 <= i < |p| ==> !p[i].Connected?
    requires rt.containerIp(p, child.name) == Ok(Some(ip)) && Reaches(base, ip, child.cdpPort)
    requires Extends(later, p + [IpResolved(child.name, Some(ip)), Connected(base, ok)])
    ensures ConnectsToChild(child, rt, later)
  {
    var start := p + [IpResolved(child.name, Some(ip)), Connected(base, ok)];
    assert forall i :: 0 <= i < |start| ==> later[i] == later[..|start|][i];
    assert later[..|p|] == start[..|p|] == p;
  }

  lemma InsideConnects(child: Child, rt: Runtime, cn: Connector, body: Body, t: Trace)
    requires Confined(body) && forall i :: 0 <= i < |t| ==> !t[i].Connected?
    ensures ConnectsToChild(child, rt, Inside(child, rt, cn, body, t).trace)
  {
    if rt.containerIp(t, child.name).Ok? && rt.containerIp(t, child.name).value.Some? {
      var ip := rt.containerIp(t, child.name).value.value;
      var found, base := t + [IpResolved(child.name, Some(ip))], Address(ip, child);
      var ok := cn.connect(found, base).Ok?;
      NatRoundTrip(child.cdpPort);
      assert base == "http://" + ip + ":" + NatText(child.cdpPort);
      assert found + [Connected(base, ok)] == t + [IpResolved(child.name, Some(ip)), Connected(base, ok)];
      ConnectsOnce(child, rt, t, ip, base, ok, Inside(child, rt, cn, body, t).trace);
    }
  }

  /** A container run, whatever is done in it, only ever talks to its own child. */
  lemma LiveConnects(url: string, child: Child, g: Guard, rt: Runtime, cn: Connector, body: Body)
    requires Confined(body)
    ensures ConnectsToChild(child, rt, LiveRun(url, child, g, rt, cn, body).trace)
  {
    var pre := CheckTarget(g, [], url);
    if pre.result.Ok? && rt.spawn(pre.trace, child.name).None? {
      var inner := Inside(child, rt, cn, body, pre.trace + [Spawned(child.name, true)]);
      InsideConnects(child, rt, cn, body, pre.trace + [Spawned(child.name, true)]);
      ConnectsStill(child, rt, inner.trace, Removed(child.name, rt.remove(inner.trace, child.name).None?));
    }
  }

  lemma ConnectsStill(child: Child, rt: Runtime, t: Trace, e: Event)
    requires ConnectsToChild(child, rt, t) && !e.Connected?
    ensures ConnectsToChild(child, rt, t + [e])
  {
    forall i | 0 <= i < |t + [e]| && (t + [e])[i].Connected?
      ensures i > 0 && (t + [e])[i - 1].IpResolved? && (t + [e])[..i - 1] == t[..i - 1]
    {
      assert (t + [e])[i] == t[i] && (t + [e])[i - 1] == t[i - 1];
    }
  }

  lemma RenderConnects(req: RenderRequest, child: Child, g: Guard, rt: Runtime, cn: Connector)
    ensures ConnectsToChild(child, rt, LiveRun(req.url, child, g, rt, cn, RenderBody(req, g)).trace)
  {
    RenderConfined(req, g);
    LiveConnects(req.url, child, g, rt, cn, RenderBody(req, g));
  }

  lemma InteractConnects(req: Request, child: Child, g: Guard, rt: Runtime, cn: Connector)
    ensures ConnectsToChild(child, rt, LiveRun(req.url, child, g, rt, cn, InteractBody(req, g)).trace)
  {
    InteractConfined(req, g);
    LiveConnects(req.url, child, g, rt, cn, InteractBody(req, g));
  }

  /** The browser's part of a run: no address, no connection, or whatever `body` made of the driver. */
  ghost predicate InnerBy(child: Child, rt: Runtime, cn: Connector, body: Body, r: Run<Output>) {
    || (exists p, why :: r.trace == p + [IpResolved(child.name, None)]
          && rt.containerIp(p, child.name) == Err(why)
          && r.result == Err(Container("resolve browser child ip: " + why)))
    || (exists p :: r.trace == p + [IpResolved(child.name, None)]
          && rt.containerIp(p, child.name) == Ok(None)
          && r.result == Err(Container(
               "browser child `" + child.name + "` has no bridge IP (cannot reach CDP endpoint)")))
    || (exists p, base, e :: r.trace == p + [Connected(base, false)]
          && cn.connect(p, base) == Err(e) && r.result == Err(e))
    || (exists p, base, d :: cn.connect(p, base) == Ok(d) && r == body(d, p + [Connected(base, true)]))
  }

  /** The host's part: the guard's refusal, a spawn that failed, or the browser's part and then the removal. */
  ghost predicate LiveBy(url: string, child: Child, g: Guard, rt: Runtime, cn: Connector, body: Body, r: Run<Output>) {
    || (r.trace == [TargetChecked(url, false)] && exists why ::
          g.target([], url) == Some(why) && r.result == Err(Blocked(why)))
    || (r.trace == [TargetChecked(url, true), Spawned(child.name, false)] && exists why ::
          rt.spawn([TargetChecked(url, true)], child.name) == Some(why)
          && r.result == Err(Container("spawn browser child `" + child.name + "`: " + why)))
    || exists inner :: r.trace == inner + [Removed(child.name, rt.remove(inner, child.name).None?)]
          && InnerBy(child, rt, cn, body, Run(inner, r.result))
  }

  lemma InnerResult(child: Child, rt: Runtime, cn: Connector, body: Body, t: Trace)
    ensures InnerBy(child, rt, cn, body, Inside(child, rt, cn, body, t))
  {
    if rt.containerIp(t, child.name).Ok? && rt.containerIp(t, child.name).value.Some? {
      var ip := rt.containerIp(t, child.name).value.value;
      var found, base := t + [IpResolved(child.name, Some(ip))], Address(ip, child);
      if cn.connect(found, base).Ok? {
        assert Inside(child, rt, cn, body, t) == body(cn.connect(found, base).value, found + [Connected(base, true)]);
      } else {
        assert Inside(child, rt, cn, body, t).trace == found + [Connected(base, false)];
      }
    } else {
      assert Inside(child, rt, cn, body, t).trace == t + [IpResolved(child.name, None)];
    }
  }

  /** What a container run returns, for every guard, runtime, connector and body. */
  lemma LiveResult(url: string, child: Child, g: Guard, rt: Runtime, cn: Connector, body: Body)
    ensures LiveBy(url, child, g, rt, cn, body, LiveRun(url, child, g, rt, cn, body))
  {
    var pre := CheckTarget(g, [], url);
    assert pre.trace == [TargetChecked(url, pre.result.Ok?)];
    if pre.result.Ok? {
      var spawned := [TargetChecked(url, true), Spawned(child.name, rt.spawn(pre.trace, child.name).None?)];
      assert pre.trace + [spawned[1]] == spawned;
      if rt.spawn(pre.trace, child.name).None? {
        var inner := Inside(child, rt, cn, body, spawned);
        InnerResult(child, rt, cn, body, spawned);
        assert LiveRun(url, child, g, rt, cn, body).trace ==
          inner.trace + [Removed(child.name, rt.remove(inner.trace, child.name).None?)];
        assert inner == Run(inner.trace, inner.result);
      }
    }
  }
}
