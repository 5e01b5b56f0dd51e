/** One interactive browser session: check, navigate, act and re-check, read. */
module Interact {
  import opened Base
  import opened Strings
  import opened Browsing

  const MAX_ACTIONS: nat := 32
  const MAX_TYPE_LEN: nat := 8192

  datatype Request = Request(url: string, actions: seq<Action>, mode: Mode)

  predicate Blank(s: string) { Trim(s) == "" }

  predicate ActionOk(a: Action) {
    match a
    case Click(sel) => !Blank(sel)
    case WaitForSelector(sel, _) => !Blank(sel)
    case TypeText(sel, text) => !Blank(sel) && Utf8Len(text) <= MAX_TYPE_LEN
    case Scroll(sel, dx, dy) => (sel.Some? ==> !Blank(sel.value)) && dx.Finite? && dy.Finite?
  }

  predicate RequestOk(r: Request) {
    !Blank(r.url) && 0 < |r.actions| <= MAX_ACTIONS && forall i :: 0 <= i < |r.actions| ==> ActionOk(r.actions[i])
  }

  /** `InteractRequest::validate` */
  method Validate(r: Request) returns (error: Option<Error>)
    ensures error.None? <==> RequestOk(r)
    ensures error.Some? ==> error.value.Invalid?
    ensures Blank(r.url) ==> error == Some(Invalid("`url` must be non-empty"))
    ensures !Blank(r.url) && r.actions == [] ==>
              error == Some(Invalid("`actions` must contain at least one action"))
    ensures !Blank(r.url) && |r.actions| > MAX_ACTIONS ==>
              error == Some(Invalid("`actions` exceeds the 32-action cap (demand-pull only)"))
    ensures !Blank(r.url) && 0 < |r.actions| <= MAX_ACTIONS && error.Some? ==>
              exists i :: && 0 <= i < |r.actions| && !ActionOk(r.actions[i])
                          && (forall j :: 0 <= j < i ==> ActionOk(r.actions[j]))
                          && error == Some(Invalid(ActionProblem(r.actions[i])))
  {
    if Blank(r.url) { return Some(Invalid("`url` must be non-empty")); }
    if r.actions == [] { return Some(Invalid("`actions` must contain at least one action")); }
    if |r.actions| > MAX_ACTIONS { return Some(Invalid("`actions` exceeds the 32-action cap (demand-pull only)")); }
    var i := 0;
    while i < |r.actions|
      invariant 0 <= i <= |r.actions|
      invariant forall j :: 0 <= j < i ==> ActionOk(r.actions[j])
    {
      if !ActionOk(r.actions[i]) { return Some(Invalid(ActionProblem(r.actions[i]))); }
      i := i + 1;
    }
    return None;
  }

  lemma BlankExactly(s: string)
    ensures Blank(s) <==> AllSpace(s)
  {
    var before, after := TrimExactly(s);
    assert Trim(s) != "" ==> s[|before|] == Trim(s)[0];
  }

  /** A request is accepted with a URL and 1 to 32 actions, each with its selector, none typing over 8192 bytes. */
  lemma RequestLimits(r: Request)
    ensures RequestOk(r) <==>
              && !AllSpace(r.url) && 1 <= |r.actions| <= 32
              && forall i :: 0 <= i < |r.actions| ==>
                   match r.actions[i]
                   case Click(sel) => !AllSpace(sel)
                   case WaitForSelector(sel, _) => !AllSpace(sel)
                   case TypeText(sel, text) => !AllSpace(sel) && Utf8Len(text) <= 8192
                   case Scroll(sel, dx, dy) =>
                     (sel.Some? ==> !AllSpace(sel.value)) && dx != NotFinite && dy != NotFinite
  {
    forall s: string ensures Blank(s) <==> AllSpace(s) { BlankExactly(s); }
  }

  function ActionProblem(a: Action): string
    requires !ActionOk(a)
  {
    match a
    case Scroll(sel, _, _) =>
      if sel.Some? && Blank(sel.value) then "`selector` must be non-empty"
          else "scroll `dx`/`dy` must be finite numbers"
    case TypeText(sel, _) => if Blank(sel) then "`selector` must be non-empty" else "`text` exceeds the 8192-byte cap"
    case _ => "`selector` must be non-empty"
  }

  /** `reguard_navigation`: the settled URL, then every redirect hop. */
  function Reguard(g: Guard, t: Trace, nav: Navigation): Run<()> {
    var r := CheckTarget(g, t, nav.finalUrl);
    if r.result.Err? then r else CheckHops(g, r.trace, nav.redirectChain)
  }

  /** The scripted actions, each followed by a re-check; the last navigation on success. */
  function RunActions(g: Guard, d: Driver, t: Trace, actions: seq<Action>, nav: Navigation): Run<Navigation>
    decreases |actions|
  {
    if actions == [] then Run(t, Ok(nav))
    else match d.act(t, actions[0])
      case Err(e) => Run(t + [ActFailed(actions[0])], Err(e))
      case Ok(next) =>
        var r := Reguard(g, t + [Acted(actions[0], next)], next);
        if r.result.Err? then Run(r.trace, Err(r.result.error)) else RunActions(g, d, r.trace, actions[1..], next)
  }

  function FinishRead(d: Driver, t: Trace, nav: Navigation, mode: Mode): Run<Output> {
    match d.read(t, mode)
    case Err(e) => Run(t + [ReadFailed(mode)], Err(e))
    case Ok(artifact) => Run(t + [ReadDone(mode)], Ok(OutputOf(nav, mode, artifact)))
  }

  /** Everything after the first navigation reported `nav`. */
  function Script(req: Request, g: Guard, d: Driver, t: Trace, nav: Navigation): Run<Output> {
    var r := Reguard(g, t + [Navigated(req.url, nav)], nav);
    if r.result.Err? then Run(r.trace, Err(r.result.error))
    else
      var done := RunActions(g, d, r.trace, req.actions, nav);
      match done.result
      case Err(e) => Run(done.trace, Err(e))
      case Ok(last) => FinishRead(d, done.trace, last, req.mode)
  }

  /** A valid request, run after `t`. */
  function Session(req: Request, g: Guard, d: Driver, t: Trace): Run<Output> {
    var pre := CheckTarget(g, t, req.url);
    if pre.result.Err? then Run(pre.trace, Err(pre.result.error))
    else match d.navigate(pre.trace, req.url)
      case Err(e) => Run(pre.trace + [NavigateFailed(req.url)], Err(e))
      case Ok(nav) => Script(req, g, d, pre.trace, nav)
  }

  method ReguardNavigation(g: Guard, t0: Trace, nav: Navigation) returns (r: Run<()>)
    ensures r == Reguard(g, t0, nav)
  {
    var blocked := g.target(t0, nav.finalUrl);
    if blocked.Some? {
      return Run(t0 + [TargetChecked(nav.finalUrl, false)], Err(Blocked(blocked.value)));
    }
    r := GuardHops(g, t0 + [TargetChecked(nav.finalUrl, true)], nav.redirectChain);
  }

  /** `interact` */
  method InteractOnce(req: Request, g: Guard, d: Driver, t0: Trace) returns (r: Run<Output>)
    ensures RequestOk(req) ==> r == Session(req, g, d, t0)
    ensures !RequestOk(req) ==> r.trace == t0 && r.result.Err? && r.result.error.Invalid?
  {
    var invalid := Validate(req);
    if invalid.Some? { return Run(t0, Err(invalid.value)); }
    var blocked := g.target(t0, req.url);
    if blocked.Some? { return Run(t0 + [TargetChecked(req.url, false)], Err(Blocked(blocked.value))); }
    var t := t0 + [TargetChecked(req.url, true)];
    var landed := d.navigate(t, req.url);
    if landed.Err? { return Run(t + [NavigateFailed(req.url)], Err(landed.error)); }
    var nav := landed.value;
    var checked := ReguardNavigation(g, t + [Navigated(req.url, nav)], nav);
    if checked.result.Err? { return Run(checked.trace, Err(checked.result.error)); }
    t := checked.trace;
    ghost var started, first := t, nav;
    var i := 0;
    while i < |req.actions|
      invariant 0 <= i <= |req.actions|
      invariant RunActions(g, d, t, req.actions[i..], nav) == RunActions(g, d, started, req.actions, first)
    {
      var next := d.act(t, req.actions[i]);
      if next.Err? { return Run(t + [ActFailed(req.actions[i])], Err(next.error)); }
      nav := next.value;
      checked := ReguardNavigation(g, t + [Acted(req.actions[i], nav)], nav);
      if checked.result.Err? { return Run(checked.trace, Err(checked.result.error)); }
      assert req.actions[i..][1..] == req.actions[i + 1..];
      t := checked.trace;
      i := i + 1;
    }
    var artifact := d.read(t, req.mode);
    if artifact.Err? { return Run(t + [ReadFailed(req.mode)], Err(artifact.error)); }
    return Run(t + [ReadDone(req.mode)], Ok(OutputOf(nav, req.mode, artifact.value)));
  }

  // ----- no driver activity past an unchecked navigation -----

  /** The navigation reported at `k` was checked since, settled URL and every hop, and accepted. */
  ghost predicate CheckedSince(t: Trace, k: nat, nav: Navigation) {
    && (exists c :: k < c < |t| && t[c] == TargetChecked(nav.finalUrl, true))
    && forall hop :: hop in nav.redirectChain ==> exists c :: k < c < |t| && t[c] == HopChecked(hop, true)
  }

  predicate NoRejection(t: Trace) {
    forall i :: 0 <= i < |t| && IsCheck(t[i]) ==> t[i].allowed
  }

  /** Everything reported so far has been checked and accepted, starting with the request's URL. */
  ghost predicate Clear(url: string, t: Trace) {
    && TargetChecked(url, true) in t
    && NoRejection(t)
    && forall k :: 0 <= k < |t| && Reported(t[k]).Some? ==> CheckedSince(t, k, Reported(t[k]).value)
  }

  /** The driver only ever moves on a clear trace. */
  ghost predicate Safe(url: string, t: Trace) {
    forall p :: 0 <= p < |t| && IsDriver(t[p]) ==> Clear(url, t[..p])
  }

  lemma SafeChecks(url: string, t: Trace, more: Trace)
    requires Safe(url, t) && AllChecks(more)
    ensures Safe(url, t + more)
  {
    forall p | 0 <= p < |t + more| && IsDriver((t + more)[p]) ensures Clear(url, (t + more)[..p]) {
      assert p >= |t| ==> IsCheck((t + more)[p]);
      assert (t + more)[..p] == t[..p];
    }
  }

  lemma SafeMove(url: string, t: Trace, e: Event)
    requires Safe(url, t) && Clear(url, t)
    ensures Safe(url, t + [e])
  {
    forall p | 0 <= p < |t + [e]| && IsDriver((t + [e])[p]) ensures Clear(url, (t + [e])[..p]) {
      assert (t + [e])[..p] == if p < |t| then t[..p] else t;
    }
  }

  /** A reported navigation followed by its accepted checks leaves the trace clear again. */
  lemma ClearAgain(url: string, t: Trace, e: Event, nav: Navigation)
    requires Clear(url, t) && Reported(e) == Some(nav) && !IsCheck(e)
    ensures Clear(url, t + [e] + [TargetChecked(nav.finalUrl, true)] + HopEvents(nav.redirectChain))
  {
    var all := t + [e] + [TargetChecked(nav.finalUrl, true)] + HopEvents(nav.redirectChain);
    assert all[|t|] == e && all[|t| + 1] == TargetChecked(nav.finalUrl, true);
    forall k | 0 <= k < |all| && Reported(all[k]).Some? ensures CheckedSince(all, k, Reported(all[k]).value) {
      if k < |t| {
        assert all[k] == t[k];
        KeptSince(t, all, k, Reported(t[k]).value);
      } else {
        forall hop | hop in nav.redirectChain ensures exists c :: k < c < |all| && all[c] == HopChecked(hop, true) {
          var i :| 0 <= i < |nav.redirectChain| && nav.redirectChain[i] == hop;
          assert all[|t| + 2 + i] == HopChecked(hop, true);
        }
      }
    }
    var c :| 0 <= c < |t| && t[c] == TargetChecked(url, true);
    assert all[c] == TargetChecked(url, true);
  }

  lemma KeptSince(t: Trace, all: Trace, k: nat, nav: Navigation)
    requires CheckedSince(t, k, nav) && |t| <= |all| && all[..|t|] == t
    ensures CheckedSince(all, k, nav)
  {
    assert forall c :: 0 <= c < |t| ==> all[c] == all[..|t|][c] == t[c];
    var c :| k < c < |t| && t[c] == TargetChecked(nav.finalUrl, true);
    assert all[c] == TargetChecked(nav.finalUrl, true);
    forall hop | hop in nav.redirectChain ensures exists c :: k < c < |all| && all[c] == HopChecked(hop, true) {
      var d :| k < d < |t| && t[d] == HopChecked(hop, true);
      assert all[d] == HopChecked(hop, true);
    }
  }

  /** Re-checking appends checks only: all accepted on success, with a rejection last on failure. */
  lemma ReguardTrace(g: Guard, t: Trace, nav: Navigation)
    ensures var r := Reguard(g, t, nav);
            && (r.result.Ok? ==> r.trace == t + [TargetChecked(nav.finalUrl, true)] + HopEvents(nav.redirectChain))
            && (r.result.Err? ==> r.result.error.Blocked? && exists more :: AllChecks(more) && r.trace == t + more)
  {
    CheckHopsTrace(g, t + [TargetChecked(nav.finalUrl, true)], nav.redirectChain);
    var r := Reguard(g, t, nav);
    if r.result.Err? {
      if g.target(t, nav.finalUrl).Some? {
        assert AllChecks([TargetChecked(nav.finalUrl, false)]);
      } else {
        var n :| 0 <= n < |nav.redirectChain| && r.trace ==
          t + [TargetChecked(nav.finalUrl, true)] + HopEvents(nav.redirectChain[..n]) +
              [HopChecked(nav.redirectChain[n], false)];
        var more := [TargetChecked(nav.finalUrl, true)] + HopEvents(nav.redirectChain[..n]) +
            [HopChecked(nav.redirectChain[n], false)];
        assert AllChecks(more) && r.trace == t + more;
      }
    }
  }

  // ----- counting -----

  function TargetChecks(t: Trace): nat {
    if t == [] then 0 else TargetChecks(t[..|t| - 1]) + if t[|t| - 1].TargetChecked? then 1 else 0
  }

  /** The actions the driver was asked to perform, in order. */
  function Performed(t: Trace): seq<Action> {
    if t == [] then []
    else
      var front, e := t[..|t| - 1], t[|t| - 1];
      if e.Acted? || e.ActFailed? then Performed(front) + [e.action] else Performed(front)
  }

  function LastNav(t: Trace): Option<Navigation> {
    if t == [] then None
    else if Reported(t[|t| - 1]).Some? then Reported(t[|t| - 1]) else LastNav(t[..|t| - 1])
  }

  lemma CountOne(t: Trace, e: Event)
    ensures TargetChecks(t + [e]) == TargetChecks(t) + if e.TargetChecked? then 1 else 0
    ensures Performed(t + [e]) == if e.Acted? || e.ActFailed? then Performed(t) + [e.action] else Performed(t)
    ensures LastNav(t + [e]) == if Reported(e).Some? then Reported(e) else LastNav(t)
  {
    assert (t + [e])[..|t + [e]| - 1] == t;
  }

  function HopsIn(t: Trace): nat {
    if t == [] then 0 else HopsIn(t[..|t| - 1]) + if t[|t| - 1].HopChecked? then 1 else 0
  }

  /** Checks perform nothing and report nothing. */
  lemma {:induction false} CountChecks(t: Trace, more: Trace)
    requires AllChecks(more)
    ensures Performed(t + more) == Performed(t) && LastNav(t + more) == LastNav(t)
    ensures TargetChecks(t + more) + HopsIn(more) == TargetChecks(t) + |more|
  {
    if more == [] {
      assert t + more == t;
    } else {
      var front, e := more[..|more| - 1], more[|more| - 1];
      CountChecks(t, front);
      CountOne(t + front, e);
      assert t + more == t + front + [e];
      assert IsCheck(e);
    }
  }

  lemma {:induction false} CountHops(hops: seq<string>)
    ensures HopsIn(HopEvents(hops)) == |hops|
  {
    if hops == [] {
    } else {
      CountHops(hops[..|hops| - 1]);
      assert HopEvents(hops)[..|hops| - 1] == HopEvents(hops[..|hops| - 1]);
    }
  }

  // ----- the whole session -----

  /** A trace on which nothing was rejected and no driver has moved yet. */
  predicate Quiet(t: Trace) {
    NoRejection(t) && forall i :: 0 <= i < |t| ==> !IsDriver(t[i])
  }

  /** One reported navigation and its re-check keep the driver on clear traces. */
  lemma MoveAndReguard(g: Guard, url: string, t: Trace, e: Event, nav: Navigation)
    requires Safe(url, t) && Clear(url, t) && Reported(e) == Some(nav) && !IsCheck(e)
    ensures var r := Reguard(g, t + [e], nav);
            Safe(url, r.trace) && (r.result.Ok? ==> Clear(url, r.trace))
  {
    SafeMove(url, t, e);
    ReguardTrace(g, t + [e], nav);
    var r := Reguard(g, t + [e], nav);
    if r.result.Ok? {
      ClearAgain(url, t, e, nav);
      var checks := [TargetChecked(nav.finalUrl, true)] + HopEvents(nav.redirectChain);
      assert r.trace == t + [e] + checks;
      SafeChecks(url, t + [e], checks);
    } else {
      var more :| AllChecks(more) && r.trace == t + [e] + more;
      SafeChecks(url, t + [e], more);
    }
  }

  lemma {:induction false} ActionsSafe(g: Guard, d: Driver, url: string, t: Trace, actions: seq<Action>,
      nav: Navigation)
    requires Safe(url, t) && Clear(url, t)
    ensures var r := RunActions(g, d, t, actions, nav);
            Safe(url, r.trace) && (r.result.Ok? ==> Clear(url, r.trace))
    decreases |actions|
  {
    if actions == [] {
    } else {
      match d.act(t, actions[0])
      case Err(_) => SafeMove(url, t, ActFailed(actions[0]));
      case Ok(next) =>
        MoveAndReguard(g, url, t, Acted(actions[0], next), next);
        var r := Reguard(g, t + [Acted(actions[0], next)], next);
        if r.result.Ok? { ActionsSafe(g, d, url, r.trace, actions[1..], next); }
    }
  }

  lemma QuietClear(url: string, t: Trace)
    requires Quiet(t)
    ensures Safe(url, t + [TargetChecked(url, true)]) && Clear(url, t + [TargetChecked(url, true)])
    ensures Safe(url, t + [TargetChecked(url, false)])
  {
    var ok := t + [TargetChecked(url, true)];
    assert ok[|t|] == TargetChecked(url, true);
  }

  /**
   Whatever guard and driver do, the driver is only ever moved or read when the request's URL
   and every settled URL and hop reported so far have been checked since, and accepted.
   */
  lemma DriverOnlyOnClear(req: Request, g: Guard, d: Driver, t: Trace)
    requires Quiet(t)
    ensures Safe(req.url, Session(req, g, d, t).trace)
  {
    QuietClear(req.url, t);
    var pre := CheckTarget(g, t, req.url);
    if pre.result.Ok? {
      match d.navigate(pre.trace, req.url)
      case Err(_) => SafeMove(req.url, pre.trace, NavigateFailed(req.url));
      case Ok(nav) =>
        MoveAndReguard(g, req.url, pre.trace, Navigated(req.url, nav), nav);
        var r := Reguard(g, pre.trace + [Navigated(req.url, nav)], nav);
        if r.result.Ok? {
          ActionsSafe(g, d, req.url, r.trace, req.actions, nav);
          var done := RunActions(g, d, r.trace, req.actions, nav);
          if done.result.Ok? {
            SafeMove(req.url, done.trace, ReadDone(req.mode));
            SafeMove(req.url, done.trace, ReadFailed(req.mode));
          }
        }
    }
  }

  /** What one reported navigation and its re-check add to the counts. */
  lemma MoveCounts(g: Guard, t: Trace, e: Event, nav: Navigation)
    requires Reported(e) == Some(nav)
    ensures var r := Reguard(g, t + [e], nav);
            && Performed(r.trace) == (if e.Acted? then Performed(t) + [e.action] else Performed(t))
            && LastNav(r.trace) == Some(nav)
            && (r.result.Ok? ==> TargetChecks(r.trace) == TargetChecks(t) + 1)
  {
    ReguardTrace(g, t + [e], nav);
    CountOne(t, e);
    var r := Reguard(g, t + [e], nav);
    if r.result.Ok? {
      AcceptedCounts(t + [e], nav);
    } else {
      var more :| AllChecks(more) && r.trace == t + [e] + more;
      CountChecks(t + [e], more);
    }
  }

  lemma AcceptedCounts(t: Trace, nav: Navigation)
    ensures var r := t + [TargetChecked(nav.finalUrl, true)] + HopEvents(nav.redirectChain);
            Performed(r) == Performed(t) && LastNav(r) == LastNav(t) && TargetChecks(r) == TargetChecks(t) + 1
  {
    CountOne(t, TargetChecked(nav.finalUrl, true));
    CountHops(nav.redirectChain);
    CountChecks(t + [TargetChecked(nav.finalUrl, true)], HopEvents(nav.redirectChain));
  }

  /** The actions performed are a prefix of the script, and all of it on success. */
  lemma {:induction false} ActionsCounts(g: Guard, d: Driver, t: Trace, actions: seq<Action>, nav: Navigation)
    requires LastNav(t) == Some(nav)
    ensures var r := RunActions(g, d, t, actions, nav);
            && (exists n :: 0 <= n <= |actions| && Performed(r.trace) == Performed(t) + actions[..n])
            && (r.result.Ok? ==>
                  && Performed(r.trace) == Performed(t) + actions
                  && TargetChecks(r.trace) == TargetChecks(t) + |actions|
                  && LastNav(r.trace) == Some(r.result.value))
    decreases |actions|
  {
    if actions == [] {
      assert Performed(t) == Performed(t) + actions[..0];
    } else {
      assert actions[..1] == [actions[0]];
      match d.act(t, actions[0])
      case Err(_) =>
        CountOne(t, ActFailed(actions[0]));
      case Ok(next) =>
        MoveCounts(g, t, Acted(actions[0], next), next);
        var r := Reguard(g, t + [Acted(actions[0], next)], next);
        if r.result.Ok? {
          ActionsCounts(g, d, r.trace, actions[1..], next);
          var done := RunActions(g, d, r.trace, actions[1..], next);
          var n :| 0 <= n <= |actions[1..]| && Performed(done.trace) == Performed(r.trace) + actions[1..][..n];
          assert Performed(t) + [actions[0]] + actions[1..][..n] == Performed(t) + actions[..n + 1];
          assert Performed(t) + [actions[0]] + actions[1..] == Performed(t) + actions;
        }
    }
  }

  predicate Succeeded(r: Run<Output>, actions: seq<Action>, before: nat) {
    && r.result.Ok?
    && Performed(r.trace) == actions
    && TargetChecks(r.trace) == before + 1 + |actions|
    && LastNav(r.trace).Some?
    && r.result.value.finalUrl == LastNav(r.trace).value.finalUrl
    && r.result.value.status == LastNav(r.trace).value.status
  }

  predicate EndsInRead(t: Trace) { |t| > 0 && t[|t| - 1].ReadDone? }

  lemma ScriptCounts(req: Request, g: Guard, d: Driver, t: Trace, nav: Navigation)
    requires Performed(t) == []
    ensures var r := Script(req, g, d, t, nav);
            && Performed(r.trace) <= req.actions
            && (r.result.Ok? <==> EndsInRead(r.trace))
            && (r.result.Ok? ==> Succeeded(r, req.actions, TargetChecks(t)))
  {
    var e := Navigated(req.url, nav);
    MoveCounts(g, t, e, nav);
    NotRead(g, t, e, nav);
    var r := Reguard(g, t + [e], nav);
    if r.result.Ok? {
      ActionsCounts(g, d, r.trace, req.actions, nav);
      ActionsNotRead(g, d, r.trace, req.actions, nav);
      var done := RunActions(g, d, r.trace, req.actions, nav);
      CountOne(done.trace, ReadDone(req.mode));
      CountOne(done.trace, ReadFailed(req.mode));
    }
  }

  /**
   The script is followed from the front whatever happens. A session succeeds exactly when its
   trace ends in a read; it then performed the whole script, made two target checks and one more
   per action, and reports the last navigation.
   */
  lemma SessionCounts(req: Request, g: Guard, d: Driver)
    ensures var r := Session(req, g, d, []);
            && Performed(r.trace) <= req.actions
            && (r.result.Ok? <==> EndsInRead(r.trace))
            && (r.result.Ok? ==> Succeeded(r, req.actions, 1))
  {
    var pre := CheckTarget(g, [], req.url);
    CountOne([], pre.trace[0]);
    if pre.result.Ok? {
      match d.navigate(pre.trace, req.url)
      case Err(_) =>
        CountOne(pre.trace, NavigateFailed(req.url));
      case Ok(nav) => ScriptCounts(req, g, d, pre.trace, nav);
    }
  }

  lemma NotRead(g: Guard, t: Trace, e: Event, nav: Navigation)
    requires !e.ReadDone?
    ensures var r := Reguard(g, t + [e], nav); |r.trace| > 0 && !r.trace[|r.trace| - 1].ReadDone?
  {
    ReguardTrace(g, t + [e], nav);
    var r := Reguard(g, t + [e], nav);
    if r.result.Err? {
      var more :| AllChecks(more) && r.trace == t + [e] + more;
      assert more != [] ==> IsCheck(more[|more| - 1]);
    }
  }

  lemma {:induction false} ActionsNotRead(g: Guard, d: Driver, t: Trace, actions: seq<Action>, nav: Navigation)
    requires |t| > 0 && !t[|t| - 1].ReadDone?
    ensures var r := RunActions(g, d, t, actions, nav); |r.trace| > 0 && !r.trace[|r.trace| - 1].ReadDone?
    decreases |actions|
  {
    if actions == [] || d.act(t, actions[0]).Err? {
    } else {
      var next := d.act(t, actions[0]).value;
      NotRead(g, t, Acted(actions[0], next), next);
      var r := Reguard(g, t + [Acted(actions[0], next)], next);
      if r.result.Ok? { ActionsNotRead(g, d, r.trace, actions[1..], next); }
    }
  }
}
