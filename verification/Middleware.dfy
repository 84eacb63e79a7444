/** The middleware chain, which may be suspended at any asynchronous callback and resumed later. */
module Middleware {
  import opened Helpers

  datatype Action = CONTINUE | SKIP_NEXT | BREAK

  /** What a callback does when it is called: it returns, or it is a coroutine that finishes before the
      call returns, or one that is suspended and finishes later; a coroutine may fail. */
  datatype Callback = Sync(action: Action) | Inline(action: Action, ok: bool) | Suspends(action: Action, ok: bool)

  datatype Event = Global(i: nat) | PerRoute(i: nat) | Handler

  /** The action a callback amounts to: a failed one ends the chain. */
  function Effect(c: Callback): Action {
    if !c.Sync? && !c.ok then BREAK else c.action
  }

  // ---------------------------------------------------------------- the all-synchronous chain

  function EventAt(route: bool, i: nat): Event { if route then PerRoute(i) else Global(i) }

  function Ahead(stack: seq<Callback>, i: nat): nat { if i < |stack| then |stack| - i else 0 }

  /** The callbacks of a stack that run from position i on, and whether one ends the chain. */
  function Chain(route: bool, stack: seq<Callback>, i: nat): (seq<Event>, bool)
    decreases Ahead(stack, i), 0
  {
    if i >= |stack| then ([], false)
    else
      var r := Following(route, stack, i + 1, Effect(stack[i]));
      ([EventAt(route, i)] + r.0, r.1)
  }

  /** What follows an action, when `next` is the position behind the callback that took it. */
  function Following(route: bool, stack: seq<Callback>, next: nat, action: Action): (seq<Event>, bool)
    decreases Ahead(stack, next), 1
  {
    match action
    case CONTINUE => Chain(route, stack, next)
    case SKIP_NEXT => Chain(route, stack, next + 1)
    case BREAK => ([], true)
  }

  /** The handler runs behind a chain that was not broken. */
  function WithHandler(r: (seq<Event>, bool)): seq<Event> { if r.1 then r.0 else r.0 + [Handler] }

  function WithRoute(g: (seq<Event>, bool), perRoute: seq<Callback>): seq<Event> {
    if g.1 then g.0 else g.0 + WithHandler(Chain(true, perRoute, 0))
  }

  /** What runs for a request when every callback is replaced by a synchronous one with its action. */
  function SyncRun(global: seq<Callback>, perRoute: seq<Callback>): seq<Event> {
    WithRoute(Chain(false, global, 0), perRoute)
  }

  function Position(e: Event): nat { if e.Handler? then 0 else e.i }

  /** Callbacks of one stack, at positions that go up within [lo, hi). */
  predicate Rises(route: bool, t: seq<Event>, lo: nat, hi: nat) {
    && (forall k | 0 <= k < |t| :: !t[k].Handler? && t[k].PerRoute? == route && lo <= Position(t[k]) < hi)
    && forall k, l | 0 <= k < l < |t| :: Position(t[k]) < Position(t[l])
  }

  lemma RisesCons(route: bool, i: nat, r: seq<Event>, hi: nat)
    requires Rises(route, r, i + 1, hi) && i < hi
    ensures Rises(route, [EventAt(route, i)] + r, i, hi)
  {
    var t := [EventAt(route, i)] + r;
    assert Position(t[0]) == i;
    assert forall k | 0 < k < |t| :: t[k] == r[k - 1];
  }

  lemma RisesFrom(route: bool, t: seq<Event>, lo: nat, lo': nat, hi: nat)
    requires Rises(route, t, lo', hi) && lo <= lo'
    ensures Rises(route, t, lo, hi)
  {
  }

  /** A chain runs callbacks of its stack only, and positions go up. */
  lemma {:induction false} ChainRises(route: bool, stack: seq<Callback>, i: nat)
    ensures Rises(route, Chain(route, stack, i).0, i, |stack|)
    decreases Ahead(stack, i)
  {
    if i < |stack| {
      hide Rises;
      ChainRises(route, stack, i + 1);
      ChainRises(route, stack, i + 2);
      RisesFrom(route, Chain(route, stack, i + 2).0, i + 1, i + 2, |stack|);
      NothingRises(route, i + 1, |stack|);
      RisesCons(route, i, Following(route, stack, i + 1, Effect(stack[i])).0, |stack|);
    } else {
      NothingRises(route, i, |stack|);
    }
  }

  lemma NothingRises(route: bool, lo: nat, hi: nat)
    ensures Rises(route, [], lo, hi)
  {
  }

  /** No callback runs twice. */
  lemma RunsOnce(global: seq<Callback>, perRoute: seq<Callback>)
    ensures var t := SyncRun(global, perRoute); forall k, l | 0 <= k < l < |t| :: t[k] != t[l]
  {
    hide Chain;
    ChainRises(false, global, 0);
    ChainRises(true, perRoute, 0);
  }

  // ---------------------------------------------------------------- which callbacks run

  /** A coroutine that failed takes no action of its own. */
  predicate Takes(c: Callback, action: Action) { (c.Sync? || c.ok) && c.action == action }

  predicate Ends(c: Callback) { !Takes(c, CONTINUE) && !Takes(c, SKIP_NEXT) }

  predicate Ran(route: bool, t: seq<Event>, i: nat) { EventAt(route, i) in t }

  /** A position behind the first runs behind a callback that continues, or behind one that was skipped. */
  predicate RunsNext(route: bool, stack: seq<Callback>, t: seq<Event>, first: nat, i: nat)
    requires first < i <= |stack|
  {
    if Ran(route, t, i - 1) then Takes(stack[i - 1], CONTINUE)
    else i > first + 1 && Ran(route, t, i - 2) && Takes(stack[i - 2], SKIP_NEXT)
  }

  /** The callbacks of a stack that run, once it is begun: the first, and then one after another. */
  ghost predicate RunsThose(route: bool, stack: seq<Callback>, t: seq<Event>) {
    && (stack != [] ==> Ran(route, t, 0))
    && (forall i: nat | 0 < i < |stack| :: Ran(route, t, i) <==> RunsNext(route, stack, t, 0, i))
    && forall i: nat | Ran(route, t, i) :: i < |stack|
  }

  predicate Ended(route: bool, stack: seq<Callback>, t: seq<Event>) {
    exists i: nat | i < |stack| :: Ran(route, t, i) && Ends(stack[i])
  }

  /** Global callbacks come before the route's own, and those before the handler. */
  predicate Earlier(a: Event, b: Event) {
    match b
    case Global(j) => a.Global? && a.i < j
    case PerRoute(j) => a.Global? || (a.PerRoute? && a.i < j)
    case Handler => !a.Handler?
  }

  predicate InOrder(t: seq<Event>) { forall k, l | 0 <= k < l < |t| :: Earlier(t[k], t[l]) }

  /** The global stack is run, the route's own if no global callback ended the request, and the handler
      if none of either did; in this order and nothing else. */
  ghost predicate Obeys(global: seq<Callback>, perRoute: seq<Callback>, t: seq<Event>) {
    && InOrder(t) && RunsThose(false, global, t)
    && (if Ended(false, global, t) then forall i: nat :: !Ran(true, t, i) else RunsThose(true, perRoute, t))
    && (Handler in t <==> !Ended(false, global, t) && !Ended(true, perRoute, t))
  }

  /** The same from position i on. */
  ghost predicate RunsFrom(route: bool, stack: seq<Callback>, t: seq<Event>, i: nat) {
    && (forall e <- t :: OfStack(route, stack, i, e)) && (i < |stack| ==> Ran(route, t, i))
    && forall j: nat | i < j < |stack| :: Ran(route, t, j) <==> RunsNext(route, stack, t, i, j)
  }

  predicate OfStack(route: bool, stack: seq<Callback>, i: nat, e: Event) {
    !e.Handler? && e.PerRoute? == route && i <= e.i < |stack|
  }

  lemma {:induction false} ChainRuns(route: bool, stack: seq<Callback>, i: nat)
    ensures RunsFrom(route, stack, Chain(route, stack, i).0, i)
    ensures Chain(route, stack, i).1 <==> Ended(route, stack, Chain(route, stack, i).0)
    decreases Ahead(stack, i)
  {
    hide RunsFrom, Ended;
    if i >= |stack| {
      NothingRuns(route, stack, i);
    } else {
      match Effect(stack[i])
      case CONTINUE =>
        ChainRuns(route, stack, i + 1);
        RunsCons(route, stack, i, i + 1, Chain(route, stack, i + 1).0);
      case SKIP_NEXT =>
        ChainRuns(route, stack, i + 2);
        RunsCons(route, stack, i, i + 2, Chain(route, stack, i + 2).0);
      case BREAK =>
        NothingRuns(route, stack, |stack|);
        RunsCons(route, stack, i, |stack|, []);
    }
  }

  lemma NothingRuns(route: bool, stack: seq<Callback>, i: nat)
    requires i >= |stack|
    ensures RunsFrom(route, stack, [], i) && !Ended(route, stack, [])
  {
  }

  /** One callback, then what runs from the position its action leads to. */
  lemma RunsCons(route: bool, stack: seq<Callback>, i: nat, next: nat, t: seq<Event>)
    requires i < |stack| && RunsFrom(route, stack, t, next)
    requires match Effect(stack[i])
             case CONTINUE => next == i + 1
             case SKIP_NEXT => next == i + 2
             case BREAK => next == |stack|
    ensures RunsFrom(route, stack, [EventAt(route, i)] + t, i)
    ensures Ended(route, stack, [EventAt(route, i)] + t) <==> Effect(stack[i]) == BREAK || Ended(route, stack, t)
  {
    var t' := [EventAt(route, i)] + t;
    forall j: nat ensures Ran(route, t', j) <==> j == i || Ran(route, t, j) {
      assert t'[0] == EventAt(route, i) && (EventAt(route, j) in t ==> EventAt(route, j) in t');
    }
    forall j: nat | Ran(route, t, j) ensures next <= j < |stack| {
      assert OfStack(route, stack, next, EventAt(route, j));
    }
    assert forall e <- t' :: e == EventAt(route, i) || e in t;
    forall j: nat | i < j < |stack|
      ensures Ran(route, t', j) <==> RunsNext(route, stack, t', i, j)
    {
      assert Ran(route, t', j - 1) <==> j - 1 == i || Ran(route, t, j - 1);
      if j > next {
        assert Ran(route, t, j) <==> RunsNext(route, stack, t, next, j);
      }
      if j > i + 1 {
        assert Ran(route, t', j - 2) <==> j - 2 == i || Ran(route, t, j - 2);
      }
    }
    assert Ran(route, t', i);
  }

  /** The synchronous chain obeys the rule. */
  lemma SyncRunObeys(global: seq<Callback>, perRoute: seq<Callback>)
    ensures Obeys(global, perRoute, SyncRun(global, perRoute))
  {
    hide Chain, RunsThose, Ended, InOrder, Rises;
    var g, r, t := Chain(false, global, 0), Chain(true, perRoute, 0), SyncRun(global, perRoute);
    ChainRuns(false, global, 0);
    ChainRuns(true, perRoute, 0);
    RunsAll(false, global, g.0);
    RunsAll(true, perRoute, r.0);
    Parts(global, perRoute);
    SameRuns(false, global, g.0, t);
    SyncRunOrder(global, perRoute);
    if !g.1 {
      SameRuns(true, perRoute, r.0, t);
    } else {
      NoneEnded(true, perRoute, t);
    }
  }

  /** The events of each stack in the whole run. */
  lemma Parts(global: seq<Callback>, perRoute: seq<Callback>)
    ensures var g, r, t := Chain(false, global, 0), Chain(true, perRoute, 0), SyncRun(global, perRoute);
            && (forall i: nat :: Ran(false, t, i) <==> Ran(false, g.0, i))
            && (forall i: nat :: Ran(true, t, i) <==> !g.1 && Ran(true, r.0, i))
            && (Handler in t <==> !g.1 && !r.1)
  {
    hide Chain;
    var g, r, t := Chain(false, global, 0), Chain(true, perRoute, 0), SyncRun(global, perRoute);
    ChainRises(false, global, 0);
    ChainRises(true, perRoute, 0);
    forall e ensures e in t <==> e in g.0 || (!g.1 && (e in r.0 || (!r.1 && e == Handler))) {
      assert !g.1 && !r.1 ==> t[|t| - 1] == Handler;
    }
  }

  lemma RunsAll(route: bool, stack: seq<Callback>, t: seq<Event>)
    requires RunsFrom(route, stack, t, 0)
    ensures RunsThose(route, stack, t)
  {
    forall i: nat | Ran(route, t, i) ensures i < |stack| {
      assert OfStack(route, stack, 0, EventAt(route, i));
    }
  }

  /** Whether a stack obeys the rule depends on its own events alone. */
  lemma SameRuns(route: bool, stack: seq<Callback>, t: seq<Event>, t': seq<Event>)
    requires forall j: nat :: Ran(route, t, j) <==> Ran(route, t', j)
    ensures RunsThose(route, stack, t) <==> RunsThose(route, stack, t')
    ensures Ended(route, stack, t) <==> Ended(route, stack, t')
  {
  }

  lemma NoneEnded(route: bool, stack: seq<Callback>, t: seq<Event>)
    requires forall j: nat :: !Ran(route, t, j)
    ensures !Ended(route, stack, t)
  {
  }

  lemma SyncRunOrder(global: seq<Callback>, perRoute: seq<Callback>)
    ensures InOrder(SyncRun(global, perRoute))
  {
    hide Chain;
    ChainRises(false, global, 0);
    ChainRises(true, perRoute, 0);
  }

  /** Nothing else obeys it: the rule says exactly what is run. */
  lemma ObeyedOnce(global: seq<Callback>, perRoute: seq<Callback>, t: seq<Event>)
    requires Obeys(global, perRoute, t)
    ensures t == SyncRun(global, perRoute)
  {
    hide InOrder, Ended;
    var u := SyncRun(global, perRoute);
    SyncRunObeys(global, perRoute);
    forall i: nat ensures Ran(false, t, i) <==> Ran(false, u, i) {
      SameMember(false, global, t, u, i);
    }
    SameRuns(false, global, t, u);
    forall i: nat ensures Ran(true, t, i) <==> Ran(true, u, i) {
      if !Ended(false, global, t) {
        SameMember(true, perRoute, t, u, i);
      }
    }
    SameRuns(true, perRoute, t, u);
    forall e ensures e in t <==> e in u {
      match e
      case Global(i) => assert Ran(false, t, i) <==> Ran(false, u, i);
      case PerRoute(i) => assert Ran(true, t, i) <==> Ran(true, u, i);
      case Handler =>
    }
    SameInOrder(t, u);
  }

  lemma {:induction false} SameMember(route: bool, stack: seq<Callback>, t: seq<Event>, u: seq<Event>, i: nat)
    requires RunsThose(route, stack, t) && RunsThose(route, stack, u)
    ensures Ran(route, t, i) <==> Ran(route, u, i)
  {
    if 0 < i < |stack| {
      SameMember(route, stack, t, u, i - 1);
      if i > 1 {
        SameMember(route, stack, t, u, i - 2);
      }
    }
  }

  /** An order fixes the sequence of its members. */
  lemma {:induction false} SameInOrder(t: seq<Event>, u: seq<Event>)
    requires InOrder(t) && InOrder(u) && forall e :: e in t <==> e in u
    ensures t == u
    decreases |t|
  {
    if t == [] {
      if u != [] {
        HasMember(u);
      }
    } else {
      assert t[0] in u && u != [] && u[0] in t;
      var k :| 0 <= k < |u| && u[k] == t[0];
      var l :| 0 <= l < |t| && t[l] == u[0];
      assert k > 0 ==> Earlier(u[0], u[k]);
      assert l > 0 ==> Earlier(t[0], t[l]);
      assert t[0] == u[0];
      TailsSame(t, u);
      SameInOrder(t[1..], u[1..]);
    }
  }

  lemma HasMember(u: seq<Event>)
    requires u != []
    ensures exists e :: e in u
  {
    assert u[0] in u;
  }

  lemma TailsSame(t: seq<Event>, u: seq<Event>)
    requires InOrder(t) && InOrder(u) && (forall e :: e in t <==> e in u) && t != [] && u != [] && t[0] == u[0]
    ensures InOrder(t[1..]) && InOrder(u[1..]) && forall e :: e in t[1..] <==> e in u[1..]
  {
    forall e ensures e in t[1..] <==> e in t && e != t[0] {
      if e in t[1..] {
        var k :| 0 <= k < |t[1..]| && t[1..][k] == e;
        assert Earlier(t[0], t[k + 1]);
      }
    }
    forall e ensures e in u[1..] <==> e in u && e != u[0] {
      if e in u[1..] {
        var k :| 0 <= k < |u[1..]| && u[1..][k] == e;
        assert Earlier(u[0], u[k + 1]);
      }
    }
  }

  // ---------------------------------------------------------------- the record kept across suspension

  const MIDDLEWARE := 0
  const RESPONSE := 1
  const GLOBAL := 0
  const PER_ROUTE := 1

  /** Both levels share a byte: execution level in its upper half, middleware level in its lower. */
  datatype AsyncTrack = AsyncTrack(mAction: Action, levels: nat, mIndex: nat) {
    function GetELevel(): nat { levels / 16 % 16 }
    function GetMLevel(): nat { levels % 16 }
    function SetELevel(v: nat): AsyncTrack { this.(levels := v % 16 * 16 + levels % 16) }
    function SetMLevel(v: nat): AsyncTrack { this.(levels := levels / 16 % 16 * 16 + v % 16) }
  }

  lemma LevelsApart(t: AsyncTrack, v: nat)
    requires v < 16
    ensures t.SetELevel(v).GetELevel() == v && t.SetELevel(v).GetMLevel() == t.GetMLevel()
    ensures t.SetMLevel(v).GetMLevel() == v && t.SetMLevel(v).GetELevel() == t.GetELevel()
  {
  }

  datatype Result = Result(success: bool, isAsync: bool, isBroken: bool)

  class RequestRun {
    const global: seq<Callback>
    const perRoute: seq<Callback>
    const handler: Callback
    var trackAsync: AsyncTrack
    var inFlight: Option<Callback>   // the coroutine that is suspended
    var trace: seq<Event>            // callbacks run so far
    var responses: nat

    ghost predicate Sized() { |global| < 0xFFFF && |perRoute| < 0xFFFF }

    constructor (global: seq<Callback>, perRoute: seq<Callback>, handler: Callback)
      requires |global| < 0xFFFF && |perRoute| < 0xFFFF
      ensures Sized() && this.global == global && this.perRoute == perRoute
      ensures trace == [] && responses == 0 && inFlight == None && trackAsync == AsyncTrack(CONTINUE, 0, 0)
    {
      this.global, this.perRoute, this.handler := global, perRoute, handler;
      trackAsync, inFlight, trace, responses := AsyncTrack(CONTINUE, 0, 0), None, [], 0;
    }

    function Stack(route: bool): seq<Callback> { if route then perRoute else global }

    /** What a stack has still to do, from the recorded index and the last action. */
    function Left(route: bool, mIndex: nat, action: Action): (seq<Event>, bool) {
      if mIndex == 0 then Chain(route, Stack(route), 0) else Following(route, Stack(route), mIndex, action)
    }

    /** Everything still to run, when the last asynchronous callback took `action`. */
    function Due(t: AsyncTrack, action: Action): seq<Event> {
      if t.GetELevel() == RESPONSE then []
      else if t.GetMLevel() == GLOBAL then WithRoute(Left(false, t.mIndex, action), perRoute)
      else WithHandler(Left(true, t.mIndex, action))
    }

    /** Runs a callback. A coroutine that finishes at once has its action recorded and goes on as if it
        were synchronous. */
    method ExecuteFunction(c: Callback, event: Event) returns (action: Action, isAsync: bool)
      requires inFlight == None
      modifies this`trackAsync, this`inFlight, this`trace
      ensures trace == old(trace) + [event] && isAsync == c.Suspends?
      ensures trackAsync == old(trackAsync).(mAction := trackAsync.mAction)
      ensures !isAsync ==> action == Effect(c) && inFlight == None
      ensures isAsync ==> inFlight == Some(c)
    {
      trace := trace + [event];
      match c
      case Sync(a) => return a, false;
      case Inline(a, ok) =>
        trackAsync := trackAsync.(mAction := if ok then a else BREAK);
        return trackAsync.mAction, false;
      case Suspends(_, _) =>
        inFlight := Some(c);
        return CONTINUE, true;
    }

    /** Runs a stack from where it was left. */
    method ExecuteHelper(route: bool) returns (r: Result)
      requires Sized() && inFlight == None && trackAsync.mIndex <= |Stack(route)|
      modifies this`trackAsync, this`inFlight, this`trace
      ensures trackAsync.levels == old(trackAsync).levels && trackAsync.mIndex <= |Stack(route)|
              && |trace| >= |old(trace)|
      ensures var left := old(Left(route, trackAsync.mIndex, trackAsync.mAction));
              if r.isAsync then
                && !r.success && !r.isBroken && inFlight.Some? && inFlight.value.Suspends? && trackAsync.mIndex > 0
                    && |trace| > |old(trace)|
                && var more := Left(route, trackAsync.mIndex, Effect(inFlight.value));
                   trace + more.0 == old(trace) + left.0 && more.1 == left.1
              else inFlight == None && trace == old(trace) + left.0 && r.isBroken == left.1 && r.success == !left.1
    {
      hide Chain;
      var stack := Stack(route);
      ghost var left := Left(route, trackAsync.mIndex, trackAsync.mAction);
      ChainEnd(route, stack);
      if |stack| == 0 {
        return Result(true, false, false);
      }
      var i := trackAsync.mIndex;
      if i > 0 {
        match trackAsync.mAction {
          case CONTINUE =>
          case SKIP_NEXT => i := i + 1;
          case BREAK => return Result(false, false, true);
        }
      }
      while i < |stack|
        invariant inFlight == None && trackAsync.levels == old(trackAsync).levels && trackAsync.mIndex <= |stack|
        invariant trace + Chain(route, stack, i).0 == old(trace) + left.0 && Chain(route, stack, i).1 == left.1
        invariant |trace| >= |old(trace)|
      {
        ChainStep(route, stack, i, trace);
        var action, isAsync := ExecuteFunction(stack[i], EventAt(route, i));
        if isAsync {
          trackAsync := trackAsync.(mIndex := (i + 1) % 0x1_0000);
          return Result(false, true, false);
        }
        match action {
          case CONTINUE =>
          case SKIP_NEXT => i := i + 1;
          case BREAK => return Result(false, false, true);
        }
        i := i + 1;
      }
      ChainPast(route, stack, i);
      assert trace + [] == trace;
      return Result(true, false, false);
    }

    /** The global stack, then the route's own. */
    method ExecuteMiddleware() returns (r: Result)
      requires Sized() && inFlight == None && trackAsync.GetELevel() == MIDDLEWARE && Placed()
      modifies this`trackAsync, this`inFlight, this`trace
      ensures Placed() && trackAsync.GetELevel() == MIDDLEWARE && |trace| >= |old(trace)|
      ensures var due := old(Due(trackAsync, trackAsync.mAction));
              if r.isAsync then
                && !r.success && !r.isBroken && inFlight.Some? && inFlight.value.Suspends? && trackAsync.mIndex > 0
                && |trace| > |old(trace)| && trace + Due(trackAsync, Effect(inFlight.value)) == old(trace) + due
              else
                && inFlight == None && r.success == !r.isBroken
                && trace + (if r.success then [Handler] else []) == old(trace) + due
    {
      hide Chain, Following;
      if trackAsync.GetMLevel() == GLOBAL {
        ghost var left := Left(false, trackAsync.mIndex, trackAsync.mAction);
        r := ExecuteHelper(false);
        ghost var rest := WithHandler(Chain(true, perRoute, 0));
        Joined(old(trace), left.0, rest);
        if r.isAsync {
          Joined(trace, Left(false, trackAsync.mIndex, Effect(inFlight.value)).0, rest);
        }
        if !r.success {
          return;
        }
        LevelsApart(trackAsync, PER_ROUTE);
        trackAsync := trackAsync.(mIndex := 0).SetMLevel(PER_ROUTE);
      }
      label Route:
      ghost var right := Left(true, trackAsync.mIndex, trackAsync.mAction);
      r := ExecuteHelper(true);
      Joined(old@Route(trace), right.0, [Handler]);
      if r.isAsync {
        Joined(trace, Left(true, trackAsync.mIndex, Effect(inFlight.value)).0, [Handler]);
      }
    }

    /** The recorded index lies in the stack of the recorded level. */
    ghost predicate Placed()
      reads this
    {
      && (trackAsync.GetMLevel() == GLOBAL || trackAsync.GetMLevel() == PER_ROUTE)
      && trackAsync.mIndex <= |Stack(trackAsync.GetMLevel() == PER_ROUTE)|
    }

    /** What is still to run while a coroutine is suspended. */
    ghost function DueAfter(): seq<Event>
      reads this
      requires inFlight.Some?
    {
      Due(trackAsync, Effect(inFlight.value))
    }

    /** Between calls: the record points into the stack it names. */
    ghost predicate Valid()
      reads this
    {
      Sized() && (trackAsync.GetELevel() == RESPONSE || (trackAsync.GetELevel() == MIDDLEWARE && Placed()))
          && (inFlight.Some? ==>
                inFlight.value.Suspends? && (trackAsync.GetELevel() == MIDDLEWARE ==> trackAsync.mIndex > 0))
    }

    method HandleResponse()
      modifies this`responses
      ensures responses == old(responses) + 1
    {
      responses := responses + 1;
    }

    /** Runs the request from where it was left, up to its response or the next suspension. */
    method HandleSuccess()
      requires Valid() && inFlight == None
      modifies this
      ensures Valid()
      ensures var due := old(Due(trackAsync, trackAsync.mAction));
              if inFlight.None? then responses == old(responses) + 1 && trace == old(trace) + due
              else responses == old(responses) && |trace| > |old(trace)| && trace + DueAfter() == old(trace) + due
    {
      hide Chain, Following, WithRoute, WithHandler;
      if trackAsync.GetELevel() == RESPONSE {
        assert trace + [] == trace;
        HandleResponse();
        return;
      }
      var r := ExecuteMiddleware();
      if !r.success {
        assert trace + [] == trace;
        if r.isBroken {
          HandleResponse();
        }
        return;
      }
      LevelsApart(trackAsync, RESPONSE);
      trackAsync := trackAsync.SetELevel(RESPONSE);
      var action, isAsync := ExecuteFunction(handler, Handler);
      assert trace + [] == trace;
      if !isAsync {
        HandleResponse();
      }
    }

    lemma BrokenDue(t: AsyncTrack)
      requires t.GetELevel() == RESPONSE || t.mIndex > 0
      ensures Due(t, BREAK) == []
    {
      Broken(perRoute);
    }

    /** A suspended coroutine has finished. A failure ends the request; a middleware's action is fed
        into the chain; a handler's end is the response. */
    method OnCoroutineComplete()
      requires Valid() && inFlight.Some?
      modifies this
      ensures Valid()
      ensures var due := old(DueAfter());
              if inFlight.None? then responses == old(responses) + 1 && trace == old(trace) + due
              else responses == old(responses) && |trace| > |old(trace)| && trace + DueAfter() == old(trace) + due
    {
      hide Chain, WithRoute;
      var c := inFlight.value;
      inFlight := None;
      Broken(perRoute);
      if !c.ok {
        BrokenDue(trackAsync);
        assert trace + [] == trace;
        HandleResponse();
      } else if trackAsync.GetELevel() == MIDDLEWARE {
        trackAsync := trackAsync.(mAction := c.action);
        HandleSuccess();
      } else {
        assert trace + [] == trace;
        HandleResponse();
      }
    }

    /** A whole request: its coroutines finish one after another. Whatever finishes inline, suspends or
        fails, the callbacks run, the handler among them, are those of the synchronous chain with the
        same actions, in the same order, and one response is sent. */
    method Run()
      requires Valid() && inFlight == None && trace == [] && responses == 0 && trackAsync == AsyncTrack(CONTINUE, 0, 0)
      modifies this
      ensures trace == SyncRun(global, perRoute) && responses == 1 && inFlight == None
      ensures Obeys(global, perRoute, trace)
    {
      hide Chain, Following, WithHandler, Obeys;
      SyncRunObeys(global, perRoute);
      HandleSuccess();
      assert [] + SyncRun(global, perRoute) == SyncRun(global, perRoute);
      while inFlight.Some?
        invariant Valid()
        invariant if inFlight.None? then responses == 1 && trace == SyncRun(global, perRoute)
                  else responses == 0 && trace + DueAfter() == SyncRun(global, perRoute)
        decreases |SyncRun(global, perRoute)| - |trace|, inFlight.Some?
      {
        OnCoroutineComplete();
      }
    }
  }

  lemma Broken(perRoute: seq<Callback>)
    ensures WithRoute(([], true), perRoute) == [] && WithHandler(([], true)) == []
  {
  }

  lemma ChainEnd(route: bool, stack: seq<Callback>)
    ensures stack == [] ==> Chain(route, stack, 0) == ([], false)
  {
  }

  lemma ChainPast(route: bool, stack: seq<Callback>, i: nat)
    requires i >= |stack|
    ensures Chain(route, stack, i) == ([], false)
  {
  }

  lemma ChainStep(route: bool, stack: seq<Callback>, i: nat, trace: seq<Event>)
    requires i < |stack|
    ensures var r := Following(route, stack, i + 1, Effect(stack[i]));
            && trace + Chain(route, stack, i).0 == trace + [EventAt(route, i)] + r.0 && Chain(route, stack, i).1 == r.1
  {
    var r := Following(route, stack, i + 1, Effect(stack[i]));
    assert trace + ([EventAt(route, i)] + r.0) == trace + [EventAt(route, i)] + r.0;
  }

  lemma Joined(a: seq<Event>, b: seq<Event>, c: seq<Event>)
    ensures a + b + c == a + (b + c)
  {
  }
}
