/** The button event machine of device/ticle/src/ext/button_nb.py: a
    debounced pressed/released level, PRESSED and RELEASED events, a
    click that waits out a double-click window, a double click and one
    long press per hold. Time is an unbounded count of milliseconds. */
module Buttons {
  import opened Wrappers
  import opened Sensors

  const CLICKED: int := 1
  const DOUBLE_CLICKED: int := 2
  const LONG_PRESSED: int := 3
  const PRESSED: int := 4
  const RELEASED: int := 5

  /** The tunables `set_options` changes. */
  datatype Options = Options(debounceMs: int, dcMs: int, longMs: int, emitPr: bool)

  const DefaultOptions := Options(20, 300, 800, true)

  /** The machine's state between two updates. */
  datatype Btn = Btn(pressed: bool, lastEdgeMs: int, pressStartMs: int,
                     waitingDouble: bool, longFired: bool, dcDeadlineMs: int)

  /** A long press belongs to a held button and ends any click tracking. */
  predicate Valid(b: Btn)
  {
    b.longFired ==> b.pressed && !b.waitingDouble
  }

  function StateSample(v: bool, src: string): Sample
  {
    Sample(Q_BTN_STATE, U_NONE, F_SENSOR, if v then 1 else 0, OK, src)
  }

  function EventSample(code: int): Sample
  {
    Sample(Q_BTN_EVENT, U_NONE, F_SENSOR, code, OK, "ButtonNB")
  }

  /** The window of a pending click has run out while released: CLICKED. */
  function Expire(b: Btn, t: int, cur: bool): (Btn, seq<Sample>)
  {
    if !cur && b.waitingDouble && b.dcDeadlineMs - t <= 0
    then (b.(waitingDouble := false), [EventSample(CLICKED)])
    else (b, [])
  }

  /** A hold reaches the long threshold: LONG_PRESSED, once per press. */
  function LongCheck(b: Btn, o: Options, t: int): (Btn, seq<Sample>)
  {
    if b.pressed && !b.longFired && t - b.pressStartMs >= o.longMs
    then (b.(longFired := true, waitingDouble := false), [EventSample(LONG_PRESSED)])
    else (b, [])
  }

  /** An accepted edge to level `cur`: the state sample, then the press
      or the release. */
  function Edge(b: Btn, o: Options, t: int, cur: bool): (Btn, seq<Sample>)
  {
    var e := b.(lastEdgeMs := t, pressed := cur);
    if cur then
      (e.(pressStartMs := t, longFired := false),
       [StateSample(cur, "ButtonNB")] + if o.emitPr then [EventSample(PRESSED)] else [])
    else
      var (r, ev) := Released(e, o, t);
      (r, [StateSample(cur, "ButtonNB")] + ev)
  }

  /** A release: the end of a long press, a double click, the opening of
      a click window, or nothing for a press too short or too long. */
  function Released(b: Btn, o: Options, t: int): (Btn, seq<Sample>)
  {
    var dur := t - b.pressStartMs;
    var ev := if o.emitPr then [EventSample(RELEASED)] else [];
    if b.longFired then
      (b.(longFired := false, waitingDouble := false), ev)
    else if o.debounceMs <= dur < o.longMs then
      if b.waitingDouble && b.dcDeadlineMs - t > 0
      then (b.(waitingDouble := false), ev + [EventSample(DOUBLE_CLICKED)])
      else (b.(waitingDouble := true, dcDeadlineMs := t + o.dcMs), ev)
    else (b, ev)
  }

  /** One `_update_impl(t)` with the button read as `cur`: the new state
      and the samples emitted, in order. */
  function Step(b: Btn, o: Options, t: int, cur: bool): (Btn, seq<Sample>)
  {
    var (b1, e1) := Expire(b, t, cur);
    if cur == b1.pressed then
      var (b2, e2) := LongCheck(b1, o, t);
      (b2, e1 + e2)
    else if t - b1.lastEdgeMs < o.debounceMs then
      (b1, e1)
    else
      var (b2, e2) := Edge(b1, o, t, cur);
      var (b3, e3) := LongCheck(b2, o, t);
      (b3, e1 + e2 + e3)
  }

  /** Every update keeps a long press tied to a held button. */
  lemma StepValid(b: Btn, o: Options, t: int, cur: bool)
    requires Valid(b)
    ensures Valid(Step(b, o, t, cur).0)
  {
  }

  /** A level change within the debounce time of the last accepted edge
      is ignored: the level and the edge time stay, no state sample or
      PRESSED/RELEASED event is emitted, and only a due CLICKED can be. */
  lemma DebounceIgnores(b: Btn, o: Options, t: int, cur: bool)
    requires cur != b.pressed && t - b.lastEdgeMs < o.debounceMs
    ensures var (r, out) := Step(b, o, t, cur);
      r.pressed == b.pressed && r.lastEdgeMs == b.lastEdgeMs && r.pressStartMs == b.pressStartMs
      && r.longFired == b.longFired
      && forall s :: s in out ==> s == EventSample(CLICKED)
  {
  }

  /** An edge after the debounce time is accepted: the level and edge time
      follow it, the state sample is emitted, and PRESSED or RELEASED is
      emitted exactly when the option asks for it. */
  lemma EdgeAccepted(b: Btn, o: Options, t: int, cur: bool)
    requires cur != b.pressed && t - b.lastEdgeMs >= o.debounceMs
    ensures var (r, out) := Step(b, o, t, cur);
      r.pressed == cur && r.lastEdgeMs == t
      && StateSample(cur, "ButtonNB") in out
      && (EventSample(if cur then PRESSED else RELEASED) in out <==> o.emitPr)
  {
    var (b1, e1) := Expire(b, t, cur);
    var (b2, e2) := Edge(b1, o, t, cur);
    var (b3, e3) := LongCheck(b2, o, t);
    assert Step(b, o, t, cur) == (b3, e1 + e2 + e3);
    assert StateSample(cur, "ButtonNB") == e2[0];
    if o.emitPr {
      assert EventSample(if cur then PRESSED else RELEASED) == e2[1];
    }
  }

  /** PRESSED and RELEASED never appear when the option is off, and a state
      sample only with an accepted edge. */
  lemma PressReleaseOnlyWhenAsked(b: Btn, o: Options, t: int, cur: bool)
    ensures var (r, out) := Step(b, o, t, cur);
      (!o.emitPr ==> EventSample(PRESSED) !in out && EventSample(RELEASED) !in out)
      && ((exists v :: StateSample(v, "ButtonNB") in out) ==> r.pressed == cur != b.pressed && r.lastEdgeMs == t)
  {
  }

  /** The button's states after a run of updates, with every sample. */
  function Run(b: Btn, o: Options, ins: seq<(int, bool)>): (Btn, seq<Sample>)
    decreases |ins|
  {
    if ins == [] then (b, [])
    else
      var (b1, e1) := Step(b, o, ins[0].0, ins[0].1);
      var (b2, e2) := Run(b1, o, ins[1..]);
      (b2, e1 + e2)
  }

  /** The button stays held through every update of the run. */
  predicate Held(b: Btn, o: Options, ins: seq<(int, bool)>)
    decreases |ins|
  {
    ins == [] || (Step(b, o, ins[0].0, ins[0].1).0.pressed && Held(Step(b, o, ins[0].0, ins[0].1).0, o, ins[1..]))
  }

  /** LONG_PRESSED fires at most once while the button is held, and not at
      all when it already fired for this press. */
  lemma {:induction false} LongOncePerPress(b: Btn, o: Options, ins: seq<(int, bool)>)
    requires b.pressed && Held(b, o, ins)
    ensures var n := multiset(Run(b, o, ins).1)[EventSample(LONG_PRESSED)];
      n <= 1 && (b.longFired ==> n == 0)
      && Run(b, o, ins).0.longFired == (b.longFired || n == 1)
    decreases |ins|
  {
    if ins != [] {
      var (b1, e1) := Step(b, o, ins[0].0, ins[0].1);
      var (b2, e2) := Run(b1, o, ins[1..]);
      assert Run(b, o, ins) == (b2, e1 + e2);
      LongOncePerPress(b1, o, ins[1..]);
      LongStepHeld(b, o, ins[0].0, ins[0].1);
    }
  }

  /** One update of a held button emits LONG_PRESSED at most once, only
      when it had not fired, and then records it. */
  lemma LongStepHeld(b: Btn, o: Options, t: int, cur: bool)
    requires b.pressed && Step(b, o, t, cur).0.pressed
    ensures var (r, out) := Step(b, o, t, cur);
      var n := multiset(out)[EventSample(LONG_PRESSED)];
      n <= 1 && (b.longFired ==> n == 0) && r.longFired == (b.longFired || n == 1)
  {
    if cur {
      assert Expire(b, t, cur) == (b, []);
      var (b2, e2) := LongCheck(b, o, t);
      assert [] + e2 == e2;
      assert Step(b, o, t, cur) == (b2, e2);
    } else {
      ReleaseEdgeReleases(b, o, t);
      var (b1, e1) := Expire(b, t, cur);
      assert Step(b, o, t, cur) == (b1, e1);
      assert multiset(e1)[EventSample(LONG_PRESSED)] == 0;
    }
  }

  /** An accepted release leaves the button released. */
  lemma ReleaseEdgeReleases(b: Btn, o: Options, t: int)
    ensures b.pressed && t - b.lastEdgeMs >= o.debounceMs ==> !Step(b, o, t, false).0.pressed
  {
  }

  /** Releasing after a long press cancels click tracking: no click of any
      kind follows, and nothing is left pending. */
  lemma ReleaseAfterLongCancels(b: Btn, o: Options, t: int)
    requires Valid(b) && b.longFired && t - b.lastEdgeMs >= o.debounceMs
    ensures var (r, out) := Step(b, o, t, false);
      !r.pressed && !r.longFired && !r.waitingDouble
      && EventSample(CLICKED) !in out && EventSample(DOUBLE_CLICKED) !in out
  {
  }

  /** Releasing a short press while a window is open and not yet over is a
      double click, and it closes the window. */
  lemma SecondShortPressDoubleClicks(b: Btn, o: Options, t: int)
    requires Valid(b) && b.pressed && !b.longFired && b.waitingDouble && b.dcDeadlineMs > t
    requires t - b.lastEdgeMs >= o.debounceMs && o.debounceMs <= t - b.pressStartMs < o.longMs
    ensures var (r, out) := Step(b, o, t, false);
      EventSample(DOUBLE_CLICKED) in out && !r.waitingDouble && EventSample(CLICKED) !in out
  {
    var (b2, e2) := Edge(b, o, t, false);
    assert EventSample(DOUBLE_CLICKED) == e2[|e2| - 1];
  }

  /** Releasing a short press with no window open opens one of dcMs. */
  lemma ShortPressOpensWindow(b: Btn, o: Options, t: int)
    requires Valid(b) && b.pressed && !b.longFired && !b.waitingDouble
    requires t - b.lastEdgeMs >= o.debounceMs && o.debounceMs <= t - b.pressStartMs < o.longMs
    ensures var (r, out) := Step(b, o, t, false);
      r.waitingDouble && r.dcDeadlineMs == t + o.dcMs
      && EventSample(DOUBLE_CLICKED) !in out && EventSample(CLICKED) !in out
  {
  }

  /** DOUBLE_CLICKED comes only from the release of a short press inside
      an open window. */
  lemma DoubleClickOnlyInWindow(b: Btn, o: Options, t: int, cur: bool)
    requires EventSample(DOUBLE_CLICKED) in Step(b, o, t, cur).1
    ensures !cur && b.pressed && !b.longFired && b.waitingDouble && b.dcDeadlineMs > t
    ensures t - b.lastEdgeMs >= o.debounceMs && o.debounceMs <= t - b.pressStartMs < o.longMs
  {
  }

  /** CLICKED is emitted exactly when the window has run out while the
      button reads released, and it closes the window. */
  lemma ClickedOnExpiry(b: Btn, o: Options, t: int, cur: bool)
    ensures EventSample(CLICKED) in Step(b, o, t, cur).1
        <==> !cur && b.waitingDouble && b.dcDeadlineMs <= t
  {
    var (b1, e1) := Expire(b, t, cur);
    if !cur && b.waitingDouble && b.dcDeadlineMs <= t {
      assert e1 == [EventSample(CLICKED)];
    }
  }

  /** The three ways through one update, phase by phase. */
  lemma StepLevelKept(b: Btn, o: Options, t: int, cur: bool)
    requires cur == Expire(b, t, cur).0.pressed
    ensures var (b1, e1) := Expire(b, t, cur);
      Step(b, o, t, cur) == (LongCheck(b1, o, t).0, e1 + LongCheck(b1, o, t).1)
  {
  }

  lemma StepBounced(b: Btn, o: Options, t: int, cur: bool)
    requires cur != Expire(b, t, cur).0.pressed && t - Expire(b, t, cur).0.lastEdgeMs < o.debounceMs
    ensures Step(b, o, t, cur) == Expire(b, t, cur)
  {
  }

  lemma StepEdge(b: Btn, o: Options, t: int, cur: bool)
    requires cur != Expire(b, t, cur).0.pressed && t - Expire(b, t, cur).0.lastEdgeMs >= o.debounceMs
    ensures var (b1, e1) := Expire(b, t, cur);
      var (b2, e2) := Edge(b1, o, t, cur);
      Step(b, o, t, cur) == (LongCheck(b2, o, t).0, e1 + e2 + LongCheck(b2, o, t).1)
  {
  }

  /** A run of emits in two parts. */
  lemma {:induction false} EmitAllConcat(h: Hub, a: seq<Sample>, c: seq<Sample>)
    ensures EmitAll(EmitAll(h, a), c) == EmitAll(h, a + c)
    decreases |c|
  {
    if c == [] {
      assert a + c == a;
    } else {
      var c' := c[..|c| - 1];
      EmitAllConcat(h, a, c');
      assert (a + c)[..|a + c| - 1] == a + c';
    }
  }

  /** `ButtonNB`: an adapter with the state and event channels. */
  class ButtonNB {
    const hub: Adapter
    var debounceMs: int
    var dcMs: int
    var longMs: int
    var emitPr: bool
    var pressed: bool
    var lastEdgeMs: int
    var pressStartMs: int
    var waitingDouble: bool
    var longFired: bool
    var dcDeadlineMs: int

    function State(): Btn
      reads this
    {
      Btn(pressed, lastEdgeMs, pressStartMs, waitingDouble, longFired, dcDeadlineMs)
    }

    function Opts(): Options
      reads this
    {
      Options(debounceMs, dcMs, longMs, emitPr)
    }

    /** The adapter's counters, which button updates leave to `update_once`. */
    function Counters(): (nat, nat, nat, int, int)
      reads this, hub
    {
      (hub.readCount, hub.failCount, hub.skipCount, hub.maxUs, hub.lastErr)
    }

    /** A new button reads the device's level, has nothing pending, and
        publishes its level on the state channel. */
    constructor (devPressed: bool, o: Options)
      ensures fresh(hub) && Opts() == o && hub.Valid()
      ensures State() == Btn(devPressed, 0, 0, false, false, 0)
      ensures hub.subs == map[Q_BTN_STATE := [], Q_BTN_EVENT := []]
      ensures hub.last == map[Q_BTN_STATE := Some(StateSample(devPressed, "ButtonNB:init")), Q_BTN_EVENT := None]
      ensures hub.delivered == []
    {
      var a := new Adapter([Q_BTN_STATE, Q_BTN_EVENT]);
      a.Emit(StateSample(devPressed, "ButtonNB:init"));
      hub := a;
      debounceMs := o.debounceMs;
      dcMs := o.dcMs;
      longMs := o.longMs;
      emitPr := o.emitPr;
      pressed := devPressed;
      lastEdgeMs := 0;
      pressStartMs := 0;
      waitingDouble := false;
      longFired := false;
      dcDeadlineMs := 0;
      new;
      assert hub.subs.Keys == {Q_BTN_STATE, Q_BTN_EVENT};
    }

    /** `set_options`: each given option replaces the current one. */
    method SetOptions(debounce: Option<int>, dc: Option<int>, long: Option<int>, pr: Option<bool>)
      modifies this
      ensures State() == old(State())
      ensures debounceMs == (if debounce.Some? then debounce.value else old(debounceMs))
      ensures dcMs == (if dc.Some? then dc.value else old(dcMs))
      ensures longMs == (if long.Some? then long.value else old(longMs))
      ensures emitPr == (if pr.Some? then pr.value else old(emitPr))
    {
      if debounce.Some? {
        debounceMs := debounce.value;
      }
      if dc.Some? {
        dcMs := dc.value;
      }
      if long.Some? {
        longMs := long.value;
      }
      if pr.Some? {
        emitPr := pr.value;
      }
    }

    /** The expiry check at the head of an update. */
    method ExpirePhase(t: int, cur: bool)
      modifies this, hub
      ensures State() == Expire(old(State()), t, cur).0 && Opts() == old(Opts())
      ensures hub.HubState() == EmitAll(old(hub.HubState()), Expire(old(State()), t, cur).1)
      ensures Counters() == old(Counters())
    {
      if !cur && waitingDouble && dcDeadlineMs - t <= 0 {
        waitingDouble := false;
        hub.Emit(EventSample(CLICKED));
        EmitAllSnoc(old(hub.HubState()), [], EventSample(CLICKED));
      }
    }

    /** The long-press check. */
    method LongPhase(t: int)
      modifies this, hub
      ensures State() == LongCheck(old(State()), Opts(), t).0 && Opts() == old(Opts())
      ensures hub.HubState() == EmitAll(old(hub.HubState()), LongCheck(old(State()), Opts(), t).1)
      ensures Counters() == old(Counters())
    {
      if pressed && !longFired && t - pressStartMs >= longMs {
        longFired := true;
        waitingDouble := false;
        hub.Emit(EventSample(LONG_PRESSED));
        EmitAllSnoc(old(hub.HubState()), [], EventSample(LONG_PRESSED));
      }
    }

    /** Emits one sample and records it in the run so far. */
    method EmitOne(s: Sample, ghost h0: Hub, ghost done: seq<Sample>)
      requires hub.HubState() == EmitAll(h0, done)
      modifies hub
      ensures hub.HubState() == EmitAll(h0, done + [s])
      ensures Counters() == old(Counters())
    {
      hub.Emit(s);
      EmitAllSnoc(h0, done, s);
    }

    /** An accepted edge. */
    method EdgePhase(t: int, cur: bool)
      modifies this, hub
      ensures State() == Edge(old(State()), Opts(), t, cur).0 && Opts() == old(Opts())
      ensures hub.HubState() == EmitAll(old(hub.HubState()), Edge(old(State()), Opts(), t, cur).1)
      ensures Counters() == old(Counters())
    {
      ghost var h0 := hub.HubState();
      ghost var b := State();
      lastEdgeMs := t;
      pressed := cur;
      EmitOne(StateSample(cur, "ButtonNB"), h0, []);
      ghost var out := [StateSample(cur, "ButtonNB")];
      if cur {
        pressStartMs := t;
        longFired := false;
        if emitPr {
          EmitOne(EventSample(PRESSED), h0, out);
          out := out + [EventSample(PRESSED)];
        } else {
          assert out + [] == out;
        }
        assert State() == Edge(b, Opts(), t, cur).0;
      } else {
        ReleasePhase(t, h0, out);
      }
    }

    /** The release part of an accepted edge. */
    method ReleasePhase(t: int, ghost h0: Hub, ghost done: seq<Sample>)
      requires hub.HubState() == EmitAll(h0, done)
      modifies this, hub
      ensures State() == Released(old(State()), Opts(), t).0 && Opts() == old(Opts())
      ensures hub.HubState() == EmitAll(h0, done + Released(old(State()), Opts(), t).1)
      ensures Counters() == old(Counters())
    {
      ghost var b := State();
      ghost var ev := if emitPr then [EventSample(RELEASED)] else [];
      var pressDur := t - pressStartMs;
      if emitPr {
        EmitOne(EventSample(RELEASED), h0, done);
      } else {
        assert done + [] == done;
      }
      ghost var out := done + ev;
      if longFired {
        longFired := false;
        waitingDouble := false;
      } else if pressDur >= debounceMs && pressDur < longMs {
        if waitingDouble && dcDeadlineMs - t > 0 {
          waitingDouble := false;
          EmitOne(EventSample(DOUBLE_CLICKED), h0, out);
          assert done + Released(b, Opts(), t).1 == out + [EventSample(DOUBLE_CLICKED)];
        } else {
          waitingDouble := true;
          dcDeadlineMs := t + dcMs;
        }
      }
    }

    /** `_update_impl(t)` with the button read as `cur`: the state moves
        and the samples are emitted as one `Step` says; it returns True. */
    method UpdateImpl(t: int, cur: bool) returns (ok: bool)
      modifies this, hub
      ensures State() == Step(old(State()), old(Opts()), t, cur).0 && Opts() == old(Opts())
      ensures hub.HubState() == EmitAll(old(hub.HubState()), Step(old(State()), old(Opts()), t, cur).1)
      ensures Counters() == old(Counters()) && ok
    {
      ghost var h0 := hub.HubState();
      ghost var b := State();
      ExpirePhase(t, cur);
      ghost var e1 := Expire(b, t, cur).1;
      if cur == pressed {
        ghost var b1 := State();
        StepLevelKept(b, Opts(), t, cur);
        LongPhase(t);
        EmitAllConcat(h0, e1, LongCheck(b1, Opts(), t).1);
        return true;
      }
      if t - lastEdgeMs < debounceMs {
        StepBounced(b, Opts(), t, cur);
        return true;
      }
      ghost var b1 := State();
      StepEdge(b, Opts(), t, cur);
      EdgePhase(t, cur);
      ghost var e2 := Edge(b1, Opts(), t, cur).1;
      EmitAllConcat(h0, e1, e2);
      ghost var b2 := State();
      LongPhase(t);
      EmitAllConcat(h0, e1 + e2, LongCheck(b2, Opts(), t).1);
      return true;
    }

    /** `update_once` for the button: one update, then the adapter's
        counters record a successful read taking `dtUs`. */
    method UpdateOnce(t: int, cur: bool, dtUs: int) returns (ok: bool)
      modifies this, hub
      ensures State() == Step(old(State()), old(Opts()), t, cur).0 && Opts() == old(Opts())
      ensures hub.HubState() == EmitAll(old(hub.HubState()), Step(old(State()), old(Opts()), t, cur).1)
      ensures ok && hub.readCount == old(hub.readCount) + 1 && hub.lastErr == OK
      ensures hub.failCount == old(hub.failCount) && hub.skipCount == old(hub.skipCount)
      ensures hub.maxUs == if dtUs > old(hub.maxUs) then dtUs else old(hub.maxUs)
    {
      var r := UpdateImpl(t, cur);
      ok := hub.UpdateOnce(Some(r), dtUs);
    }
  }
}
