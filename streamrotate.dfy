/**
 * The per-container state of the streamRotate carousel and the operations that
 * change it: `init` (with the state effects of `initView`), `navigate`,
 * `display`, the dot-click handler, `initAutoRotate`, and the plugin entry
 * point that dispatches to `init`.
 */
module StreamRotate {
  import opened Wrappers
  import opened Timers
  import opened Positions
  import opened Commands

  /** What a call to the plugin ends with: the jQuery set, `undefined`, or a thrown error. */
  datatype Outcome = ReturnsTargets | ReturnsUndefined | Throws(message: string)

  const NoSelector := "streamRotate: no selector specified"

  /** The values of a carousel's mutable fields. */
  datatype State = State(
    initialized: bool, instanceId: nat, position: int, length: nat, settings: Settings,
    rotateInterval: Option<nat>, items: seq<bool>, dots: seq<bool>)

  /**
   * The fields right after a successful `init` with instance id `id` and
   * settings `s` of a container whose markup is `markup`: position 0, the
   * matched elements as items with the first made active, one dot per item
   * with the first active, and a timer exactly when a speed is set.
   */
  ghost predicate IsFresh(st: State, markup: string -> seq<bool>, id: nat, s: Settings)
  {
    && st.initialized && st.instanceId == id && st.position == 0 && st.settings == s
    && SelectorOk(s)
    && st.length == |markup(s.selector.value)|
    && st.items == MarkFirst(markup(s.selector.value))
    && st.dots == Activate(st.length, Some(0))
    && (st.rotateInterval.Some? <==> s.autoRotateSpeed != 0)
  }

  /**
   * After `init` reached an element through the plugin: one that was
   * initialised before (with fields `before`) is as it was, any other is
   * fresh with id `id` and settings `s`.
   */
  ghost predicate SettledState(st: State, markup: string -> seq<bool>, wasInitialized: bool, before: State, id: nat, s: Settings)
  {
    if wasInitialized then st == before else IsFresh(st, markup, id, s)
  }

  /**
   * One container element the plugin may be applied to, with the data
   * `T.data('streamrotate')` holds once it is. `items` and `dots` are the
   * "active" class of each `.streamrotate-item` and `.streamrotate-dot` in the
   * container, in document order.
   */
  class Carousel {
    /** The browser window whose timers the instance uses. */
    const window: Window
    /**
     * The container's markup before initialisation: for a selector, whether
     * each element `$(selector, T)` matches already carries `active`.
     */
    const markup: string -> seq<bool>

    var initialized: bool
    var instanceId: nat
    var position: int
    var length: nat
    var settings: Settings
    var rotateInterval: Option<nat>
    var items: seq<bool>
    var dots: seq<bool>

    /**
     * One item and one dot per matched element; the stored position is 0 or
     * below the number of items (it may be negative); a timer is stored only
     * when a speed is set, and the live timers acting on this instance are
     * exactly the stored one.
     */
    ghost predicate Valid()
      reads this, window
    {
      && window.Valid()
      && (initialized ==> |items| == length && |dots| == length && (position == 0 || position < length))
      && (!initialized ==> items == [] && dots == [] && rotateInterval == None)
      && (rotateInterval.Some? ==> settings.autoRotateSpeed != 0)
      && Owned(window.timers, this) == Stored(rotateInterval, Timer(this, settings.autoRotateSpeed))
    }

    /** A container the plugin has not been applied to. */
    constructor (window: Window, markup: string -> seq<bool>)
      requires window.Valid()
      ensures Valid() && !initialized
      ensures this.window == window && this.markup == markup
    {
      this.window := window;
      this.markup := markup;
      initialized := false;
      instanceId := 0;
      position := 0;
      length := 0;
      settings := Defaults;
      rotateInterval := None;
      items := [];
      dots := [];
    }

    /**
     * The stored handle names a live timer that drives this instance at the
     * configured speed, and no other live timer drives it.
     */
    lemma LiveTimer()
      requires Valid()
      ensures rotateInterval.Some? ==>
        rotateInterval.value in window.timers && window.timers[rotateInterval.value] == Timer(this, settings.autoRotateSpeed)
      ensures forall h :: h in window.timers && window.timers[h].target == this ==> rotateInterval == Some(h)
    {
      if rotateInterval.Some? {
        assert rotateInterval.value in Stored(rotateInterval, Timer(this, settings.autoRotateSpeed));
      }
    }

    /** The current values of the mutable fields. */
    ghost function Snapshot(): State
      reads this
    {
      State(initialized, instanceId, position, length, settings, rotateInterval, items, dots)
    }

    /** The state right after a successful `init` with instance id `id` and settings `s`. */
    ghost predicate FreshlyInitialized(id: nat, s: Settings)
      reads this
    {
      IsFresh(Snapshot(), markup, id, s)
    }

    /**
     * What `initAutoRotate` did: with speed 0 nothing; otherwise the previous
     * timer (if any) is cleared and one new timer, for this instance and the
     * configured speed, is live and stored.
     */
    twostate predicate Rearmed()
      reads this, window
    {
      if settings.autoRotateSpeed == 0 then
        rotateInterval == old(rotateInterval) && window.timers == old(window.timers)
      else
        && rotateInterval.Some?
        && rotateInterval.value !in old(window.timers)
        && window.timers == (old(window.timers) - HandleSet(old(rotateInterval)))[rotateInterval.value := Timer(this, settings.autoRotateSpeed)]
    }

    /** `app.c.initAutoRotate`. */
    method InitAutoRotate()
      requires Valid() && initialized
      modifies this`rotateInterval, window
      ensures Valid() && Rearmed()
      ensures forall d: object :: d != this ==> Owned(window.timers, d) == Owned(old(window.timers), d)
    {
      if settings.autoRotateSpeed != 0 {
        if rotateInterval != None {
          window.ClearInterval(rotateInterval.value);
        }
        var h := window.SetInterval(this, settings.autoRotateSpeed);
        rotateInterval := Some(h);
        ReplaceOwn(old(window.timers), this, old(rotateInterval), Timer(this, settings.autoRotateSpeed), h, Timer(this, settings.autoRotateSpeed));
        forall d: object | d != this
          ensures Owned(window.timers, d) == Owned(old(window.timers), d)
        {
          ReplaceKeepsOthers(old(window.timers), this, old(rotateInterval), h, Timer(this, settings.autoRotateSpeed), d);
        }
      }
    }

    /**
     * `app.v.display(pos)`: every active item and dot is cleared, the ones
     * jQuery's `.eq(pos)` selects are set, and the auto-rotate timer restarts.
     */
    method Display(pos: int)
      requires Valid() && initialized
      modifies this`items, this`dots, this`rotateInterval, window
      ensures Valid() && Rearmed()
      ensures items == Activate(length, EqIndex(pos, length))
      ensures dots == Activate(length, EqIndex(pos, length))
      ensures forall d: object :: d != this ==> Owned(window.timers, d) == Owned(old(window.timers), d)
    {
      items := seq(|items|, i => false);
      dots := seq(|dots|, i => false);
      var k := EqIndex(pos, |items|);
      if k.Some? {
        items := items[k.value := true];
      }
      k := EqIndex(pos, |dots|);
      if k.Some? {
        dots := dots[k.value := true];
      }
      InitAutoRotate();
    }

    /**
     * `app.c.navigate(backwards)`: store the next position (only an overflow
     * past the last item wraps) and display it.
     */
    method Navigate(backwards: bool)
      requires Valid() && initialized
      modifies this`position, this`items, this`dots, this`rotateInterval, window
      ensures Valid() && Rearmed()
      ensures position == NextPosition(old(position), length, backwards)
      ensures items == Activate(length, EqIndex(position, length))
      ensures dots == Activate(length, EqIndex(position, length))
      ensures forall d: object :: d != this ==> Owned(window.timers, d) == Owned(old(window.timers), d)
    {
      var direction := if backwards then -1 else 1;
      var pos := if position + direction > length - 1 then 0 else position + direction;
      position := pos;
      Display(pos);
    }

    /**
     * The click handler of dot `index`: display that index. The stored
     * position is not written, so the next navigation starts from it.
     */
    method DotClick(index: nat)
      requires Valid() && initialized && index < |dots|
      modifies this`items, this`dots, this`rotateInterval, window
      ensures Valid() && Rearmed()
      ensures position == old(position)
      ensures forall i :: 0 <= i < length ==> (items[i] <==> i == index) && (dots[i] <==> i == index)
      ensures forall d: object :: d != this ==> Owned(window.timers, d) == Owned(old(window.timers), d)
    {
      Display(index);
    }

    /**
     * `T.data('streamrotate', data)` followed by the state effects of
     * `app.v.initView`: the matched elements become the items with the first
     * one made active, one dot per item with the first active, and the
     * auto-rotate timer starts if a speed is set.
     */
    method InitView(id: nat, s: Settings)
      requires Valid() && !initialized && SelectorOk(s)
      modifies this, window
      ensures Valid() && FreshlyInitialized(id, s) && Rearmed()
      ensures forall d: object :: d != this ==> Owned(window.timers, d) == Owned(old(window.timers), d)
    {
      initialized, instanceId, position, rotateInterval, settings := true, id, 0, None, s;
      var matched := markup(s.selector.value);
      length := |matched|;
      items := matched;
      if |items| > 0 {
        items := items[0 := true];
      }
      var rendered := [];
      for i := 0 to length
        invariant rendered == Activate(i, Some(0))
      {
        rendered := rendered + [i == 0];
      }
      dots := rendered;
      InitAutoRotate();
    }
  }

  /** The `initialized` flag of each target, in order. */
  ghost function Flags(targets: seq<Carousel>): (flags: seq<bool>)
    reads set t | t in targets
    ensures |flags| == |targets|
    ensures forall j :: 0 <= j < |targets| ==> flags[j] == targets[j].initialized
  {
    seq(|targets|, j reads set t | t in targets requires 0 <= j < |targets| => targets[j].initialized)
  }

  /** The fields of each target, in order. */
  ghost function Snapshots(targets: seq<Carousel>): (states: seq<State>)
    reads set t | t in targets
    ensures |states| == |targets|
    ensures forall j :: 0 <= j < |targets| ==> states[j] == targets[j].Snapshot()
  {
    seq(|targets|, j reads set t | t in targets requires 0 <= j < |targets| => targets[j].Snapshot())
  }

  /** How many flags are unset. */
  function Uninitialized(flags: seq<bool>): nat
  {
    if flags == [] then 0 else Uninitialized(flags[..|flags| - 1]) + (if flags[|flags| - 1] then 0 else 1)
  }

  /** No element occurs twice. */
  predicate Distinct(targets: seq<Carousel>)
  {
    forall j, k :: 0 <= j < k < |targets| ==> targets[j] != targets[k]
  }

  /**
   * Target `j` is settled after `init` went through the set in order starting
   * from instance counter `base`: it gets id `base` plus the number of
   * uninitialised targets up to and including it.
   */
  ghost predicate SettledAt(targets: seq<Carousel>, j: nat, flags: seq<bool>, before: seq<State>, base: nat, s: Settings)
    reads if j < |targets| then {targets[j]} else {}
  {
    && j < |targets| && j < |flags| && j < |before|
    && SettledState(targets[j].Snapshot(), targets[j].markup, flags[j], before[j], base + Uninitialized(flags[..j]) + 1, s)
  }

  /** `SettledAt` on recorded field values `states` instead of the targets' current fields. */
  ghost predicate SettledValueAt(targets: seq<Carousel>, states: seq<State>, j: nat, flags: seq<bool>, before: seq<State>, base: nat, s: Settings)
  {
    && j < |targets| && j < |states| && j < |flags| && j < |before|
    && SettledState(states[j], targets[j].markup, flags[j], before[j], base + Uninitialized(flags[..j]) + 1, s)
  }

  /**
   * Recording the settled state of element `i` in `cur`, where `prev` agreed
   * with `cur` elsewhere and held settled states below `i`, gives settled
   * states up to and including `i`.
   */
  lemma SettledStep(targets: seq<Carousel>, prev: seq<State>, cur: seq<State>, i: nat, flags: seq<bool>, before: seq<State>, base: nat, s: Settings)
    requires i < |targets| == |prev| == |cur| == |flags| == |before|
    requires forall j: nat :: j < i ==> SettledValueAt(targets, prev, j, flags, before, base, s)
    requires forall j :: 0 <= j < |cur| && j != i ==> cur[j] == prev[j]
    requires SettledState(cur[i], targets[i].markup, flags[i], before[i], base + Uninitialized(flags[..i]) + 1, s)
    ensures forall j: nat :: j <= i ==> SettledValueAt(targets, cur, j, flags, before, base, s)
  {
    forall j: nat | j <= i
      ensures SettledValueAt(targets, cur, j, flags, before, base, s)
    {
      if j < i {
        assert SettledValueAt(targets, prev, j, flags, before, base, s);
      }
    }
  }

  /** Settled recorded states of targets whose current fields are those states are settled targets. */
  lemma SettledFromValues(targets: seq<Carousel>, cur: seq<State>, flags: seq<bool>, before: seq<State>, base: nat, s: Settings)
    requires |cur| == |targets| == |flags| == |before|
    requires forall j :: 0 <= j < |targets| ==> targets[j].Snapshot() == cur[j]
    requires forall j: nat :: j < |targets| ==> SettledValueAt(targets, cur, j, flags, before, base, s)
    ensures forall j: nat :: j < |targets| ==> SettledAt(targets, j, flags, before, base, s)
  {
    forall j: nat | j < |targets|
      ensures SettledAt(targets, j, flags, before, base, s)
    {
      assert SettledValueAt(targets, cur, j, flags, before, base, s);
    }
  }

  /** Extending the flags by one adds one exactly when the new flag is unset. */
  lemma UninitializedStep(flags: seq<bool>, i: nat)
    requires i < |flags|
    ensures Uninitialized(flags[..i + 1]) == Uninitialized(flags[..i]) + (if flags[i] then 0 else 1)
  {
    assert flags[..i + 1][..i] == flags[..i];
  }

  /**
   * The plugin's closure: the window it runs in and the instance counter
   * `count`, which starts at 0.
   */
  class Plugin {
    const window: Window
    var count: nat

    constructor (window: Window)
      ensures this.window == window && count == 0
    {
      this.window := window;
      count := 0;
    }

    /**
     * Targets form a jQuery set (no element twice) of valid containers in this
     * plugin's window.
     */
    ghost predicate Ready(targets: seq<Carousel>)
      reads window, set t | t in targets, set t | t in targets :: t.window
    {
      && window.Valid()
      && (forall j :: 0 <= j < |targets| ==> targets[j].window == window && targets[j].Valid())
      && Distinct(targets)
    }

    /** No target's fields changed. */
    twostate predicate Untouched(targets: seq<Carousel>)
      reads set t | t in targets
    {
      forall j :: 0 <= j < |targets| ==> targets[j].Snapshot() == old(targets[j].Snapshot())
    }

    /**
     * `init` on a single element not yet initialised: an instance id is
     * consumed before the selector is checked; then either the call throws and
     * nothing else changes, or the element is initialised with that id and
     * `init` returns `undefined`.
     */
    twostate predicate SingleSpec(t: Carousel, opts: Arg, r: Outcome)
      reads this, t, t.window
    {
      && count == old(count) + 1
      && if !SelectorOk(Extend(opts)) then
           r == Throws(NoSelector) && unchanged(t.window) && t.Snapshot() == old(t.Snapshot())
         else
           r == ReturnsUndefined && t.FreshlyInitialized(old(count) + 1, Extend(opts)) && t.Rearmed()
    }

    /**
     * `init` on several elements whose first is not initialised: each element
     * re-enters the plugin with `opts`. If the options are unusable the first
     * element throws (having consumed an id unless dispatch itself failed);
     * otherwise every element not yet initialised is, in order, with
     * consecutive ids, and the others are left alone.
     */
    twostate predicate EachSpec(targets: seq<Carousel>, opts: Arg, r: Outcome)
      reads this, window, set t | t in targets
    {
      match Dispatch([opts])
      case Err(m) =>
        r == Throws(m) && count == old(count) && unchanged(window) && Untouched(targets)
      case Ok(cmd) =>
        if !SelectorOk(Extend(cmd.opts)) then
          r == Throws(NoSelector) && count == old(count) + 1 && unchanged(window) && Untouched(targets)
        else
          && r == ReturnsTargets
          && count == old(count) + Uninitialized(old(Flags(targets)))
          && (forall j: nat :: j < |targets| ==>
                SettledAt(targets, j, old(Flags(targets)), old(Snapshots(targets)), old(count), Extend(cmd.opts)))
          && (forall j :: 0 <= j < |targets| ==>
                Owned(window.timers, targets[j]) ==
                  if old(targets[j].initialized) then Owned(old(window.timers), targets[j])
                  else Stored(targets[j].rotateInterval, Timer(targets[j], Extend(cmd.opts).autoRotateSpeed)))
    }

    /**
     * The effect of `methods.init` with options argument `opts` on `targets`:
     * an empty set, or one whose first element is already initialised, is
     * returned unchanged; otherwise a single element follows `SingleSpec` and
     * several follow `EachSpec`.
     */
    twostate predicate InitSpec(targets: seq<Carousel>, opts: Arg, r: Outcome)
      reads this, window, set t | t in targets, set t | t in targets :: t.window
    {
      if |targets| == 0 || old(targets[0].initialized) then
        r == ReturnsTargets && count == old(count) && unchanged(window) && Untouched(targets)
      else if |targets| == 1 then
        SingleSpec(targets[0], opts, r)
      else
        EachSpec(targets, opts, r)
    }

    /** `$.fn.streamRotate(args...)` on the jQuery set `targets`. */
    method Call(targets: seq<Carousel>, args: seq<Arg>) returns (r: Outcome)
      requires Ready(targets)
      modifies this, window, set t | t in targets
      decreases |targets|, 2
      ensures Ready(targets)
      ensures forall d: object :: d !in targets ==> Owned(window.timers, d) == Owned(old(window.timers), d)
      ensures Dispatch(args).Err? ==>
        r == Throws(Dispatch(args).error) && count == old(count) && unchanged(window) && Untouched(targets)
      ensures Dispatch(args).Ok? ==> InitSpec(targets, Dispatch(args).value.opts, r)
    {
      match Dispatch(args)
      case Err(m) =>
        r := Throws(m);
      case Ok(cmd) =>
        r := Init(targets, cmd.opts);
    }

    /** `methods.init(opts)` on the jQuery set `targets`. */
    method Init(targets: seq<Carousel>, opts: Arg) returns (r: Outcome)
      requires Ready(targets)
      modifies this, window, set t | t in targets
      decreases |targets|, 1
      ensures Ready(targets)
      ensures forall d: object :: d !in targets ==> Owned(window.timers, d) == Owned(old(window.timers), d)
      ensures InitSpec(targets, opts, r)
    {
      if |targets| == 0 || targets[0].initialized {
        r := ReturnsTargets;
      } else if |targets| == 1 {
        r := InitOne(targets[0], opts);
      } else {
        r := InitEach(targets, opts);
      }
    }

    /** `methods.init(opts)` on one element that is not initialised. */
    method InitOne(t: Carousel, opts: Arg) returns (r: Outcome)
      requires t.window == window && t.Valid() && !t.initialized
      modifies this, window, t
      ensures t.Valid()
      ensures forall d: object :: d != t ==> Owned(window.timers, d) == Owned(old(window.timers), d)
      ensures SingleSpec(t, opts, r)
    {
      count := count + 1;
      var s := Extend(opts);
      if !SelectorOk(s) {
        return Throws(NoSelector);
      }
      t.InitView(count, s);
      return ReturnsUndefined;
    }

    /** The settings a re-entry `streamRotate(opts)` initialises with, when dispatch selects `init`. */
    static function ReentrySettings(opts: Arg): Settings
    {
      if Dispatch([opts]).Ok? then Extend(Dispatch([opts]).value.opts) else Defaults
    }

    /**
     * `$(this).streamRotate(opts)` for element `i` of a larger set: it throws
     * when dispatch rejects `opts`, or when the element is not initialised and
     * the options carry no selector; otherwise the element is settled with the
     * next id. The other elements do not change and stay valid.
     */
    method Reenter(targets: seq<Carousel>, i: nat, opts: Arg) returns (r: Outcome)
      requires Ready(targets) && i < |targets|
      modifies this, window, targets[i]
      decreases 1, 3
      ensures Ready(targets)
      ensures forall j :: 0 <= j < |targets| && j != i ==> targets[j].Snapshot() == old(targets[j].Snapshot())
      ensures forall d: object :: d != targets[i] ==> Owned(window.timers, d) == Owned(old(window.timers), d)
      ensures r.Throws? <==> Dispatch([opts]).Err? || (!old(targets[i].initialized) && !SelectorOk(ReentrySettings(opts)))
      ensures r.Throws? ==>
        && unchanged(window) && targets[i].Snapshot() == old(targets[i].Snapshot())
        && r == (if Dispatch([opts]).Err? then Throws(Dispatch([opts]).error) else Throws(NoSelector))
        && count == old(count) + (if Dispatch([opts]).Err? then 0 else 1)
      ensures !r.Throws? ==>
        && count == old(count) + (if old(targets[i].initialized) then 0 else 1)
        && SettledState(targets[i].Snapshot(), targets[i].markup, old(targets[i].initialized), old(targets[i].Snapshot()),
             old(count) + 1, ReentrySettings(opts))
    {
      r := Call([targets[i]], [opts]);
      forall j | 0 <= j < |targets| && j != i
        ensures targets[j].Snapshot() == old(targets[j].Snapshot())
      {
        assert targets[j] != targets[i];
      }
    }

    /**
     * One later step of the `each` loop: element `i` is re-entered and
     * settled, and the elements before it stay settled.
     */
    method Advance(targets: seq<Carousel>, i: nat, opts: Arg, ghost flags: seq<bool>, ghost before: seq<State>,
                   ghost cur: seq<State>, ghost base: nat, ghost timers0: map<nat, Timer>, ghost settings: Settings)
      returns (ghost next: seq<State>)
      requires 1 <= i < |targets| == |cur| == |flags| == |before|
      requires Ready(targets)
      requires Dispatch([opts]).Ok? && settings == ReentrySettings(opts) && SelectorOk(settings)
      requires flags[i] == before[i].initialized
      requires count == base + Uninitialized(flags[..i])
      requires forall j :: 0 <= j < |targets| ==> targets[j].Snapshot() == cur[j]
      requires forall j :: i <= j < |targets| ==> cur[j] == before[j]
      requires forall j: nat :: j < i ==> SettledValueAt(targets, cur, j, flags, before, base, settings)
      requires forall d: object :: d !in targets ==> Owned(window.timers, d) == Owned(timers0, d)
      modifies this, window, targets[i]
      decreases 1, 4
      ensures Ready(targets)
      ensures count == base + Uninitialized(flags[..i + 1])
      ensures |next| == |targets|
      ensures forall j :: 0 <= j < |targets| ==> targets[j].Snapshot() == next[j]
      ensures forall j :: i + 1 <= j < |targets| ==> next[j] == before[j]
      ensures forall j: nat :: j < i + 1 ==> SettledValueAt(targets, next, j, flags, before, base, settings)
      ensures forall d: object :: d !in targets ==> Owned(window.timers, d) == Owned(timers0, d)
    {
      var r := Reenter(targets, i, opts);
      UninitializedStep(flags, i);
      next := cur[i := targets[i].Snapshot()];
      SettledStep(targets, cur, next, i, flags, before, base, settings);
    }

    /**
     * The `each` loop after its first element was initialised: every later
     * element is re-entered in turn, and at the end every element is settled.
     */
    method EachRest(targets: seq<Carousel>, opts: Arg, ghost flags: seq<bool>, ghost before: seq<State>,
                    ghost cur0: seq<State>, ghost base: nat, ghost timers0: map<nat, Timer>, ghost settings: Settings)
      requires 1 < |targets| == |cur0| == |flags| == |before|
      requires Ready(targets)
      requires Dispatch([opts]).Ok? && settings == ReentrySettings(opts) && SelectorOk(settings)
      requires forall j :: 0 <= j < |targets| ==> flags[j] == before[j].initialized
      requires count == base + Uninitialized(flags[..1])
      requires forall j :: 0 <= j < |targets| ==> targets[j].Snapshot() == cur0[j]
      requires forall j :: 1 <= j < |targets| ==> cur0[j] == before[j]
      requires forall j: nat :: j < 1 ==> SettledValueAt(targets, cur0, j, flags, before, base, settings)
      requires forall d: object :: d !in targets ==> Owned(window.timers, d) == Owned(timers0, d)
      modifies this, window, set t | t in targets
      decreases 1, 5
      ensures Ready(targets)
      ensures count == base + Uninitialized(flags)
      ensures forall j: nat :: j < |targets| ==> SettledAt(targets, j, flags, before, base, settings)
      ensures forall d: object :: d !in targets ==> Owned(window.timers, d) == Owned(timers0, d)
    {
      ghost var cur := cur0;
      var i := 1;
      while i < |targets|
        invariant 1 <= i <= |targets|
        invariant Ready(targets)
        invariant count == base + Uninitialized(flags[..i])
        invariant |cur| == |targets|
        invariant forall j :: 0 <= j < |targets| ==> targets[j].Snapshot() == cur[j]
        invariant forall j :: i <= j < |targets| ==> cur[j] == before[j]
        invariant forall j: nat :: j < i ==> SettledValueAt(targets, cur, j, flags, before, base, settings)
        invariant forall d: object :: d !in targets ==> Owned(window.timers, d) == Owned(timers0, d)
      {
        cur := Advance(targets, i, opts, flags, before, cur, base, timers0, settings);
        i := i + 1;
      }
      SettledFromValues(targets, cur, flags, before, base, settings);
      assert flags[..i] == flags;
    }

    /** `T.each(function () { return $(this).streamRotate(opts); })`, stopped by the first throw. */
    method InitEach(targets: seq<Carousel>, opts: Arg) returns (r: Outcome)
      requires Ready(targets) && |targets| > 1 && !targets[0].initialized
      modifies this, window, set t | t in targets
      decreases |targets|, 0
      ensures Ready(targets)
      ensures forall d: object :: d !in targets ==> Owned(window.timers, d) == Owned(old(window.timers), d)
      ensures EachSpec(targets, opts, r)
    {
      ghost var flags := Flags(targets);
      ghost var before := Snapshots(targets);
      ghost var settings := ReentrySettings(opts);
      // Only the first element can throw: once it is initialised, the
      // options are known to select `init` and to carry a selector.
      r := Reenter(targets, 0, opts);
      if r.Throws? {
        return;
      }
      UninitializedStep(flags, 0);
      ghost var cur := before[0 := targets[0].Snapshot()];
      SettledStep(targets, before, cur, 0, flags, before, old(count), settings);
      EachRest(targets, opts, flags, before, cur, old(count), old(window.timers), settings);
      forall j | 0 <= j < |targets|
        ensures Owned(window.timers, targets[j]) ==
          if flags[j] then Owned(old(window.timers), targets[j])
          else Stored(targets[j].rotateInterval, Timer(targets[j], settings.autoRotateSpeed))
      {
        assert SettledAt(targets, j, flags, before, old(count), settings);
        assert old(targets[j].Valid());
      }
      return ReturnsTargets;
    }
  }
}
