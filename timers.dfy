/**
 * The browser's repeating-timer registry, `window.setInterval` and
 * `window.clearInterval`, as far as the carousel relies on it: a live timer is a
 * handle mapped to the object its callback acts on and its delay. When and how
 * often a timer fires is left to the event loop and is not modelled.
 */
module Timers {
  import opened Wrappers

  /** A live repeating timer: the object whose `navigate` the callback calls, and its delay in ms. */
  datatype Timer = Timer(target: object, delay: int)

  /** The stored handle as a set: empty when none is stored. */
  function HandleSet(handle: Option<nat>): (hs: set<nat>)
    ensures |hs| <= 1
    ensures forall h :: h in hs <==> handle == Some(h)
  {
    if handle.Some? then {handle.value} else {}
  }

  /** The live timers whose callback acts on `c`, by handle. */
  function Owned(timers: map<nat, Timer>, c: object): (owned: map<nat, Timer>)
    ensures forall h :: h in owned <==> h in timers && timers[h].target == c
    ensures forall h :: h in owned ==> owned[h] == timers[h]
  {
    map h | h in timers && timers[h].target == c :: timers[h]
  }

  /** The timers a stored handle stands for: `t` under the handle, or none. */
  function Stored(handle: Option<nat>, t: Timer): (m: map<nat, Timer>)
    ensures |m| <= 1
    ensures forall h :: h in m <==> handle == Some(h)
    ensures forall h :: h in m ==> m[h] == t
  {
    if handle.Some? then map[handle.value := t] else map[]
  }

  /**
   * Removing a handle of `c`'s and adding a fresh handle for `c` leaves the
   * timers of every other object as they were.
   */
  lemma ReplaceKeepsOthers(timers: map<nat, Timer>, c: object, gone: Option<nat>, h: nat, t: Timer, d: object)
    requires gone.Some? ==> gone.value in timers && timers[gone.value].target == c
    requires h !in timers && t.target == c && d != c
    ensures Owned((timers - HandleSet(gone))[h := t], d) == Owned(timers, d)
  {
  }

  /**
   * Clearing `c`'s only live timer and adding a fresh one for `c` leaves `c`
   * exactly one live timer, the fresh one.
   */
  lemma ReplaceOwn(timers: map<nat, Timer>, c: object, gone: Option<nat>, t0: Timer, h: nat, t: Timer)
    requires Owned(timers, c) == Stored(gone, t0)
    requires h !in timers && t.target == c
    ensures Owned((timers - HandleSet(gone))[h := t], c) == map[h := t]
  {
  }

  class Window {
    var timers: map<nat, Timer>
    var nextHandle: nat

    /** Every live handle was handed out before `nextHandle`. */
    ghost predicate Valid()
      reads this
    {
      forall h :: h in timers ==> h < nextHandle
    }

    constructor ()
      ensures Valid() && timers == map[]
    {
      timers := map[];
      nextHandle := 1;
    }

    /** `window.setInterval(callback on target, delay)`: a new handle, not live before. */
    method SetInterval(target: object, delay: int) returns (h: nat)
      requires Valid()
      modifies this
      ensures Valid()
      ensures h == old(nextHandle) && nextHandle == h + 1
      ensures h !in old(timers) && timers == old(timers)[h := Timer(target, delay)]
    {
      h := nextHandle;
      timers := timers[h := Timer(target, delay)];
      nextHandle := nextHandle + 1;
    }

    /** `window.clearInterval(h)`: the timer stops; a handle that is not live is ignored. */
    method ClearInterval(h: nat)
      requires Valid()
      modifies this
      ensures Valid()
      ensures timers == old(timers) - {h} && nextHandle == old(nextHandle)
    {
      timers := timers - {h};
    }
  }
}
