# streamRotate carousel controller, modelled in Dafny

streamRotate is a jQuery plugin. It turns a container of elements into a
carousel that shows one item at a time. The carousel has left and right arrows,
one clickable dot per item, and an optional auto-advance timer. This project
models the plugin's controller: the per-container state that `init` attaches
to an element, and the operations that change it.

- `methods.init` guards against re-initialisation and empty selections. It
  consumes an instance id from the closure counter and merges the options over
  the defaults. On a set of several elements it re-enters the plugin once per
  element.
- `initView` makes the matched elements the items and renders one dot per item,
  with item 0 and dot 0 active. It then calls `initAutoRotate`, which starts
  the timer when a speed is set.
- `navigate` computes and stores the next position, then displays it.
- `display` clears every active item and dot, marks the one `.eq(pos)` selects,
  and calls `initAutoRotate`, which restarts the timer when a speed is set.
- The dot-click handler displays the clicked index.
- `initAutoRotate` replaces the repeating timer when a speed is set.
- `$.fn.streamRotate` dispatches its first argument to a method, to `init`, or
  to an error.

The files:

- `positions.dfy` holds the pure part:
  - the next-position expression;
  - walks of repeated navigation;
  - jQuery's `.eq` index rule;
  - the active flags `display` leaves behind.
- `commands.dfy` holds the arguments the plugin accepts, the settings `init`
  derives from them, and the dispatch rule.
- `timers.dfy` models the window's `setInterval`/`clearInterval` registry. A
  live timer is a handle mapped to the carousel its callback drives.
- `streamrotate.dfy` holds two classes:
  - `Carousel`, one container and its `data('streamrotate')` fields;
  - `Plugin`, the closure with its `count`, whose `Call` is the plugin entry
    point.
- `wrappers.dfy` holds `Option` and `Result`.

`Carousel.Valid` is the invariant every operation keeps:

- an initialised carousel has one item flag and one dot flag per matched element;
- its stored position is 0 or below the item count, and it may be negative;
- the live timers driving the carousel are exactly its stored handle, mapped
  to a timer for this carousel at its configured speed, so there is never more
  than one.

The model follows the code where it behaves differently from what a reader of
a carousel might expect:

- **Backward navigation does not wrap.** Stepping back from position 0 stores
  -1, and further steps go on decreasing.
  - jQuery's `.eq` counts a negative index from the end, so the last items are
    still shown.
  - After more backward steps than there are items, no item is active at all
    (`BackwardFromFirst`).
- **The position is not always in range.** One might expect
  `0 <= data.position < data.length` to hold. `navigate` does not keep it,
  because the test on line 81 of `src/streamrotate.js` checks only the upper
  bound.
- **Pre-existing active flags survive.** Items already carrying `active` when
  they are matched keep it, so "exactly one active item" holds only when none
  did (`FirstOnlyActive`).
- **Timer condition.** The timer is armed when the speed is truthy (non-zero),
  not only when it is positive.
- **Multi-element init.** It inspects only the first element's data. It stops
  at the first element that throws. The instance counter is shared by every
  container.
- **Return values.** A successful single-element `init` returns `undefined`. A
  set of several elements is returned as is.

## Model

| member | source | states |
|---|---|---|
| Positions.NextPosition | src/streamrotate.js:79-81 | the stored position is 0 or the old position plus the step; unless 0 it lies below the item count, and nothing bounds it from below |
| Positions.ForwardStaysInRange | src/streamrotate.js:81 | forward navigation from a position in [0, length) stays in [0, length) and equals (position + 1) mod length |
| Positions.ForwardWithoutItems | src/streamrotate.js:81 | with no items a forward step from 0 or -1 yields 0 |
| Positions.BackFromFirstIsMinusOne | src/streamrotate.js:79-81 | backward navigation from 0 stores -1 for every item count |
| Positions.ForwardCycle | src/streamrotate.js:77-85 | k forward navigations from 0 reach k mod length |
| Positions.FullForwardCycle | src/streamrotate.js:81 | within one round, forward navigation from 0 is back at 0 exactly after 0 or length steps |
| Positions.BackwardNeverWraps | src/streamrotate.js:81 | from a position at most length, k backward navigations store position - k: the lower bound is never checked |
| Positions.EqIndex | src/streamrotate.js:51-52 | `.eq(index)` selects an element exactly when -size <= index < size; the selected element is index itself or, for a negative index, index + size |
| Positions.ExactlyOneActive | src/streamrotate.js:50-52 | after `display(pos)` with 0 <= pos < size exactly one flag is set, the one at pos |
| Positions.NoneActiveOutside | src/streamrotate.js:50-52 | after `display(pos)` with a position `.eq` cannot select no flag is set |
| Positions.BackwardFromFirst | src/streamrotate.js:51-52 | after k backward steps from 0 the stored position is -k; for 1 <= k <= length the item shown is length - k, and beyond length none is |
| Positions.FirstOnlyActive | src/streamrotate.js:117-125 | when no matched item was active, init leaves item 0 as the only active item, the same flags the rendered dots have |
| Positions.NextIgnoresClickedDot | src/streamrotate.js:103-106 | since a dot click keeps the stored position, the next forward navigation shows a different item than the one after the clicked dot whenever the two indices differ |
| Commands.Extend | src/streamrotate.js:24-34 | a plain object's given keys override the defaults (speed 0, height 0, no selector); any other argument yields the defaults |
| Commands.FalsyIsEmptyObject | src/streamrotate.js:24 | a falsy options argument is replaced by an empty object, so it configures exactly as an empty object does |
| Commands.Dispatch | src/streamrotate.js:200-210 | the call fails exactly when the first argument is truthy, not a plain object and not the name `init`, and the error names it; the name `init` passes the second argument on, and otherwise the first argument itself is passed to `init` |
| Commands.OnlyObjectsConfigure | src/streamrotate.js:24-38 | the selector check passes exactly for a plain object with a non-empty selector |
| Commands.ReentryAgrees | src/streamrotate.js:18-21 | re-entering the plugin with the same options initialises with the same settings when they carry a selector; otherwise the re-entry fails too |
| Timers.Window.SetInterval | src/streamrotate.js:67-69 | a fresh handle, not live before, now maps to a timer for the given target and delay |
| Timers.Window.ClearInterval | src/streamrotate.js:65 | the handle is no longer live and nothing else changes |
| Timers.ReplaceOwn | src/streamrotate.js:63-69 | clearing an instance's only timer and starting a new one leaves it exactly one live timer, the new one |
| Timers.ReplaceKeepsOthers | src/streamrotate.js:63-69 | replacing one instance's timer leaves every other object's timers as they were |
| StreamRotate.Carousel.LiveTimer | src/streamrotate.js:62-69 | for a valid carousel the stored handle is live and drives this carousel at its configured speed, and no other live timer drives it |
| StreamRotate.Carousel.InitAutoRotate | src/streamrotate.js:59-71 | speed 0 changes nothing; otherwise the old handle (if any) is cleared and exactly one fresh timer for this instance at the configured delay is live and stored; other instances' timers are untouched and the invariant holds |
| StreamRotate.Carousel.Display | src/streamrotate.js:48-54 | the items and the dots are all inactive except the one `.eq(pos)` selects, and the timer is re-armed as `InitAutoRotate` states |
| StreamRotate.Carousel.Navigate | src/streamrotate.js:77-85 | the stored position becomes `NextPosition` of the old one and the item and dot at that position (as `.eq` selects it) are the only active ones; at most one live timer remains |
| StreamRotate.Carousel.DotClick | src/streamrotate.js:103-106 | item and dot `index` become the only active ones while the stored position is left unchanged |
| StreamRotate.Carousel.InitView | src/streamrotate.js:113-131 | stores the instance data: id, position 0, the settings, one item per matched element with item 0 active, one dot per item with only dot 0 active; a timer is live exactly when a speed is set, and it drives this instance at that speed |
| StreamRotate.Plugin.constructor | src/streamrotate.js:213 | the instance counter starts at 0 |
| StreamRotate.Plugin.Call | src/streamrotate.js:200-210 | a rejected argument throws "The method ... does not exist" and changes nothing; otherwise the effect is `init`'s |
| StreamRotate.Plugin.Init | src/streamrotate.js:13-23 | an empty set, or one whose first element is initialised, is returned unchanged; one element follows `InitOne`, several follow `InitEach` |
| StreamRotate.Plugin.InitOne | src/streamrotate.js:24-40 | the counter is incremented before the selector is checked; without a selector the call throws and the element is untouched, otherwise it is freshly initialised with the new id and `undefined` is returned |
| StreamRotate.Plugin.InitEach | src/streamrotate.js:18-22 | unusable options make the first element throw and nothing else changes; otherwise every element not yet initialised is, in order, with consecutive ids, and its live timers are exactly its stored handle at the configured speed; initialised ones keep their fields and their timers, and the set is returned |
| StreamRotate.Plugin.Reenter | src/streamrotate.js:19-21 | `$(this).streamRotate(opts)` on one element of the set throws exactly when dispatch rejects opts or the element is uninitialised and there is no selector; other elements do not change |
| StreamRotate.Plugin.EachRest | src/streamrotate.js:19-21 | the `each` loop after the first element: every element ends settled, the counter has grown by the number of elements that were not initialised, and the timers of objects outside the set are unchanged |
| StreamRotate.Plugin.Advance | src/streamrotate.js:19-21 | one later pass of the `each` loop settles element i with the next id and keeps the earlier ones settled |

## Left out

- Markup generation (`getHtml`, `setAttributes`, `is_a`), class names, the item wrapper, the arrows and `.height()`: these are presentation code over browser APIs. The model keeps only the active flags of items and dots.
- The unscoped `$('.streamrotate-dots-nav')` used when rendering the dots can append dots to other containers on the page. The model gives each container its own dots.
- Elements already carrying the `streamrotate-item` class but not matched by the selector are not modelled. The items are exactly the matched elements.
- Event binding (`bindEvents`, namespaced `unbind`/`on`, including the left arrow reusing the right arrow's namespace) is browser plumbing. Its handlers appear as the operations they call: `Navigate(false)`, `Navigate(true)` and `DotClick(index)`, where `index` is the clicked dot's position.
- When and how often a timer fires is left to the event loop. A live timer records only the carousel it drives (whose `Navigate(false)` its callback runs) and its delay.
- jQuery's `.eq` is not part of this model. Its index rule is stated as the assumed contract `EqIndex`.
- `$.error` is modelled as a `Throws` outcome that ends the call. When it happens inside the `each` loop, it ends the loop.
- Dispatch looks names up with `methods[x]`. A name inherited from `Object.prototype` (such as `toString`) would find a function there. The model recognises only `init`.
- StreamRotate.Plugin.InitOne: the selector is taken to be one jQuery's selector engine accepts. A malformed selector string (such as `"li["`) throws inside `initView` at the `$(settings.selector, T)` query, after `T.data('streamrotate', data)` has stored the instance data. The element is then left half-initialised: it is marked initialised but has no `data.length`, no dots, no timer and no handlers. Later calls on it return early, and an `each` loop over a set stops at it. The model has no such outcome.
- A selector that is not a string (a DOM element or a jQuery object) is not modelled. The selector is a string, and the `$(selector, T)` query is the container's `markup` function.
- A `null` or `undefined` speed is taken as 0, and a `null` selector as absent: these are the values the code's truthiness tests give them.
- StreamRotate.Plugin.Call: requires the targets to be distinct valid containers in the plugin's window. A set built by a selector never repeats an element, but one built from an array (`$([el, el])`) can. The model does not cover such a set. The source initialises the repeated element at its first occurrence and returns early at the others.
- Speeds and heights are taken to be integer numbers. The code accepts any value and only tests the speed for truthiness, so a string speed such as `"0"` would start a timer. Nothing in the model corresponds to that.
