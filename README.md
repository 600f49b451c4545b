# animSvg: attribute transitions for SVG elements

A Dafny model of the core of the AngularJS directive `animSvg`. The directive
animates the attributes of an SVG element. Each animated attribute is written
`anim-attr-<name>="<expression>"`. Whenever one of those expressions changes,
the directive appends one SMIL `<animate>` child per animated attribute. The
child runs from the attribute's current value to the new value, with a shared
duration, delay and easing spline.

The model has five modules:

- `Wrappers`: `Option` and `Result`.
- `AnimAttrs`: `collectAnimAttrs`. It scans `$attrs` (its enumerable
  properties in `for…in` order, with `hasOwnProperty`, and its `$attr` table of
  written names). The regular expression `/^animAttr.*$/` is modelled
  operationally, including JavaScript's rule that `.` does not match line
  terminators. `String.prototype.replace` with a string pattern removes only the
  first occurrence, wherever it is.
- `Timing`: the delay and easing defaults of `link`.
- `Scheduler`: the element as a class with an attribute map and a sequence of
  `<animate>` child nodes. `Animate` is `animate`. `OnBegin` and `BeginEvent`
  are `onBegin` and the `beginEvent` that triggers it. `OnEnd` is `onEnd`.
  Child nodes are objects, so `OnEnd` removes exactly the node that fired.
- `Directive`: `link` up to the watch, and two client runs of a transition's
  whole life cycle.

Behaviour of the code that the model keeps:

- `performance.now()` is read once per attribute, inside the loop. So
  `Animate` takes one clock reading per attribute (`clock[i]`), and child `i`
  begins at `clock[i] + delay`.
- A configured easing evaluates the undeclared identifier `animEasing`
  (animSvg.js:16). This throws a ReferenceError, so `link` fails.
  `ResolvePolicy` returns that failure. Only the default easing ever reaches a
  transition.
- The target value is committed when a child begins, not when it ends.
  `onEnd` never touches attributes. So a late end of a superseded child
  cannot change the element's visible state (`Directive.SupersededTransition`).
- The duration is not checked: whatever the expression evaluates to is used.
- The `anim-attr-` removal is not anchored. A written name
  `data-anim-attr-cx` gives the SVG name `data-cx`
  (`AnimAttrs.DomNameNotAnchored`).

## Model

| member | source | states |
|---|---|---|
| AnimAttrs.DotRun | animSvg.js:8 | the greedy `.*` stops exactly at the first line terminator or at the end of the input |
| AnimAttrs.MatchAnimAttrSpec | animSvg.js:31-34 | the pattern matches exactly the keys that start with `animAttr` and contain no line terminator; the match `match[0]` is then the whole key |
| AnimAttrs.IndexOf | animSvg.js:33 | the result is the first position at which the pattern occurs, and there is none when no position has it |
| AnimAttrs.RemoveFirstAt | animSvg.js:33 | `replace` cuts out exactly the first occurrence, the result is shorter by the pattern's length, and reinserting the pattern gives back the written name |
| AnimAttrs.RemoveFirstAbsent | animSvg.js:33 | a written name without `anim-attr-` is used unchanged |
| AnimAttrs.DomNameOfPrefixed | animSvg.js:9 | `anim-attr-<name>` gives the SVG attribute name `<name>` |
| AnimAttrs.DomNameNotAnchored | animSvg.js:33 | the removal is not anchored: `data-anim-attr-cx` gives `data-cx` |
| AnimAttrs.AnimKeysAppend | animSvg.js:29-38 | the collected keys keep the enumeration order: keys from earlier properties come first |
| AnimAttrs.AnimKeysMember | animSvg.js:29-38 | a key is collected exactly when it is an own property and the pattern accepts it; every other property is skipped |
| AnimAttrs.CollectAnimAttrs | animSvg.js:25-40 | one entry per collected key, in order, with `normalized` the key and `dom` the written name minus its first `anim-attr-`; a collected key without a written name throws, and it is the first such key |
| Timing.ResolvePolicy | animSvg.js:15-16 | the delay is 0 when the delay attribute is absent or empty and the evaluated delay otherwise; the easing is `0.1 0.8 0.2 1` when none is configured; a configured easing throws for the undeclared `animEasing` |
| Scheduler.ScheduledAt | animSvg.js:43-57 | child `i` animates `attrs[i].dom` from its current value to `values[i]`, begins at clock reading `i` plus the delay, lasts the duration, has type `XML`, calc mode `spline`, key times `0; 1` and the easing as key splines |
| Scheduler.ScheduledLength | animSvg.js:43 | one notification schedules exactly one child per collected attribute |
| Scheduler.WithoutAt | animSvg.js:65-67 | removing a child takes out that one child and keeps the others in order |
| Scheduler.WithoutAbsent | animSvg.js:65-67 | removing a node that is no longer a child changes nothing |
| Scheduler.Element.Animate | animSvg.js:42-59 | the attributes are unchanged; the old children stay; the new children are fresh, one per attribute, and their records are those of `ScheduledAt`, read against the attributes before the call |
| Scheduler.Element.OnBegin | animSvg.js:61-63 | only the named attribute changes, to the target value; the children are unchanged |
| Scheduler.Element.BeginEvent | animSvg.js:55 | when a child begins, its target value is committed to its attribute at once; nothing else changes |
| Scheduler.Element.OnEnd | animSvg.js:65-67 | only the child that fired is removed; the attributes are unchanged |
| Directive.Link | animSvg.js:12-16 | setup succeeds exactly when every collected key has a written name and no easing is configured; the collector's error comes first; on success the attributes are the collected ones and the policy is the resolved one |
| Directive.UnsetDelayBeginsAtClock | animSvg.js:50 | without a configured delay every child begins at its clock reading, with the default easing |
| Directive.SingleTransition | animSvg.js:42-67 | `x` at "10", duration 300, new value "50": one child from "10" to "50" beginning now; `x` is "50" as soon as it begins; after its end no child is left and `x` stays "50" |
| Directive.SupersededTransition | animSvg.js:42-67 | a second change that arrives after the first child began starts from the committed value, and the late end of the first child neither changes the attribute nor removes the second child |

## Left out

- AngularJS module and directive registration, and the directive definition object (animSvg.js:1-3, 69-72): framework plumbing.
- `$scope.$eval` (animSvg.js:14-16): a foreign evaluator. The duration and delay enter as already-evaluated integers, and evaluation errors are not modelled. A delay that evaluates to a string would be concatenated into `begin` as text; that is not modelled either.
- `$watchGroup` (animSvg.js:17-22): the subscription and its watch expressions (`$attrs[animAttr.normalized]`) are not modelled. One change notification is one call of `Animate` with as many values as attributes.
- DOM and SVG calls (`createElementNS`, jqLite `append`, `attr`, `on`, `remove`) and SMIL playback: foreign. The element's own children other than the appended `<animate>` nodes are not modelled. jqLite's special handling of boolean HTML attributes does not apply to SVG names and is left out. `BeginEvent` and `OnEnd` can be called in any order and any number of times.
- `performance.now()` returns a float: the model uses integer milliseconds, and `begin`/`dur` are integer fields instead of strings ending in `ms`.
- Scheduler.Element.Animate: requires every animated attribute to be present on the element and every value to be a string. jqLite's `attr(name, undefined)` acts as a getter, and the code's behaviour in that case is not part of this model.
- Timing.ResolvePolicy: a configured easing is modelled only as the ReferenceError it throws. What the author meant to evaluate there is not modelled.
- A property named `hasOwnProperty` on `$attrs`, which would shadow the method used at animSvg.js:30, is not modelled.
- The rendering surface refusing to animate an attribute happens inside SMIL playback. The code has no branch for it, so the model has none.
