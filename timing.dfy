/**
 * The timing policy that `link` resolves once per element: the duration,
 * the delay (0 when not configured) and the easing spline (a built-in
 * default when not configured).
 */
module Timing {
  import opened Wrappers

  /** The `keySplines` used when no easing is configured. */
  const DefaultEasing: string := "0.1 0.8 0.2 1"

  /**
   * What `link` reads: `durationMs` and `delayMs` are the values that the
   * scope's expression evaluator gives for the `anim-duration` and
   * `anim-delay` expressions; `delayAttr` and `easingAttr` are the raw
   * attribute strings, absent when the attribute is not written.
   */
  datatype TimingConfig = TimingConfig(
    durationMs: int,
    delayAttr: Option<string>,
    delayMs: int,
    easingAttr: Option<string>)

  /** The resolved duration, delay and easing that every transition of the element uses. */
  datatype TimingPolicy = TimingPolicy(durationMs: int, delayMs: int, easing: string)

  /** Evaluating an identifier that no scope declares throws a ReferenceError. */
  datatype TimingError = UndeclaredIdentifier(name: string)

  /** JavaScript truthiness of an attribute value: present and not the empty string. */
  predicate Truthy(attr: Option<string>) {
    attr.Some? && attr.value != ""
  }

  /**
   * The `delay` and `easing` initialisers of `link`. A configured easing
   * evaluates the identifier `animEasing`, which is declared nowhere, so it
   * throws instead of giving an easing.
   */
  function ResolvePolicy(c: TimingConfig): (r: Result<TimingPolicy, TimingError>)
    ensures r.Success? <==> !Truthy(c.easingAttr)
    ensures r.Failure? ==> r.error == UndeclaredIdentifier("animEasing")
    ensures r.Success? ==> r.value.durationMs == c.durationMs && r.value.easing == DefaultEasing
    ensures r.Success? && !Truthy(c.delayAttr) ==> r.value.delayMs == 0
    ensures r.Success? && Truthy(c.delayAttr) ==> r.value.delayMs == c.delayMs
  {
    var delay := if Truthy(c.delayAttr) then c.delayMs else 0;
    if Truthy(c.easingAttr) then Failure(UndeclaredIdentifier("animEasing"))
    else Success(TimingPolicy(c.durationMs, delay, DefaultEasing))
  }
}
