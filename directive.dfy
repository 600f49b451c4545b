/**
 * The `link` function of the `animSvg` directive, which puts the collector
 * and the timing policy together, and two runs of the whole life cycle of a
 * transition: collect, animate, begin, end.
 */
module Directive {
  import opened Wrappers
  import opened AnimAttrs
  import opened Timing
  import opened Scheduler

  /** Why `link` throws: the collector's TypeError or the easing's ReferenceError. */
  datatype SetupError = CollectFailed(collect: CollectError) | TimingFailed(timing: TimingError)

  /** What `link` keeps for the element's change notifications. */
  datatype Setup = Setup(animAttrs: seq<AnimAttr>, policy: TimingPolicy)

  /**
   * `link($scope, $element, $attrs)` up to the watch: the collection runs
   * first, so its error wins; then the timing policy is resolved.
   */
  method Link(attrs: Attributes, timing: TimingConfig) returns (r: Result<Setup, SetupError>)
    ensures var named := forall k :: k in AnimKeys(attrs.props) ==> k in attrs.writtenNames;
      && (r.Success? <==> named && !Truthy(timing.easingAttr))
      && (r.Failure? ==> (r.error.CollectFailed? <==> !named))
    ensures var ks := AnimKeys(attrs.props);
      r.Success? ==> (
        && r.value.policy == ResolvePolicy(timing).value
        && |r.value.animAttrs| == |ks|
        && forall i :: 0 <= i < |ks| ==>
             ks[i] in attrs.writtenNames &&
             r.value.animAttrs[i] == AnimAttr(DomName(attrs.writtenNames[ks[i]]), ks[i]))
  {
    var collected := CollectAnimAttrs(attrs);
    if collected.Failure? {
      return Failure(CollectFailed(collected.error));
    }
    var policy := ResolvePolicy(timing);
    if policy.Failure? {
      return Failure(TimingFailed(policy.error));
    }
    return Success(Setup(collected.value, policy.value));
  }

  /** Without a configured delay, every child begins at the clock reading of its round, with the default easing. */
  lemma UnsetDelayBeginsAtClock(timing: TimingConfig, current: map<string, string>, animAttrs: seq<AnimAttr>,
                                values: seq<string>, clock: seq<int>, i: nat)
    requires ResolvePolicy(timing).Success? && !Truthy(timing.delayAttr)
    requires |values| == |animAttrs| && |clock| == |animAttrs|
    requires AllPresent(current, animAttrs)
    requires i < |animAttrs|
    ensures var rs := Scheduled(current, animAttrs, values, clock, ResolvePolicy(timing).value, |animAttrs|);
      |rs| == |animAttrs| && rs[i].beginMs == clock[i] && rs[i].keySplines == DefaultEasing
  {
    ScheduledAt(current, animAttrs, values, clock, ResolvePolicy(timing).value, |animAttrs|, i);
  }

  /** The `$attrs` of `<g anim-svg anim-attr-x="..." anim-duration="300">`, with an inherited property and `$attr` itself. */
  function SampleAttributes(): Attributes {
    Attributes(
      [Property("animAttrX", true), Property("animDuration", true), Property("$attr", true), Property("animAttrInherited", false)],
      map["animAttrX" := "anim-attr-x", "animDuration" := "anim-duration"])
  }

  /**
   * Duration 300, no delay, `x` currently "10", the notification brings "50":
   * one child from "10" to "50" beginning at `now`; at its begin `x` is
   * already "50"; at its end the child is gone and `x` stays "50".
   */
  method SingleTransition(now: int) returns (record: AnimateRecord, afterBegin: string, afterEnd: string, childCount: nat)
    ensures record == AnimateRecord("x", "XML", "10", "50", now, 300, "spline", "0; 1", DefaultEasing)
    ensures afterBegin == "50" && afterEnd == "50"
    ensures childCount == 0
  {
    var props := SampleAttributes().props;
    assert props[..1] == [props[0]] && props[..2] == props[..1] + [props[1]];
    assert props[..3] == props[..2] + [props[2]] && props[..4] == props[..3] + [props[3]] && props[..4] == props;
    assert MatchAnimAttr("animDuration").None? by {
      assert "animDuration"[..8][4] != AnimAttrPrefix[4];
    }
    assert MatchAnimAttr("$attr").None?;
    assert MatchAnimAttr("animAttrX") == Some("animAttrX") by {
      var key := "animAttrX";
      forall k | 0 <= k < |key| ensures !IsLineTerminator(key[k]) { }
      assert key[..8] == AnimAttrPrefix;
      MatchAnimAttrSpec(key);
    }
    assert AnimKeys(props[..1]) == ["animAttrX"] by { assert props[..1][..0] == []; }
    assert AnimKeys(props[..2]) == ["animAttrX"] by { assert props[..2][..1] == props[..1]; }
    assert AnimKeys(props[..3]) == ["animAttrX"] by { assert props[..3][..2] == props[..2]; }
    assert AnimKeys(props) == ["animAttrX"] by { assert props[..3] == props[..|props| - 1]; }
    DomNameOfPrefixed("x");
    var setup := Link(SampleAttributes(), TimingConfig(300, None, 0, None));
    if setup.Failure? {
      assert false;
      return;
    }
    var el := new Element(map["x" := "10"]);
    var animAttrs := setup.value.animAttrs;
    assert animAttrs == [AnimAttr("x", "animAttrX")];
    el.Animate(animAttrs, ["50"], [now], setup.value.policy);
    ScheduledAt(map["x" := "10"], animAttrs, ["50"], [now], setup.value.policy, 1, 0);
    var node := el.children[0];
    assert Records(el.children)[0] == node.record;
    record := node.record;
    el.BeginEvent(node);
    afterBegin := el.attrs["x"];
    el.OnEnd(node);
    WithoutAt([node], 0);
    afterEnd := el.attrs["x"];
    childCount := |el.children|;
  }

  /**
   * A second notification for `x` arrives after the first child has begun
   * but before it has ended: the new child starts from the committed value,
   * and the late end of the first child neither changes `x` nor removes the
   * second child.
   */
  method SupersededTransition(policy: TimingPolicy) returns (secondFrom: string, afterLateEnd: string, remaining: seq<AnimateRecord>)
    ensures secondFrom == "50"
    ensures afterLateEnd == "70"
    ensures |remaining| == 1 && remaining[0].from == "50" && remaining[0].to == "70"
  {
    var x := [AnimAttr("x", "animAttrX")];
    var el := new Element(map["x" := "10"]);
    el.Animate(x, ["50"], [0], policy);
    var first := el.children[0];
    el.BeginEvent(first);
    ScheduledAt(map["x" := "10"], x, ["50"], [0], policy, 1, 0);
    assert Records(el.children)[0] == first.record;
    assert el.attrs == map["x" := "50"];

    el.Animate(x, ["70"], [100], policy);
    var second := el.children[1];
    ScheduledAt(map["x" := "50"], x, ["70"], [100], policy, 1, 0);
    assert Records(el.children)[1] == second.record;
    secondFrom := second.record.from;
    el.BeginEvent(second);

    el.OnEnd(first);
    WithoutAt([first, second], 0);
    afterLateEnd := el.attrs["x"];
    remaining := Records(el.children);
  }
}
