/**
 * The transition scheduler of the `animSvg` directive: `animate` appends one
 * SVG `<animate>` child per collected attribute, `onBegin` commits the
 * target value when a child starts playing, and `onEnd` removes the child
 * once it has finished.
 */
module Scheduler {
  import opened Timing
  import opened AnimAttrs

  /** The attributes that `animate` sets on one `<animate>` child; `begin` and `dur` in milliseconds. */
  datatype AnimateRecord = AnimateRecord(
    attributeName: string,
    attributeType: string,
    from: string,
    to: string,
    beginMs: int,
    durMs: int,
    calcMode: string,
    keyTimes: string,
    keySplines: string)

  /** One `<animate>` node; a node has an identity, so two children with equal attributes are still two. */
  class AnimateNode {
    const record: AnimateRecord

    constructor (record: AnimateRecord)
      ensures this.record == record
    {
      this.record := record;
    }
  }

  function Records(nodes: seq<AnimateNode>): seq<AnimateRecord> {
    seq(|nodes|, i requires 0 <= i < |nodes| => nodes[i].record)
  }

  /** A node is a child of its parent at most once. */
  predicate Distinct(nodes: seq<AnimateNode>) {
    forall i, j :: 0 <= i < j < |nodes| ==> nodes[i] != nodes[j]
  }

  /** Every attribute to animate is present on the element (what `from` is read from). */
  predicate AllPresent(current: map<string, string>, animAttrs: seq<AnimAttr>) {
    forall i :: 0 <= i < |animAttrs| ==> animAttrs[i].dom in current
  }

  /**
   * The children that the first `n` rounds of `animate`'s loop append for
   * one change notification, read against the element's attributes
   * `current` and the clock readings `clock`, one per round.
   */
  function Scheduled(current: map<string, string>, animAttrs: seq<AnimAttr>, values: seq<string>,
                     clock: seq<int>, policy: TimingPolicy, n: nat): seq<AnimateRecord>
    requires n <= |animAttrs| && n <= |values| && n <= |clock|
    requires AllPresent(current, animAttrs)
  {
    if n == 0 then []
    else
      var a := animAttrs[n - 1];
      Scheduled(current, animAttrs, values, clock, policy, n - 1) +
        [AnimateRecord(a.dom, "XML", current[a.dom], values[n - 1], clock[n - 1] + policy.delayMs,
                       policy.durationMs, "spline", "0; 1", policy.easing)]
  }

  /**
   * One child per attribute, paired by position: child `i` animates
   * `animAttrs[i].dom` from its current value to `values[i]`, begins `delay`
   * after the `i`-th clock reading, lasts `duration`, and is a two-keyframe
   * spline with the policy's easing.
   */
  lemma {:induction false} ScheduledAt(current: map<string, string>, animAttrs: seq<AnimAttr>, values: seq<string>,
                                       clock: seq<int>, policy: TimingPolicy, n: nat, i: nat)
    requires n <= |animAttrs| && n <= |values| && n <= |clock|
    requires AllPresent(current, animAttrs)
    requires i < n
    ensures var rs := Scheduled(current, animAttrs, values, clock, policy, n);
      && |rs| == n
      && rs[i].attributeName == animAttrs[i].dom
      && rs[i].attributeType == "XML"
      && rs[i].from == current[animAttrs[i].dom]
      && rs[i].to == values[i]
      && rs[i].beginMs == clock[i] + policy.delayMs
      && rs[i].durMs == policy.durationMs
      && rs[i].calcMode == "spline"
      && rs[i].keyTimes == "0; 1"
      && rs[i].keySplines == policy.easing
    decreases n
  {
    if i < n - 1 {
      ScheduledAt(current, animAttrs, values, clock, policy, n - 1, i);
    } else if n > 1 {
      ScheduledLength(current, animAttrs, values, clock, policy, n - 1);
    }
  }

  lemma {:induction false} ScheduledLength(current: map<string, string>, animAttrs: seq<AnimAttr>, values: seq<string>,
                                           clock: seq<int>, policy: TimingPolicy, n: nat)
    requires n <= |animAttrs| && n <= |values| && n <= |clock|
    requires AllPresent(current, animAttrs)
    ensures |Scheduled(current, animAttrs, values, clock, policy, n)| == n
    decreases n
  {
    if n > 0 {
      ScheduledLength(current, animAttrs, values, clock, policy, n - 1);
    }
  }

  /** The children left after `node` is removed from `nodes`. */
  function Without(nodes: seq<AnimateNode>, node: AnimateNode): seq<AnimateNode> {
    if nodes == [] then []
    else
      var last := nodes[|nodes| - 1];
      Without(nodes[..|nodes| - 1], node) + (if last == node then [] else [last])
  }

  /** Removing a child that is there takes out that one child and keeps the others in order. */
  lemma {:induction false} WithoutAt(nodes: seq<AnimateNode>, k: nat)
    requires Distinct(nodes)
    requires k < |nodes|
    ensures Without(nodes, nodes[k]) == nodes[..k] + nodes[k + 1..]
    decreases |nodes|
  {
    var init := nodes[..|nodes| - 1];
    var last := nodes[|nodes| - 1];
    if k == |nodes| - 1 {
      WithoutAbsent(init, nodes[k]);
    } else {
      WithoutAt(init, k);
      assert init[..k] == nodes[..k];
      assert init[k + 1..] + [last] == nodes[k + 1..];
    }
  }

  /** Removing a node that is not a child changes nothing. */
  lemma {:induction false} WithoutAbsent(nodes: seq<AnimateNode>, node: AnimateNode)
    requires node !in nodes
    ensures Without(nodes, node) == nodes
    decreases |nodes|
  {
    if nodes != [] {
      WithoutAbsent(nodes[..|nodes| - 1], node);
    }
  }

  /**
   * The SVG element being animated: its attributes, and the `<animate>`
   * children that the directive has appended and not yet removed.
   */
  class Element {
    var attrs: map<string, string>
    var children: seq<AnimateNode>

    ghost predicate Valid()
      reads this
    {
      Distinct(children)
    }

    constructor (attrs: map<string, string>)
      ensures Valid() && this.attrs == attrs && children == []
    {
      this.attrs := attrs;
      children := [];
    }

    /**
     * `animate($element, attrs, values, duration, delay, easing)` for one
     * change notification. `clock[i]` is what `performance.now()` returns in
     * round `i`. The element's attributes are only read, so every `from` is
     * the value before the call.
     */
    method Animate(animAttrs: seq<AnimAttr>, values: seq<string>, clock: seq<int>, policy: TimingPolicy)
      requires Valid()
      requires |values| == |animAttrs| && |clock| == |animAttrs|
      requires AllPresent(attrs, animAttrs)
      modifies this
      ensures Valid()
      ensures attrs == old(attrs)
      ensures |children| == |old(children)| + |animAttrs|
      ensures children[..|old(children)|] == old(children)
      ensures forall k :: |old(children)| <= k < |children| ==> fresh(children[k])
      ensures Records(children) == Records(old(children)) + Scheduled(old(attrs), animAttrs, values, clock, policy, |animAttrs|)
    {
      var i := 0;
      while i < |animAttrs|
        invariant 0 <= i <= |animAttrs|
        invariant Valid() && attrs == old(attrs)
        invariant |children| == |old(children)| + i
        invariant children[..|old(children)|] == old(children)
        invariant forall k :: |old(children)| <= k < |children| ==> fresh(children[k])
        invariant Records(children) == Records(old(children)) + Scheduled(old(attrs), animAttrs, values, clock, policy, i)
      {
        var a := animAttrs[i];
        var node := new AnimateNode(AnimateRecord(a.dom, "XML", attrs[a.dom], values[i], clock[i] + policy.delayMs,
                                                  policy.durationMs, "spline", "0; 1", policy.easing));
        assert forall k :: 0 <= k < |children| ==> children[k] != node;
        assert Records(children + [node]) == Records(children) + [node.record];
        children := children + [node];
        i := i + 1;
      }
    }

    /** `onBegin($element, attr, toValue)`: the target value is committed as soon as the child starts. */
    method OnBegin(attr: string, toValue: string)
      requires Valid()
      modifies this
      ensures Valid()
      ensures attrs == old(attrs)[attr := toValue]
      ensures children == old(children)
    {
      attrs := attrs[attr := toValue];
    }

    /** The `beginEvent` of a child: its handler was bound to the child's attribute name and target value. */
    method BeginEvent(node: AnimateNode)
      requires Valid()
      modifies this
      ensures Valid()
      ensures attrs == old(attrs)[node.record.attributeName := node.record.to]
      ensures children == old(children)
    {
      OnBegin(node.record.attributeName, node.record.to);
    }

    /** `onEnd(e)`: the child that fired (`e.target`) is removed; the attributes are not touched. */
    method OnEnd(target: AnimateNode)
      requires Valid()
      modifies this
      ensures Valid()
      ensures attrs == old(attrs)
      ensures children == Without(old(children), target)
    {
      if k :| 0 <= k < |children| && children[k] == target {
        WithoutAt(children, k);
        assert Distinct(children[..k] + children[k + 1..]) by {
          var s := children[..k] + children[k + 1..];
          forall i, j | 0 <= i < j < |s| ensures s[i] != s[j] {
            var i' := if i < k then i else i + 1;
            var j' := if j < k then j else j + 1;
            assert s[i] == children[i'] && s[j] == children[j'];
          }
        }
      } else {
        WithoutAbsent(children, target);
      }
      children := Without(children, target);
    }
  }
}
