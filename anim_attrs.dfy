/**
 * The attribute collector of the `animSvg` directive (`collectAnimAttrs`):
 * it scans the directive's `$attrs` object once, at link time, and keeps the
 * animated attributes, each with the name it has on the SVG element.
 */
module AnimAttrs {
  import opened Wrappers

  /** Normalized names of animated attributes start with this. */
  const AnimAttrPrefix: string := "animAttr"
  /** Written names of animated attributes contain this; removing it gives the SVG attribute name. */
  const DomAttrPrefix: string := "anim-attr-"

  // ---------------------------------------------------------------------
  // The regular expression /^animAttr.*$/ (no flags)
  // ---------------------------------------------------------------------

  /** The characters that the JavaScript `.` does not match without the `s` flag. */
  predicate IsLineTerminator(c: char) {
    c == '\n' || c == '\r' || c == '\U{2028}' || c == '\U{2029}'
  }

  predicate StartsWith(s: string, p: string) {
    |p| <= |s| && s[..|p|] == p
  }

  /** How far the greedy `.*` runs from position `from`: up to the first line terminator or the end. */
  function DotRun(s: string, from: nat): (n: nat)
    requires from <= |s|
    ensures from + n <= |s|
    ensures forall k :: from <= k < from + n ==> !IsLineTerminator(s[k])
    ensures from + n < |s| ==> IsLineTerminator(s[from + n])
    decreases |s| - from
  {
    if from == |s| || IsLineTerminator(s[from]) then 0 else 1 + DotRun(s, from + 1)
  }

  /**
   * `key.match(/^animAttr.*$/)`: `^` anchors at position 0, the literal
   * prefix follows, `.*` runs greedily, and `$` (no `m` flag) only matches
   * at the end of the input. Giving back characters of `.*` cannot help `$`,
   * so the match is found exactly when the greedy run reaches the end.
   * The result is `match[0]`, the whole matched text.
   */
  function MatchAnimAttr(key: string): Option<string> {
    if StartsWith(key, AnimAttrPrefix) then
      var end := |AnimAttrPrefix| + DotRun(key, |AnimAttrPrefix|);
      if end == |key| then Some(key[..end]) else None
    else
      None
  }

  /** The keys the pattern accepts, stated directly. */
  predicate IsAnimAttrKey(key: string) {
    StartsWith(key, AnimAttrPrefix) && forall k :: 0 <= k < |key| ==> !IsLineTerminator(key[k])
  }

  /** The pattern accepts exactly the animated keys, and because it is anchored at both ends, `match[0]` is the whole key. */
  lemma MatchAnimAttrSpec(key: string)
    ensures MatchAnimAttr(key).Some? <==> IsAnimAttrKey(key)
    ensures MatchAnimAttr(key).Some? ==> MatchAnimAttr(key).value == key
  {
  }

  // ---------------------------------------------------------------------
  // String.prototype.replace with a string pattern
  // ---------------------------------------------------------------------

  predicate OccursAt(s: string, p: string, i: nat) {
    i + |p| <= |s| && s[i..i + |p|] == p
  }

  /** `s.indexOf(p, from)`: the first position at or after `from` where `p` occurs. */
  function IndexOf(s: string, p: string, from: nat): (r: Option<nat>)
    requires from <= |s|
    ensures r.Some? ==> from <= r.value && OccursAt(s, p, r.value)
    ensures r.Some? ==> forall j :: from <= j < r.value ==> !OccursAt(s, p, j)
    ensures r.None? ==> forall j :: from <= j ==> !OccursAt(s, p, j)
    decreases |s| - from
  {
    if OccursAt(s, p, from) then Some(from)
    else if from == |s| then None
    else IndexOf(s, p, from + 1)
  }

  /** `s.replace(p, '')`: a string pattern is not a regular expression, so only its FIRST occurrence is removed, wherever it is. */
  function RemoveFirst(s: string, p: string): string {
    match IndexOf(s, p, 0)
    case None => s
    case Some(i) => s[..i] + s[i + |p|..]
  }

  /** The SVG attribute name derived from an attribute name as written: `name.replace('anim-attr-', '')`. */
  function DomName(written: string): string {
    RemoveFirst(written, DomAttrPrefix)
  }

  /** When `p` first occurs at `i`, exactly that occurrence is cut out, and putting it back gives the original string. */
  lemma RemoveFirstAt(s: string, p: string, i: nat)
    requires OccursAt(s, p, i)
    requires forall j :: 0 <= j < i ==> !OccursAt(s, p, j)
    ensures RemoveFirst(s, p) == s[..i] + s[i + |p|..]
    ensures |RemoveFirst(s, p)| == |s| - |p|
    ensures RemoveFirst(s, p)[..i] + p + RemoveFirst(s, p)[i..] == s
  {
  }

  /** Without an occurrence of `p`, the string is unchanged. */
  lemma RemoveFirstAbsent(s: string, p: string)
    requires forall j :: !OccursAt(s, p, j)
    ensures RemoveFirst(s, p) == s
  {
  }

  /** The usual case: `anim-attr-<name>` becomes `<name>`. */
  lemma DomNameOfPrefixed(name: string)
    ensures DomName(DomAttrPrefix + name) == name
  {
  }

  /** The pattern is not anchored: with a `data-` prefix the remainder keeps it. */
  lemma DomNameNotAnchored()
    ensures DomName("data-anim-attr-cx") == "data-cx"
  {
    var s := "data-anim-attr-cx";
    assert OccursAt(s, DomAttrPrefix, 5) by { assert s[5..15] == DomAttrPrefix; }
    forall j | 0 <= j < 5 ensures !OccursAt(s, DomAttrPrefix, j) {
      assert s[j + 1] != DomAttrPrefix[1] || s[j] != DomAttrPrefix[0];
    }
    RemoveFirstAt(s, DomAttrPrefix, 5);
    assert s[..5] + s[15..] == "data-cx";
  }

  // ---------------------------------------------------------------------
  // The $attrs object and the collection
  // ---------------------------------------------------------------------

  /** One enumerable property of `$attrs`; `own` is what `hasOwnProperty` says of it. */
  datatype Property = Property(key: string, own: bool)

  /**
   * The `$attrs` object of the directive: its enumerable properties in
   * `for…in` order, and its `$attr` table from normalized name to the name
   * as written on the element.
   */
  datatype Attributes = Attributes(props: seq<Property>, writtenNames: map<string, string>)

  /** One collected attribute: `dom` is its SVG name, `normalized` the `$attrs` key that is watched. */
  datatype AnimAttr = AnimAttr(dom: string, normalized: string)

  /** `$attrs.$attr[key]` was undefined, so calling `.replace` on it throws a TypeError. */
  datatype CollectError = NoWrittenName(key: string)

  /** The keys the collector keeps, in `for…in` order: own keys that the pattern accepts. */
  function AnimKeys(props: seq<Property>): seq<string> {
    if props == [] then []
    else
      var p := props[|props| - 1];
      AnimKeys(props[..|props| - 1]) + (if p.own && MatchAnimAttr(p.key).Some? then [p.key] else [])
  }

  /** Collection respects the order of enumeration: what comes from earlier properties comes first. */
  lemma {:induction false} AnimKeysAppend(a: seq<Property>, b: seq<Property>)
    ensures AnimKeys(a + b) == AnimKeys(a) + AnimKeys(b)
    decreases |b|
  {
    if b == [] {
      assert a + b == a;
    } else {
      var b' := b[..|b| - 1];
      assert (a + b)[..|a + b| - 1] == a + b';
      AnimKeysAppend(a, b');
    }
  }

  /** A key is kept exactly when some own property has it and the pattern accepts it; all others are skipped. */
  lemma {:induction false} AnimKeysMember(props: seq<Property>, key: string)
    ensures key in AnimKeys(props) <==>
      IsAnimAttrKey(key) && exists i :: 0 <= i < |props| && props[i] == Property(key, true)
    decreases |props|
  {
    if props != [] {
      var init := props[..|props| - 1];
      var p := props[|props| - 1];
      AnimKeysMember(init, key);
      MatchAnimAttrSpec(p.key);
      if key in AnimKeys(props) && key !in AnimKeys(init) {
        assert p == Property(key, true);
      }
      if exists i :: 0 <= i < |props| && props[i] == Property(key, true) {
        var i :| 0 <= i < |props| && props[i] == Property(key, true);
        if i < |props| - 1 {
          assert init[i] == props[i];
        }
      }
      forall i | 0 <= i < |init| ensures init[i] == props[i] { }
    }
  }

  /**
   * `collectAnimAttrs($attrs)`: one entry per kept key, in order, with the
   * key as `normalized` and the written name minus its first `anim-attr-`
   * as `dom`; the first kept key without a written name throws.
   */
  method CollectAnimAttrs(attrs: Attributes) returns (r: Result<seq<AnimAttr>, CollectError>)
    ensures var ks := AnimKeys(attrs.props);
      r.Success? <==> forall k :: k in ks ==> k in attrs.writtenNames
    ensures var ks := AnimKeys(attrs.props);
      r.Success? ==> (
        && |r.value| == |ks|
        && forall i :: 0 <= i < |ks| ==>
             ks[i] in attrs.writtenNames &&
             r.value[i] == AnimAttr(DomName(attrs.writtenNames[ks[i]]), ks[i]))
    ensures var ks := AnimKeys(attrs.props);
      r.Failure? ==> exists n :: (
        && 0 <= n < |ks| && ks[n] == r.error.key && ks[n] !in attrs.writtenNames
        && forall j :: 0 <= j < n ==> ks[j] in attrs.writtenNames)
  {
    var props := attrs.props;
    var out: seq<AnimAttr> := [];
    var i := 0;
    while i < |props|
      invariant 0 <= i <= |props|
      invariant var ks := AnimKeys(props[..i]);
        |out| == |ks| && forall j :: 0 <= j < |ks| ==>
          ks[j] in attrs.writtenNames && out[j] == AnimAttr(DomName(attrs.writtenNames[ks[j]]), ks[j])
    {
      var p := props[i];
      assert props[..i + 1][..i] == props[..i];
      if p.own {
        var m := MatchAnimAttr(p.key);
        MatchAnimAttrSpec(p.key);
        if m.Some? {
          if m.value !in attrs.writtenNames {
            assert props == props[..i + 1] + props[i + 1..];
            AnimKeysAppend(props[..i + 1], props[i + 1..]);
            assert AnimKeys(props)[|out|] == p.key;
            return Failure(NoWrittenName(m.value));
          }
          out := out + [AnimAttr(DomName(attrs.writtenNames[m.value]), m.value)];
        }
      }
      i := i + 1;
    }
    assert props[..i] == props;
    return Success(out);
  }
}
