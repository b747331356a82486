// The largest sampling factors of a frame (decoder.rs:361-363): a fold
// of `cmp::max` from 0 over the components map, once for h and once for v.
module Sampling {
  import opened Segments
  import opened Mcu

  /** The horizontal or the vertical sampling factor of a component. */
  function Factor(c: Component, horizontal: bool): int
  {
    if horizontal then c.h else c.v
  }

  /** x bounds the factors of the components in `keys` and is one of
      them, or 0, where the fold starts. */
  ghost predicate IsMaxOver(m: map<int, Component>, keys: set<int>, horizontal: bool, x: int)
    requires keys <= m.Keys
  {
    (forall k | k in keys :: Factor(m[k], horizontal) <= x) &&
    (x == 0 || exists k | k in keys :: Factor(m[k], horizontal) == x)
  }

  /** The largest factor among the components in `keys`, 0 for none. */
  ghost function MaxFactor(m: map<int, Component>, keys: set<int>, horizontal: bool): int
    requires keys <= m.Keys
    decreases keys
  {
    if keys == {} then 0
    else
      HasMember(keys);
      var k :| k in keys;
      var rest := MaxFactor(m, keys - {k}, horizontal);
      if Factor(m[k], horizontal) > rest then Factor(m[k], horizontal) else rest
  }

  /** MaxFactor is the maximum, whichever component the recursion
      takes first. */
  lemma {:induction false} MaxFactorIsMax(m: map<int, Component>, keys: set<int>, horizontal: bool)
    requires keys <= m.Keys && ComponentsOk(m)
    ensures IsMaxOver(m, keys, horizontal, MaxFactor(m, keys, horizontal))
    ensures 0 <= MaxFactor(m, keys, horizontal) <= 15
    decreases keys
  {
    if keys != {} {
      HasMember(keys);
      var k :| k in keys && MaxFactor(m, keys, horizontal) ==
        (var rest := MaxFactor(m, keys - {k}, horizontal);
         if Factor(m[k], horizontal) > rest then Factor(m[k], horizontal) else rest);
      MaxFactorIsMax(m, keys - {k}, horizontal);
    }
  }

  /** A nonempty set has a member to pick. */
  lemma HasMember(s: set<int>)
    requires s != {}
    ensures exists k :: k in s
  {
    if forall k :: k !in s {
      assert false;
    }
  }

  /** The factors are never negative, so at most one value is the
      maximum. */
  lemma MaxIsUnique(m: map<int, Component>, keys: set<int>, horizontal: bool, x: int, y: int)
    requires keys <= m.Keys && ComponentsOk(m)
    requires IsMaxOver(m, keys, horizontal, x) && IsMaxOver(m, keys, horizontal, y)
    ensures x == y
  {
  }

  /** The fold of decoder.rs:361-363, both maxima in one pass over the
      components, in whatever order the map yields them. */
  method SamplingMaxima(m: map<int, Component>) returns (hmax: int, vmax: int)
    requires ComponentsOk(m)
    ensures hmax == MaxFactor(m, m.Keys, true) && vmax == MaxFactor(m, m.Keys, false)
    ensures 0 <= hmax <= 15 && 0 <= vmax <= 15
  {
    hmax, vmax := 0, 0;
    var todo := m.Keys;
    ghost var done: set<int> := {};
    while todo != {}
      invariant todo + done == m.Keys && todo !! done
      invariant IsMaxOver(m, done, true, hmax) && IsMaxOver(m, done, false, vmax)
      invariant 0 <= hmax <= 15 && 0 <= vmax <= 15
      decreases todo
    {
      HasMember(todo);
      var k :| k in todo;
      hmax := if m[k].h > hmax then m[k].h else hmax;
      vmax := if m[k].v > vmax then m[k].v else vmax;
      todo := todo - {k};
      done := done + {k};
    }
    MaxFactorIsMax(m, m.Keys, true);
    MaxFactorIsMax(m, m.Keys, false);
    MaxIsUnique(m, m.Keys, true, hmax, MaxFactor(m, m.Keys, true));
    MaxIsUnique(m, m.Keys, false, vmax, MaxFactor(m, m.Keys, false));
  }
}
