/**
 * The style resolver: `_construct_style` (simple_inkscape_scripting.py:109-130)
 * layers a shape's default style, the global default style set by `style()`
 * and the style passed to one creation call, drops properties set to `None`
 * and prints the rest as `key:value` declarations separated by `;`.
 */
module Styles {
  import opened Wrappers
  import opened Text
  import opened Dicts

  /** One style layer; a `None` value asks for the property to be removed. */
  type Layer = Dict<Option<string>>

  /** The default style of most shapes (lines 55-56). */
  const CommonShapeStyle: Layer := [("stroke", Some("black")), ("fill", Some("none"))]

  /** The default style of `line` (line 361), which needs no `fill`. */
  const LineShapeStyle: Layer := [("stroke", Some("black"))]

  /** Keyword names to property names, values untouched (lines 119-124, 304-309). */
  function Rename(kwargs: Layer): (r: Layer)
    ensures |r| == |kwargs|
    ensures forall i :: 0 <= i < |r| ==> r[i] == (Hyphenate(kwargs[i].0), kwargs[i].1)
  {
    if kwargs == [] then [] else [(Hyphenate(kwargs[0].0), kwargs[0].1)] + Rename(kwargs[1..])
  }

  /** Lines 113-124: copy the shape style, update it with the global style, then assign the call's properties. */
  function Merge(shape: Layer, global: Layer, call: Layer): (r: Layer)
    ensures |r| >= |shape| && Keys(r)[..|shape|] == Keys(shape)
    ensures WellFormed(shape) ==> WellFormed(r)
  {
    OverlayKeys(shape, global);
    OverlayKeys(Overlay(shape, global), Rename(call));
    Overlay(Overlay(shape, global), Rename(call))
  }

  /** Line 127: `{k: v for k, v in style.items() if v is not None}`. */
  function Compact(d: Layer): (r: Dict<string>)
    ensures |r| <= |d|
    ensures forall i :: 0 <= i < |r| ==> (r[i].0, Some(r[i].1)) in d
  {
    if d == [] then []
    else if d[0].1.None? then Compact(d[1..])
    else [(d[0].0, d[0].1.value)] + Compact(d[1..])
  }

  /**
   * Compacting works pair by pair: the kept properties stay in the order
   * the merged dict has them.
   */
  lemma {:induction false} CompactConcat(d: Layer, e: Layer)
    ensures Compact(d + e) == Compact(d) + Compact(e)
    decreases |d|
  {
    if d != [] {
      assert (d + e)[0] == d[0] && (d + e)[1..] == d[1..] + e;
      CompactConcat(d[1..], e);
    } else {
      assert d + e == e;
    }
  }

  /** Compacting keeps exactly the properties whose value is not `None`, with that value. */
  lemma {:induction false} CompactLookup(d: Layer, k: string)
    requires WellFormed(d)
    ensures WellFormed(Compact(d))
    ensures k in Keys(Compact(d)) <==> k in Keys(d) && Get(d, k).Some?
    ensures k in Keys(Compact(d)) ==> Get(Compact(d), k) == Get(d, k).value
  {
    if d != [] {
      assert Keys(d) == [d[0].0] + Keys(d[1..]);
      assert WellFormed(d[1..]) by {
        forall i, j | 0 <= i < j < |d[1..]| ensures Keys(d[1..])[i] != Keys(d[1..])[j] {
          assert Keys(d)[i + 1] != Keys(d)[j + 1];
        }
      }
      CompactLookup(d[1..], k);
      CompactLookup(d[1..], d[0].0);
      assert d[0].0 !in Keys(d[1..]) by {
        forall j | 0 <= j < |d[1..]| ensures Keys(d[1..])[j] != d[0].0 {
          assert Keys(d)[0] != Keys(d)[j + 1];
        }
      }
    }
  }

  /** The properties a created object ends up with, in order. */
  function Resolve(shape: Layer, global: Layer, call: Layer): (r: Dict<string>)
    ensures forall i :: 0 <= i < |r| ==> (r[i].0, Some(r[i].1)) in Merge(shape, global, call)
  {
    Compact(Merge(shape, global, call))
  }

  /** Line 130's `'%s:%s' % kv`. */
  function Declaration(kv: (string, string)): (s: string)
    ensures |s| == |kv.0| + 1 + |kv.1|
    ensures s[..|kv.0|] == kv.0 && s[|kv.0|] == ':' && s[|kv.0| + 1..] == kv.1
  {
    kv.0 + ":" + kv.1
  }

  function Declarations(d: Dict<string>): (ds: seq<string>)
    ensures |ds| == |d|
    ensures forall i :: 0 <= i < |d| ==> ds[i] == Declaration(d[i])
  {
    if d == [] then [] else [Declaration(d[0])] + Declarations(d[1..])
  }

  /** Line 130: the declarations joined by `;`; empty exactly when no property is left. */
  function Serialize(d: Dict<string>): (s: string)
    ensures s == "" <==> d == []
  {
    var ds := Declarations(d);
    JoinEmpty(ds, ';');
    assert d != [] ==> ds[0][|d[0].0|] == ':';
    Join(ds, ';')
  }

  /** `_construct_style(shape_style, new_style)` with the global default style passed in. */
  function ConstructStyle(shape: Layer, global: Layer, call: Layer): (s: string)
    ensures s == "" <==> Resolve(shape, global, call) == []
  {
    Serialize(Resolve(shape, global, call))
  }

  /**
   * Precedence stated on its own: the highest layer that mentions a property
   * decides its value (the call's style, then the global style, then the
   * shape's), and `None` or no mention at all means the property is absent.
   */
  function Effective(shape: Layer, global: Layer, call: Layer, k: string): Option<string>
  {
    var renamed := Rename(call);
    if k in Keys(renamed) then Last(renamed, k)
    else if k in Keys(global) then Get(global, k)
    else if k in Keys(shape) then Get(shape, k)
    else None
  }

  /** The resolver implements that precedence, in both directions. */
  lemma StylePrecedence(shape: Layer, global: Layer, call: Layer, k: string)
    requires WellFormed(shape) && WellFormed(global)
    ensures WellFormed(Resolve(shape, global, call))
    ensures k in Keys(Resolve(shape, global, call)) <==> Effective(shape, global, call, k).Some?
    ensures k in Keys(Resolve(shape, global, call)) ==>
              Get(Resolve(shape, global, call), k) == Effective(shape, global, call, k).value
  {
    var renamed := Rename(call);
    var base := Overlay(shape, global);
    var merged := Overlay(base, renamed);
    assert merged == Merge(shape, global, call);
    OverlayKeys(shape, global);
    OverlayKeys(base, renamed);
    OverlayLookup(shape, global, k);
    OverlayLookup(base, renamed, k);
    CompactLookup(merged, k);
    if k in Keys(global) {
      LastIsGet(global, k);
    }
    var eff := Effective(shape, global, call, k);
    if k in Keys(renamed) {
      assert k in Keys(merged) && Get(merged, k) == eff;
    } else if k in Keys(global) {
      assert k in Keys(merged) && Get(merged, k) == Get(base, k) == eff;
    } else if k in Keys(shape) {
      assert k in Keys(merged) && Get(merged, k) == Get(base, k) == eff;
    } else {
      assert k !in Keys(merged) && eff == None;
    }
  }

  /** The merged properties list the shape's defaults first, in their original order. */
  lemma ShapeDefaultsFirst(shape: Layer, global: Layer, call: Layer)
    ensures |Merge(shape, global, call)| >= |shape|
    ensures Keys(Merge(shape, global, call))[..|shape|] == Keys(shape)
  {
    var base := Overlay(shape, global);
    var merged := Overlay(base, Rename(call));
    OverlayKeys(shape, global);
    OverlayKeys(base, Rename(call));
    var ks := Keys(merged);
    assert ks[..|base|] == Keys(base);
    assert ks[..|shape|] == ks[..|base|][..|shape|];
  }

  /** Splits a declaration at its first `:`. */
  function ParseDeclaration(s: string): (string, string)
  {
    if s == [] then ("", "")
    else if s[0] == ':' then ("", s[1..])
    else var kv := ParseDeclaration(s[1..]); ([s[0]] + kv.0, kv.1)
  }

  lemma {:induction false} ParseDeclarationInverse(kv: (string, string))
    requires ':' !in kv.0
    ensures ParseDeclaration(Declaration(kv)) == kv
    decreases |kv.0|
  {
    if kv.0 != [] {
      var rest := (kv.0[1..], kv.1);
      var s := Declaration(kv);
      assert s[0] == kv.0[0] && s[1..] == Declaration(rest);
      ParseDeclarationInverse(rest);
      assert [kv.0[0]] + kv.0[1..] == kv.0;
    } else {
      assert Declaration(kv) == [':'] + kv.1;
    }
  }

  function ParseAll(ds: seq<string>): Dict<string>
  {
    if ds == [] then [] else [ParseDeclaration(ds[0])] + ParseAll(ds[1..])
  }

  /** Reads a style attribute back into its properties. */
  function Parse(s: string): Dict<string>
  {
    if s == "" then [] else ParseAll(Split(s, ';'))
  }

  /** A property name or value that the printed form can carry unambiguously. */
  predicate Printable(kv: (string, string))
  {
    ';' !in kv.0 && ':' !in kv.0 && ';' !in kv.1
  }

  /** Reading the printed style back gives the same properties in the same order. */
  lemma {:induction false} ParseSerialize(d: Dict<string>)
    requires forall i :: 0 <= i < |d| ==> Printable(d[i])
    ensures Parse(Serialize(d)) == d
  {
    if d != [] {
      var ds := Declarations(d);
      forall p | p in ds ensures ';' !in p {
        var i :| 0 <= i < |ds| && ds[i] == p;
        assert p == d[i].0 + ":" + d[i].1;
      }
      SplitJoin(ds, ';');
      ParseAllDeclarations(d);
    }
  }

  lemma {:induction false} ParseAllDeclarations(d: Dict<string>)
    requires forall i :: 0 <= i < |d| ==> Printable(d[i])
    ensures ParseAll(Declarations(d)) == d
  {
    if d != [] {
      ParseDeclarationInverse(d[0]);
      ParseAllDeclarations(d[1..]);
      assert Declarations(d)[1..] == Declarations(d[1..]);
    }
  }
}
