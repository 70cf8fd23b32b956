/**
 * Linear-gradient attributes, `SimpleLinearGradient.__init__`
 * (simple_inkscape_scripting.py:246-281): repeat names mapped to SVG's
 * `spreadMethod` vocabulary, and a template gradient referenced by id.
 */
module Gradients {
  import opened Wrappers
  import opened Ids
  import opened Dicts
  import opened Text

  /** Lines 250-252: Inkscape's repetition names and their SVG spread methods. */
  const RepeatToSpreadTable: map<string, string> :=
    map["none" := "pad", "reflected" := "reflect", "direct" := "repeat"]

  /** Lines 265-268: look the name up, or pass it through unchanged on `KeyError`. */
  function RepeatToSpread(repeat: string): (s: string)
    ensures repeat in RepeatToSpreadTable ==> IsSpreadMethod(s) && s != repeat
    ensures repeat !in RepeatToSpreadTable ==> s == repeat
  {
    if repeat in RepeatToSpreadTable then RepeatToSpreadTable[repeat] else repeat
  }

  /** SVG's three spread methods. */
  predicate IsSpreadMethod(s: string)
  {
    s == "pad" || s == "reflect" || s == "repeat"
  }

  /**
   * The mapping renames Inkscape's names, passes every other name through,
   * yields an SVG spread method exactly for Inkscape's names and SVG's own,
   * and leaves an already mapped name alone.
   */
  lemma SpreadNames(repeat: string)
    ensures repeat == "none" ==> RepeatToSpread(repeat) == "pad"
    ensures repeat == "reflected" ==> RepeatToSpread(repeat) == "reflect"
    ensures repeat == "direct" ==> RepeatToSpread(repeat) == "repeat"
    ensures repeat !in {"none", "reflected", "direct"} ==> RepeatToSpread(repeat) == repeat
    ensures IsSpreadMethod(RepeatToSpread(repeat)) <==>
              repeat in {"none", "reflected", "direct"} || IsSpreadMethod(repeat)
    ensures RepeatToSpread(RepeatToSpread(repeat)) == RepeatToSpread(repeat)
  {
  }

  /** An exception raised out of the constructor. */
  datatype GradientError = UndefinedName(name: string)

  function PointAttrs(pt: Option<Coord>, x: string, y: string): (r: Dict<string>)
    ensures r == [] <==> pt.None?
    ensures pt.Some? ==> (x, pt.value.0) in r && (y, pt.value.1) in r
    ensures forall kv :: kv in r ==> kv.0 == x || kv.0 == y
  {
    if pt.Some? then [(x, pt.value.0), (y, pt.value.1)] else []
  }

  /** The attributes lines 258-280 set, in order, with a given `gradientUnits` attribute. */
  function GradientAttrs(pt1: Option<Coord>, pt2: Option<Coord>, repeat: Option<string>,
                         units: Option<string>, template: Option<string>,
                         transform: Option<string>, style: string): (r: Dict<string>)
    ensures units.Some? ==> ("gradientUnits", units.value) in r
    ensures units.None? ==> forall kv :: kv in r ==> kv.0 != "gradientUnits"
  {
    var r := PointAttrs(pt1, "x1", "y1")
    + PointAttrs(pt2, "x2", "y2")
    + (if repeat.Some? then [("spreadMethod", RepeatToSpread(repeat.value))] else [])
    + (if units.Some? then [("gradientUnits", units.value)] else [])
    + (if template.Some? then
         var name := StripUrl(template.value);
         [("href", "#" + name), ("xlink:href", "#" + name)]
       else [])
    + (if transform.Some? then [("gradientTransform", transform.value)] else [])
    + (if style != "" then [("style", style)] else []);
    assert units.None? ==> forall kv :: kv in r ==> kv.0 != "gradientUnits" by {
      var names := ["x1", "y1", "x2", "y2", "spreadMethod", "href", "xlink:href", "gradientTransform", "style"];
      forall kv | units.None? && kv in r
        ensures kv.0 != "gradientUnits"
      {
        assert kv.0 in names;
        assert |kv.0| != |"gradientUnits"|;
      }
    }
    r
  }

  /**
   * Lines 254-281 as written. `template` is the template's `str` form and
   * `style` the already printed style. Line 271 reads the undefined name
   * `gradientUnits`, so any `gradient_units` raises `NameError`.
   */
  function LinearGradientAttrs(pt1: Option<Coord>, pt2: Option<Coord>, repeat: Option<string>,
                               units: Option<string>, template: Option<string>,
                               transform: Option<string>, style: string)
    : (r: Result<Dict<string>, GradientError>)
    ensures r.Failure? <==> units.Some?
    ensures r.Failure? ==> r.error == UndefinedName("gradientUnits")
    ensures r.Success? ==> forall kv :: kv in r.value ==> kv.0 != "gradientUnits"
  {
    if units.Some? then Failure(UndefinedName("gradientUnits"))
    else Success(GradientAttrs(pt1, pt2, repeat, None, template, transform, style))
  }

  /** Line 271 as evidently intended: `grad.set('gradientUnits', gradient_units)`. */
  function IntendedLinearGradientAttrs(pt1: Option<Coord>, pt2: Option<Coord>, repeat: Option<string>,
                                       units: Option<string>, template: Option<string>,
                                       transform: Option<string>, style: string)
    : (r: Dict<string>)
    ensures units.Some? ==> ("gradientUnits", units.value) in r
    ensures units.None? ==> LinearGradientAttrs(pt1, pt2, repeat, units, template, transform, style) == Success(r)
  {
    GradientAttrs(pt1, pt2, repeat, units, template, transform, style)
  }

  /** The as-written constructor rejects every units value the intended one accepts. */
  lemma GradientUnitsDiscrepancy(units: string)
    ensures LinearGradientAttrs(None, None, None, Some(units), None, None, "").Failure?
    ensures ("gradientUnits", units) in IntendedLinearGradientAttrs(None, None, None, Some(units), None, None, "")
  {
  }

  /**
   * Lines 264-269: the spread method is set exactly when a repeat name is
   * given, and holds its mapped name.
   */
  lemma SpreadAttr(pt1: Option<Coord>, pt2: Option<Coord>, repeat: Option<string>,
                   template: Option<string>, transform: Option<string>, style: string)
    ensures var r := LinearGradientAttrs(pt1, pt2, repeat, None, template, transform, style);
      && r.Success?
      && ((exists v :: ("spreadMethod", v) in r.value) <==> repeat.Some?)
      && (repeat.Some? ==> ("spreadMethod", RepeatToSpread(repeat.value)) in r.value)
  {
    var attrs := GradientAttrs(pt1, pt2, repeat, None, template, transform, style);
    if repeat.Some? {
      assert ("spreadMethod", RepeatToSpread(repeat.value)) in attrs;
    } else {
      var names := ["x1", "y1", "x2", "y2", "href", "xlink:href", "gradientTransform", "style"];
      forall kv | kv in attrs
        ensures kv.0 != "spreadMethod"
      {
        assert kv.0 in names;
        assert |kv.0| != |"spreadMethod"|;
      }
    }
  }

  /**
   * Lines 272-275 with 283-284: a template gradient with id `id` prints as
   * `url(#id)`, and both `href` and `xlink:href` come out as `#id`.
   */
  lemma TemplateHref(id: string, pt1: Option<Coord>, pt2: Option<Coord>, repeat: Option<string>,
                     transform: Option<string>, style: string)
    ensures var r := LinearGradientAttrs(pt1, pt2, repeat, None, Some(Url(id)), transform, style);
      && r.Success?
      && ("href", "#" + id) in r.value
      && ("xlink:href", "#" + id) in r.value
  {
    StripUrlInverse(id);
    var r := LinearGradientAttrs(pt1, pt2, repeat, None, Some(Url(id)), transform, style);
    assert ("href", "#" + id) in r.value;
    assert ("xlink:href", "#" + id) in r.value;
  }
}
