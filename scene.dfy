/**
 * The state a drawing script builds up (simple_inkscape_scripting.py:43-62
 * and the API functions from line 298 on): the id counter, every object
 * created so far, which of them are still top-level and which belong to a
 * group, the default style and transform, and the messages reported to the
 * user. Objects are referred to by handles, the positions they were created
 * at.
 */
module Scene {
  import opened Wrappers
  import opened Text
  import opened Ids
  import opened Dicts
  import opened Styles
  import opened Transforms
  import opened Filters
  import opened Ownership
  import Arcs

  /** A `tspan` added by `more_text`: its text, its style string and optional position. */
  datatype Tspan = Tspan(msg: string, style: string, base: Option<Coord>)

  /** What kind of element an object wraps, with the attributes the model keeps. */
  datatype Kind =
    | Shape(tag: string)
    | PolylineShape(points: string)
    | PolygonShape(points: string)
    | StarShape(sides: int, flatsided: bool)
    | PathShape(d: string)
    | ArcShape(path: seq<Arcs.Segment>, arcType: Option<string>, open: bool)
    | TextShape(msg: string, base: Coord, onPath: Option<string>, spans: seq<Tspan>)
    | GroupShape

  /** An object: its id, element, `transform` and `style` attributes (absent as `None`) and connector avoidance. */
  datatype Element = Element(id: string, kind: Kind, transform: Option<string>, style: Option<string>,
                             connAvoid: bool)

  /** The messages `inkex.utils.errormsg` is called with. */
  datatype Error =
    | AddRejected(reason: AddError)
    | TooFewPolylinePoints
    | TooFewPolygonPoints
    | TooFewPolygonSides
    | TooFewStarPoints
    | EmptyPath
    | MoreTextNotAfterText
    | InvalidArcType(arcType: string)

  /** The messages for a run of refused `add` calls, one per refusal and in order. */
  function Rejections(es: seq<AddError>): (r: seq<Error>)
    ensures |r| == |es|
    ensures forall i :: 0 <= i < |es| ==> r[i] == AddRejected(es[i])
  {
    if es == [] then [] else [AddRejected(es[0])] + Rejections(es[1..])
  }

  lemma RejectionsCons(e: AddError, es: seq<AddError>)
    ensures Rejections([e] + es) == [AddRejected(e)] + Rejections(es)
  {
    assert ([e] + es)[1..] == es;
  }

  /** Lines 370 and 381: `' '.join(["%s,%s" % (str(x), str(y)) for x, y in coords])`. */
  function PointsText(coords: seq<Coord>): (s: string)
    ensures s == "" <==> coords == []
  {
    JoinEmpty(Pairs(coords), ' ');
    assert coords != [] ==> Pairs(coords)[0][|coords[0].0|] == ',';
    Join(Pairs(coords), ' ')
  }

  function Pairs(coords: seq<Coord>): (ps: seq<string>)
    ensures |ps| == |coords|
    ensures forall i :: 0 <= i < |coords| ==> ps[i] == coords[i].0 + "," + coords[i].1
  {
    if coords == [] then [] else [coords[0].0 + "," + coords[0].1] + Pairs(coords[1..])
  }

  /** Lines 93-94: an empty style string sets no `style` attribute. */
  function StyleAttribute(s: string): (a: Option<string>)
    ensures a.None? <==> s == ""
    ensures a.Some? ==> a.value == s
  {
    if s == "" then None else Some(s)
  }

  /** Lines 76-99: the element `SimpleObject.__init__` registers, given the defaults in force. */
  function MakeElement(id: string, kind: Kind, transform: Option<string>, connAvoid: bool,
                       shape: Layer, call: Layer, globalStyle: Layer, defaultTransform: Option<string>): (e: Element)
    ensures e.id == id && e.kind == kind && e.connAvoid == connAvoid
    ensures e.transform == None <==> Blank(transform) && Blank(defaultTransform)
    ensures e.style == None <==> Resolve(shape, globalStyle, call) == []
    ensures e.style != Some("")
  {
    Element(id, kind, Compose(transform, defaultTransform),
            StyleAttribute(ConstructStyle(shape, globalStyle, call)), connAvoid)
  }

  /** Each object carries the id issued from its serial; serials increase and stay below the counter. */
  ghost predicate IdsIssued(prefix: string, objects: seq<Element>, serials: seq<nat>, next: nat)
  {
    && |serials| == |objects|
    && (forall i :: 0 <= i < |objects| ==> objects[i].id == IdOf(prefix, serials[i]) && serials[i] < next)
    && (forall i :: 0 < i < |serials| ==> Ascends(serials, i))
  }

  /** The serial at `i` is above the one before it. */
  predicate Ascends(serials: seq<nat>, i: nat)
    requires 0 < i < |serials|
  {
    serials[i - 1] < serials[i]
  }

  /** Serials that go up at each step go up across any distance. */
  lemma {:induction false} AscendsAcross(serials: seq<nat>, i: nat, j: nat)
    requires forall k :: 0 < k < |serials| ==> Ascends(serials, k)
    requires i < j < |serials|
    ensures serials[i] < serials[j]
    decreases j - i
  {
    assert Ascends(serials, j);
    if i < j - 1 {
      AscendsAcross(serials, i, j - 1);
    }
  }

  /** Only groups have children. */
  predicate GroupsOnly(objects: seq<Element>, children: seq<seq<nat>>)
  {
    && |children| == |objects|
    && (forall i :: 0 <= i < |objects| && !objects[i].kind.GroupShape? ==> children[i] == [])
  }

  /** The registry's invariant: ids issued in order, every object owned exactly once, children only in groups. */
  ghost predicate Consistent(prefix: string, objects: seq<Element>, serials: seq<nat>, next: nat,
                             topLevel: seq<nat>, children: seq<seq<nat>>)
  {
    && IdsIssued(prefix, objects, serials, next)
    && Partition(|objects|, topLevel, children)
    && GroupsOnly(objects, children)
  }

  /** Registering an object with the next id keeps the registry consistent. */
  lemma RegisterKeeps(prefix: string, objects: seq<Element>, serials: seq<nat>, next: nat,
                      topLevel: seq<nat>, children: seq<seq<nat>>, e: Element)
    requires Consistent(prefix, objects, serials, next, topLevel, children)
    requires e.id == IdOf(prefix, next)
    ensures Consistent(prefix, objects + [e], serials + [next], next + 1,
                       topLevel + [|objects|], children + [[]])
  {
    Register(|objects|, topLevel, children);
    var objects', children', serials' := objects + [e], children + [[]], serials + [next];
    forall k | 0 < k < |serials'|
      ensures Ascends(serials', k)
    {
      if k < |serials| {
        assert Ascends(serials, k);
      }
    }
    forall i | 0 <= i < |objects'| && !objects'[i].kind.GroupShape?
      ensures children'[i] == []
    {
      if i < |objects| {
        assert objects'[i] == objects[i] && children'[i] == children[i];
      }
    }
  }

  /** Moving a top-level object into a group keeps the registry consistent. */
  lemma AbsorbKeeps(prefix: string, objects: seq<Element>, serials: seq<nat>, next: nat,
                    topLevel: seq<nat>, children: seq<seq<nat>>, g: nat, h: nat)
    requires Consistent(prefix, objects, serials, next, topLevel, children)
    requires g < |objects| && objects[g].kind.GroupShape? && h in topLevel
    ensures Consistent(prefix, objects, serials, next, Without(topLevel, h), children[g := children[g] + [h]])
  {
    Absorb(|objects|, topLevel, children, g, h);
  }

  /** Changing an object's element without changing its id or making it a group keeps the registry consistent. */
  lemma ReplaceKeeps(prefix: string, objects: seq<Element>, serials: seq<nat>, next: nat,
                     topLevel: seq<nat>, children: seq<seq<nat>>, t: nat, e: Element)
    requires Consistent(prefix, objects, serials, next, topLevel, children)
    requires t < |objects| && e.id == objects[t].id
    requires e.kind.GroupShape? == objects[t].kind.GroupShape?
    ensures Consistent(prefix, objects[t := e], serials, next, topLevel, children)
  {
    var objects' := objects[t := e];
    assert forall i :: 0 <= i < |objects| ==> objects'[i].id == objects[i].id;
    assert forall i :: 0 <= i < |objects| ==> objects'[i].kind.GroupShape? == objects[i].kind.GroupShape?;
  }

  /** `more_text` appends a span to a text object. */
  function AppendSpan(e: Element, span: Tspan): (r: Element)
    requires e.kind.TextShape?
    ensures r.kind.TextShape? && r.kind.spans == e.kind.spans + [span]
    ensures r.id == e.id && r.transform == e.transform && r.style == e.style && r.connAvoid == e.connAvoid
    ensures r.kind.(spans := e.kind.spans) == e.kind
  {
    e.(kind := e.kind.(spans := e.kind.spans + [span]))
  }

  /** Line 524: the last top-level object exists and is a text element. */
  predicate FollowsText(objects: seq<Element>, topLevel: seq<nat>)
  {
    && |topLevel| > 0
    && topLevel[|topLevel| - 1] < |objects|
    && objects[topLevel[|topLevel| - 1]].kind.TextShape?
  }

  /**
   * Part way through `group()`'s loop: running the remaining arguments from
   * this state ends where running all of them from the start does.
   */
  ghost predicate Tracks(top: seq<nat>, mine: seq<nat>, errs: seq<Error>, args: seq<Arg>,
                         final: Absorbed, base: seq<Error>)
  {
    var r := AbsorbAll(top, mine, args);
    && r.top == final.top && r.mine == final.mine
    && errs + Rejections(r.errors) == base + Rejections(final.errors)
  }

  /** One `add` of `group()`'s loop, as a step of `AbsorbAll`. */
  lemma TracksStep(top: seq<nat>, mine: seq<nat>, errs: seq<Error>, args: seq<Arg>, i: nat,
                   final: Absorbed, base: seq<Error>)
    requires i < |args| && Tracks(top, mine, errs, args[i..], final, base)
    ensures match AddCheck(top, args[i])
      case Some(e) => Tracks(top, mine, errs + [AddRejected(e)], args[i + 1..], final, base)
      case None => Tracks(Without(top, args[i].handle), mine + [args[i].handle], errs, args[i + 1..], final, base)
  {
    var a, rest := args[i], args[i + 1..];
    assert args[i..] == [a] + rest;
    AbsorbAllStep(top, mine, a, rest);
    if AddCheck(top, a).Some? {
      var e := AddCheck(top, a).value;
      var later := Rejections(AbsorbAll(top, mine, rest).errors);
      RejectionsCons(e, AbsorbAll(top, mine, rest).errors);
      assert (errs + [AddRejected(e)]) + later == errs + ([AddRejected(e)] + later);
    }
  }

  /** What `arc` reports for an arc type: nothing, or the same message twice. */
  function ArcMessages(arcType: string): (ms: seq<Error>)
    ensures ms == [] <==> Arcs.ValidArcType(arcType)
    ensures |ms| == (if Arcs.ValidArcType(arcType) then 0 else 2)
    ensures forall m :: m in ms ==> m == InvalidArcType(arcType)
  {
    if Arcs.ValidArcType(arcType) then [] else [InvalidArcType(arcType), InvalidArcType(arcType)]
  }

  /**
   * The element `arc` draws: the path of the arc, the arc type recorded only
   * when it is valid and `sodipodi:open` only for `arc`.
   */
  ghost predicate ArcDrawn(kind: Kind, center: Arcs.Point, rx: real, ry: real, ang1: real, ang2: real,
                           arcType: string, pi: real, at: real -> Arcs.Point)
    requires pi > 0.0
  {
    && kind.ArcShape?
    && Arcs.IsArcPath(kind.path, center, rx, ry, ang1, ang2, arcType, pi, at)
    && kind.arcType == (if Arcs.ValidArcType(arcType) then Some(arcType) else None)
    && (kind.open <==> arcType == "arc")
  }

  /**
   * Lines 436-467: the arc element and the messages reported on the way
   * (line 440 for the attribute, line 467 for the path).
   */
  method ArcElement(center: Arcs.Point, rx: real, ry: real, ang1: real, ang2: real, arcType: string,
                    pi: real, at: real -> Arcs.Point)
    returns (kind: Kind, messages: seq<Error>)
    requires pi > 0.0
    ensures ArcDrawn(kind, center, rx, ry, ang1, ang2, arcType, pi, at)
    ensures messages == ArcMessages(arcType)
  {
    var typeAttr: Option<string> := None;
    messages := [];
    if arcType == "arc" || arcType == "slice" || arcType == "chord" {
      typeAttr := Some(arcType);
    } else {
      messages := [InvalidArcType(arcType)];
    }
    var path, open, reported := Arcs.ArcPath(center, rx, ry, ang1, ang2, arcType, pi, at);
    if reported {
      messages := messages + [InvalidArcType(arcType)];
    }
    kind := ArcShape(path, typeAttr, open);
  }

  class Scene {
    /** `_id_prefix` (line 43); its random part is left to the caller. */
    const prefix: string
    /** `_next_obj_id` (line 46). */
    var nextId: nat
    /** Every object created, by handle. */
    var objects: seq<Element>
    /** The counter value each object's id was issued from. */
    ghost var serials: seq<nat>
    /** `_simple_objs` (line 49): the handles of the objects not in a group, in order. */
    var topLevel: seq<nat>
    /** `_children` of each object (line 142); empty for a non-group. */
    var children: seq<seq<nat>>
    /** `_default_style` (line 52). */
    var defaultStyle: Layer
    /** `_default_transform` (line 59). */
    var defaultTransform: Option<string>
    /** Everything reported through `inkex.utils.errormsg`, in order. */
    var errors: seq<Error>

    ghost predicate Valid()
      reads this
    {
      && Consistent(prefix, objects, serials, nextId, topLevel, children)
      && WellFormed(defaultStyle)
    }

    /** Lines 43-62: a fresh run with no objects and empty defaults. */
    constructor (prefix: string)
      ensures Valid()
      ensures this.prefix == prefix && nextId == 1
      ensures objects == [] && topLevel == [] && children == []
      ensures defaultStyle == [] && defaultTransform == None && errors == []
    {
      this.prefix := prefix;
      nextId := 1;
      objects := [];
      serials := [];
      topLevel := [];
      children := [];
      defaultStyle := [];
      defaultTransform := None;
      errors := [];
    }

    twostate predicate DefaultsKept()
      reads this
    {
      defaultStyle == old(defaultStyle) && defaultTransform == old(defaultTransform)
    }

    twostate predicate RegistryKept()
      reads this
    {
      && nextId == old(nextId) && objects == old(objects) && serials == old(serials)
      && topLevel == old(topLevel) && children == old(children)
    }

    /**
     * Lines 97-100: exactly one new object, with the next id and the element
     * built from the defaults in force, joins the end of the top-level list;
     * nothing before it changes.
     */
    twostate predicate Registered(kind: Kind, transform: Option<string>, connAvoid: bool, shape: Layer, call: Layer)
      reads this
    {
      && objects == old(objects) + [MakeElement(IdOf(prefix, old(nextId)), kind, transform, connAvoid,
                                                shape, call, old(defaultStyle), old(defaultTransform))]
      && topLevel == old(topLevel) + [|old(objects)|]
      && children == old(children) + [[]]
      && nextId == old(nextId) + 1
      && DefaultsKept()
    }

    /** A guard's outcome: one message reported and nothing else changed. */
    twostate predicate Rejected(e: Error)
      reads this
    {
      errors == old(errors) + [e] && RegistryKept() && DefaultsKept()
    }

    /**
     * `unique_id` (lines 65-70): the prefix followed by the counter, which
     * then goes up by one. The id differs from every object's id so far.
     */
    method UniqueId() returns (id: string)
      requires Valid()
      modifies this`nextId
      ensures id == IdOf(prefix, old(nextId)) && nextId == old(nextId) + 1
      ensures forall i :: 0 <= i < |objects| ==> objects[i].id != id
    {
      id := IdOf(prefix, nextId);
      forall i | 0 <= i < |objects|
        ensures objects[i].id != id
      {
        IdsDistinct(prefix, serials[i], nextId);
      }
      nextId := nextId + 1;
    }

    /** `SimpleObject.__init__` (lines 76-101). */
    method Create(kind: Kind, transform: Option<string>, connAvoid: bool, shape: Layer, call: Layer)
      returns (h: nat)
      requires Valid()
      modifies this`nextId, this`objects, this`serials, this`topLevel, this`children
      ensures Valid()
      ensures h == old(|objects|)
      ensures Registered(kind, transform, connAvoid, shape, call)
      ensures errors == old(errors)
    {
      var serial := nextId;
      var id := UniqueId();
      var e := MakeElement(id, kind, transform, connAvoid, shape, call, defaultStyle, defaultTransform);
      h := Register(e, serial);
    }

    /**
     * Lines 97-100: the element that took id number `serial` is stored, and
     * the new object joins the end of the top-level list with no children.
     */
    method Register(e: Element, serial: nat) returns (h: nat)
      requires Consistent(prefix, objects, serials, serial, topLevel, children) && WellFormed(defaultStyle)
      requires nextId == serial + 1 && e.id == IdOf(prefix, serial)
      modifies this`objects, this`serials, this`topLevel, this`children
      ensures Valid()
      ensures h == old(|objects|)
      ensures objects == old(objects) + [e] && topLevel == old(topLevel) + [h] && children == old(children) + [[]]
    {
      h := |objects|;
      RegisterKeeps(prefix, objects, serials, serial, topLevel, children, e);
      objects := objects + [e];
      serials := serials + [serial];
      topLevel := topLevel + [h];
      children := children + [[]];
    }

    /**
     * `SimpleGroup.add` (lines 158-176) on group `g`: anything but an object,
     * or an object that is not top-level, is refused with a message and
     * changes nothing; otherwise the object leaves the top-level list, the
     * others keeping their order, and joins the end of the group's children.
     */
    method Add(g: nat, a: Arg)
      requires Valid() && g < |objects| && objects[g].kind.GroupShape?
      requires a.Obj? ==> a.handle < |objects|
      modifies this`topLevel, this`children, this`errors
      ensures Valid()
      ensures match AddCheck(old(topLevel), a)
        case Some(e) =>
          errors == old(errors) + [AddRejected(e)] && topLevel == old(topLevel) && children == old(children)
        case None =>
          && errors == old(errors)
          && topLevel == Without(old(topLevel), a.handle)
          && children == old(children)[g := old(children)[g] + [a.handle]]
    {
      if a.NotAnObject? {
        errors := errors + [AddRejected(NotSimpleObject)];
        return;
      }
      var h := a.handle;
      if h !in topLevel {
        errors := errors + [AddRejected(AlreadyGrouped)];
        return;
      }
      AbsorbKeeps(prefix, objects, serials, nextId, topLevel, children, g, h);
      topLevel := Without(topLevel, h);
      children := children[g := children[g] + [h]];
    }

    /**
     * `group` (lines 566-572): a new group, registered like any object, then
     * `add` for each argument in turn.
     */
    method Group(objs: seq<Arg>, transform: Option<string>, connAvoid: bool, call: Layer) returns (g: nat)
      requires Valid()
      requires forall a :: a in objs && a.Obj? ==> a.handle < |objects|
      modifies this
      ensures Valid()
      ensures g == old(|objects|)
      ensures var r := AbsorbAll(old(topLevel) + [g], [], objs);
        && objects == old(objects) + [MakeElement(IdOf(prefix, old(nextId)), GroupShape, transform, connAvoid,
                                                  [], call, old(defaultStyle), old(defaultTransform))]
        && nextId == old(nextId) + 1
        && topLevel == r.top
        && children == (old(children) + [[]])[g := r.mine]
        && errors == old(errors) + Rejections(r.errors)
        && DefaultsKept()
    {
      g := Create(GroupShape, transform, connAvoid, [], call);
      AddAll(g, objs);
    }

    /** Lines 569-570: `add` for each argument in turn, on group `g`. */
    method AddAll(g: nat, objs: seq<Arg>)
      requires Valid() && g < |objects| && objects[g].kind.GroupShape?
      requires forall a :: a in objs && a.Obj? ==> a.handle < |objects|
      modifies this`topLevel, this`children, this`errors
      ensures Valid()
      ensures var r := AbsorbAll(old(topLevel), old(children)[g], objs);
        && topLevel == r.top
        && children == old(children)[g := r.mine]
        && errors == old(errors) + Rejections(r.errors)
    {
      ghost var final := AbsorbAll(topLevel, children[g], objs);
      var i := 0;
      while i < |objs|
        invariant 0 <= i <= |objs|
        invariant Valid()
        invariant children == old(children)[g := children[g]]
        invariant Tracks(topLevel, children[g], errors, objs[i..], final, old(errors))
      {
        TracksStep(topLevel, children[g], errors, objs, i, final, old(errors));
        assert objs[i] in objs;
        Add(g, objs[i]);
        i := i + 1;
      }
    }

    /** `style` (lines 301-309): each keyword, hyphenated, is set in the default style in turn. */
    method SetStyle(kwargs: Layer)
      requires Valid()
      modifies this`defaultStyle
      ensures Valid()
      ensures defaultStyle == Overlay(old(defaultStyle), Rename(kwargs))
    {
      var i := 0;
      while i < |kwargs|
        invariant 0 <= i <= |kwargs|
        invariant Overlay(defaultStyle, Rename(kwargs[i..])) == Overlay(old(defaultStyle), Rename(kwargs))
      {
        var k := Hyphenate(kwargs[i].0);
        var v := kwargs[i].1;
        if v.None? {
          defaultStyle := Set(defaultStyle, k, None);
        } else {
          defaultStyle := Set(defaultStyle, k, Some(v.value));
        }
        assert Rename(kwargs[i..])[0] == (k, v);
        assert Rename(kwargs[i..])[1..] == Rename(kwargs[i + 1..]);
        i := i + 1;
      }
      OverlayKeys(old(defaultStyle), Rename(kwargs));
    }

    /** `transform` (lines 312-315): the default transform becomes `t` without surrounding whitespace. */
    method SetTransform(t: string)
      requires Valid()
      modifies this`defaultTransform
      ensures Valid()
      ensures defaultTransform == Some(Strip(t))
    {
      defaultTransform := Some(Strip(t));
    }

    /** `polyline` (lines 365-372): fewer than two points is reported and draws nothing. */
    method Polyline(coords: seq<Coord>, transform: Option<string>, connAvoid: bool, call: Layer)
      returns (h: Option<nat>)
      requires Valid()
      modifies this
      ensures Valid()
      ensures |coords| < 2 ==> h == None && Rejected(TooFewPolylinePoints)
      ensures |coords| >= 2 ==>
        && h == Some(old(|objects|)) && errors == old(errors)
        && Registered(PolylineShape(PointsText(coords)), transform, connAvoid, CommonShapeStyle, call)
    {
      if |coords| < 2 {
        errors := errors + [TooFewPolylinePoints];
        return None;
      }
      var n := Create(PolylineShape(PointsText(coords)), transform, connAvoid, CommonShapeStyle, call);
      h := Some(n);
    }

    /** `polygon` (lines 375-383): fewer than three points is reported and draws nothing. */
    method Polygon(coords: seq<Coord>, transform: Option<string>, connAvoid: bool, call: Layer)
      returns (h: Option<nat>)
      requires Valid()
      modifies this
      ensures Valid()
      ensures |coords| < 3 ==> h == None && Rejected(TooFewPolygonPoints)
      ensures |coords| >= 3 ==>
        && h == Some(old(|objects|)) && errors == old(errors)
        && Registered(PolygonShape(PointsText(coords)), transform, connAvoid, CommonShapeStyle, call)
    {
      if |coords| < 3 {
        errors := errors + [TooFewPolygonPoints];
        return None;
      }
      var n := Create(PolygonShape(PointsText(coords)), transform, connAvoid, CommonShapeStyle, call);
      h := Some(n);
    }

    /** `regular_polygon` (lines 386-402): fewer than three sides is reported and draws nothing. */
    method RegularPolygon(sides: int, transform: Option<string>, connAvoid: bool, call: Layer)
      returns (h: Option<nat>)
      requires Valid()
      modifies this
      ensures Valid()
      ensures sides < 3 ==> h == None && Rejected(TooFewPolygonSides)
      ensures sides >= 3 ==>
        && h == Some(old(|objects|)) && errors == old(errors)
        && Registered(StarShape(sides, true), transform, connAvoid, CommonShapeStyle, call)
    {
      if sides < 3 {
        errors := errors + [TooFewPolygonSides];
        return None;
      }
      var n := Create(StarShape(sides, true), transform, connAvoid, CommonShapeStyle, call);
      h := Some(n);
    }

    /** `star` (lines 405-428): fewer than three points is reported and draws nothing. */
    method Star(sides: int, transform: Option<string>, connAvoid: bool, call: Layer)
      returns (h: Option<nat>)
      requires Valid()
      modifies this
      ensures Valid()
      ensures sides < 3 ==> h == None && Rejected(TooFewStarPoints)
      ensures sides >= 3 ==>
        && h == Some(old(|objects|)) && errors == old(errors)
        && Registered(StarShape(sides, false), transform, connAvoid, CommonShapeStyle, call)
    {
      if sides < 3 {
        errors := errors + [TooFewStarPoints];
        return None;
      }
      var n := Create(StarShape(sides, false), transform, connAvoid, CommonShapeStyle, call);
      h := Some(n);
    }

    /** `path` (lines 474-482): no path elements is reported and draws nothing. */
    method Path(elts: seq<string>, transform: Option<string>, connAvoid: bool, call: Layer)
      returns (h: Option<nat>)
      requires Valid()
      modifies this
      ensures Valid()
      ensures |elts| == 0 ==> h == None && Rejected(EmptyPath)
      ensures |elts| > 0 ==>
        && h == Some(old(|objects|)) && errors == old(errors)
        && Registered(PathShape(Join(elts, ' ')), transform, connAvoid, CommonShapeStyle, call)
    {
      if |elts| == 0 {
        errors := errors + [EmptyPath];
        return None;
      }
      var n := Create(PathShape(Join(elts, ' ')), transform, connAvoid, CommonShapeStyle, call);
      h := Some(n);
    }

    /** `line` (lines 357-362): the only shape whose default style has no `fill`. */
    method Line(transform: Option<string>, connAvoid: bool, call: Layer) returns (h: nat)
      requires Valid()
      modifies this
      ensures Valid()
      ensures h == old(|objects|) && errors == old(errors)
      ensures Registered(Shape("line"), transform, connAvoid, LineShapeStyle, call)
    {
      h := Create(Shape("line"), transform, connAvoid, LineShapeStyle, call);
    }

    /** `text` (lines 505-518): no default shape style; along a path, the path's id is recorded. */
    method Text(msg: string, base: Coord, onPath: Option<nat>, transform: Option<string>, connAvoid: bool,
                call: Layer) returns (h: nat)
      requires Valid()
      requires onPath.Some? ==> onPath.value < |objects|
      modifies this
      ensures Valid()
      ensures h == old(|objects|) && errors == old(errors)
      ensures var pathId := if onPath.Some? then Some(old(objects)[onPath.value].id) else None;
        Registered(TextShape(msg, base, pathId, []), transform, connAvoid, [], call)
    {
      var pathId: Option<string> := None;
      if onPath.Some? {
        pathId := Some(objects[onPath.value].id);
      }
      h := Create(TextShape(msg, base, pathId, []), transform, connAvoid, [], call);
    }

    /**
     * `more_text` (lines 521-536): unless the last top-level object is a
     * text, a message is reported and nothing changes; otherwise that text
     * gets one more span, styled from the default style and the call's
     * style only, and is returned.
     */
    method MoreText(msg: string, base: Option<Coord>, call: Layer) returns (h: Option<nat>)
      requires Valid()
      modifies this`objects, this`errors
      ensures Valid()
      ensures !FollowsText(old(objects), old(topLevel)) ==>
        h == None && errors == old(errors) + [MoreTextNotAfterText] && objects == old(objects)
      ensures FollowsText(old(objects), old(topLevel)) ==>
        var t := topLevel[|topLevel| - 1];
        && h == Some(t) && errors == old(errors)
        && objects == old(objects)[t := AppendSpan(old(objects)[t], Tspan(msg, ConstructStyle([], defaultStyle, call), base))]
    {
      if |topLevel| > 0 {
        assert topLevel[|topLevel| - 1] in topLevel;
      }
      if |topLevel| == 0 || !objects[topLevel[|topLevel| - 1]].kind.TextShape? {
        errors := errors + [MoreTextNotAfterText];
        return None;
      }
      var t := topLevel[|topLevel| - 1];
      var span := Tspan(msg, ConstructStyle([], defaultStyle, call), base);
      ReplaceKeeps(prefix, objects, serials, nextId, topLevel, children, t, AppendSpan(objects[t], span));
      objects := objects[t := AppendSpan(objects[t], span)];
      h := Some(t);
    }

    /**
     * `arc` (lines 431-471): the path of the arc, the arc type recorded only
     * when it is valid, `sodipodi:open` only for `arc`; an invalid type is
     * reported twice (lines 440 and 467) and the object is still drawn.
     */
    method Arc(center: Arcs.Point, rx: real, ry: real, ang1: real, ang2: real, arcType: string,
               pi: real, at: real -> Arcs.Point, transform: Option<string>, connAvoid: bool, call: Layer)
      returns (h: nat)
      requires Valid() && pi > 0.0
      modifies this
      ensures Valid()
      ensures h == old(|objects|) && |objects| == h + 1
      ensures ArcDrawn(objects[h].kind, center, rx, ry, ang1, ang2, arcType, pi, at)
      ensures Registered(objects[h].kind, transform, connAvoid, CommonShapeStyle, call)
      ensures errors == old(errors) + ArcMessages(arcType)
    {
      var kind, messages := ArcElement(center, rx, ry, ang1, ang2, arcType, pi, at);
      errors := errors + messages;
      h := Create(kind, transform, connAvoid, CommonShapeStyle, call);
      assert objects[h].kind == kind;
    }

    /**
     * `SimpleFilter.add` with `SimpleFilterPrimitive.__init__` (lines
     * 210-243): the element is `fe` followed by the type, and its attributes
     * start from a `result` named by a fresh id, unlike any object's.
     */
    method AddPrimitive(ftype: string, kwargs: Dict<ArgValue>) returns (tag: string, args: Dict<ArgValue>)
      requires Valid()
      modifies this`nextId
      ensures Valid()
      ensures nextId == old(nextId) + 1
      ensures tag == "fe" + ftype
      ensures args == PrimitiveArgs(IdOf(prefix, old(nextId)), kwargs)
      ensures forall i :: 0 <= i < |objects| ==> objects[i].id != IdOf(prefix, old(nextId))
    {
      var result := UniqueId();
      args := BuildPrimitiveArgs(result, kwargs);
      tag := "fe" + ftype;
    }

    /** Objects' ids are pairwise distinct, and their numeric suffixes grow in creation order. */
    lemma ObjectIdsDistinct(i: nat, j: nat)
      requires Valid() && i < j < |objects|
      ensures objects[i].id != objects[j].id
      ensures ParseDecimal(objects[i].id[|prefix|..]) < ParseDecimal(objects[j].id[|prefix|..])
    {
      AscendsAcross(serials, i, j);
      IdsDistinct(prefix, serials[i], serials[j]);
      IdSuffix(prefix, serials[i]);
      IdSuffix(prefix, serials[j]);
    }

    /** Every object is owned exactly once: top-level or by one group. */
    lemma OwnedOnce(h: nat)
      requires Valid() && h < |objects|
      ensures Occurrences(topLevel, children, h) == 1
    {
      OwnedExactlyOnce(|objects|, topLevel, children, h);
    }
  }
}
