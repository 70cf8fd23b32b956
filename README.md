# Simple Inkscape Scripting: the scene-construction engine in Dafny

Simple Inkscape Scripting (`simple_inkscape_scripting.py`) lets a Python
script draw into an Inkscape document with calls such as `polyline`, `arc`,
`text`, `group` and `style`. Without the inkex element calls, the engine
behind those calls is a small piece of bookkeeping. It has five parts:

- **Id counter.** `unique_id` makes ids from a prefix and a counter.
- **Registry.** `_simple_objs` is the list of top-level objects. A group's
  `_children` are the objects it has taken from that list.
- **Defaults.** `_default_style` and `_default_transform` are the default
  style and transform that every new object picks up.
- **String and list logic.** This is the style resolver, the transform
  composer, filter-primitive argument normalisation and the linear-gradient
  attribute mapping.
- **Arc path synthesiser.** It turns two angles into a Move, a run of
  elliptical-arc segments and a closing tail.

The model has one module per concern:

- `Text`: joining, splitting, `_`→`-` renaming.
- `Ids`: decimal numerals, ids, the `url(#id)` form.
- `Dicts`: Python's insertion-ordered `dict`.
- `Styles`: `_construct_style`.
- `Transforms`: the transform join and `str.strip`.
- `Filters`: filter-primitive arguments.
- `Gradients`: linear-gradient attributes.
- `Arcs`: the arc path.
- `Ownership`: the top-level list and groups as a partition.
- `Scene`: the module-level state as a class.

`Scene.Scene` holds the counter, every object created, the top-level list,
each object's children, the two defaults and the messages reported through
`inkex.utils.errormsg`. Its methods are the API functions. Its invariant
`Valid` states four things:

- each object carries the id issued from its own counter value, and these
  values increase;
- every object is owned exactly once, either top-level or by one group;
- only groups have children;
- the global default style, like every Python dict, has no repeated keys.

Objects are referred to by handles: a handle is the position at which the
object was created.

## Model

| member | source | states |
|---|---|---|
| Scene.Scene.UniqueId | simple_inkscape_scripting.py:65-70 | returns the prefix followed by the decimal counter, bumps the counter by exactly one, and the id differs from the id of every object created so far |
| Ids.IdSuffix | simple_inkscape_scripting.py:68 | an id starts with the prefix, and the rest is the numeral of the counter it was made from, which reads back as that counter |
| Ids.IdsDistinct | simple_inkscape_scripting.py:65-70 | two different counter values give two different ids under one prefix |
| Ids.ParseDecimalInverse | simple_inkscape_scripting.py:68 | reading back the `%d` numeral of `n` gives `n` |
| Ids.DecimalInjective | simple_inkscape_scripting.py:68 | different numbers have different numerals |
| Scene.Scene.ObjectIdsDistinct | simple_inkscape_scripting.py:65-70 | in a valid scene, an earlier object's id differs from a later one's, and its numeric suffix is strictly smaller |
| Scene.AscendsAcross | simple_inkscape_scripting.py:69 | counter values that go up at each creation go up across any two creations |
| Scene.Scene.constructor | simple_inkscape_scripting.py:43-59 | a fresh scene: counter at 1, no objects, empty default style, no default transform, no messages; the invariant holds |
| Scene.Scene.Create | simple_inkscape_scripting.py:76-101 | exactly one object is appended with the next id, the transform composed from the call's and the default one, and the style resolved from the shape's, the global and the call's; it joins the end of the top-level list with no children; earlier objects, defaults and messages are unchanged; the invariant is kept |
| Scene.RegisterKeeps | simple_inkscape_scripting.py:97-101 | appending an object with the next id to the registry and the top-level list keeps the invariant |
| Ownership.Register | simple_inkscape_scripting.py:101 | a new object appended to the top-level list with no children keeps the ownership partition |
| Transforms.Compose | simple_inkscape_scripting.py:79-85 | no transform exactly when both are None or empty; `local + " " + default` when both are present; otherwise the one present |
| Ids.StripUrlInverse | simple_inkscape_scripting.py:103-107 | slicing `[5:-1]` of `url(#id)` gives back `id` |
| Ids.StripUrl | simple_inkscape_scripting.py:273 | Python's `s[5:-1]`, including the short strings where it is empty |
| Styles.StylePrecedence | simple_inkscape_scripting.py:109-130 | a property is in the resolved style iff the highest layer that mentions it gives it a value; its value comes from the call's style (after renaming, last assignment wins), else the global style, else the shape's; the result has no repeated keys |
| Styles.ShapeDefaultsFirst | simple_inkscape_scripting.py:111-116 | the merged properties start with the shape's defaults in their original order |
| Styles.CompactLookup | simple_inkscape_scripting.py:127 | dropping `None` values keeps exactly the properties with a value, with that value, and no repeated keys |
| Styles.Rename | simple_inkscape_scripting.py:119-124 | each keyword keeps its place and value, with `_` turned into `-` |
| Styles.Serialize | simple_inkscape_scripting.py:130 | the printed style is empty exactly when no property is left |
| Styles.Declarations | simple_inkscape_scripting.py:130 | one `key:value` declaration per property, in order |
| Styles.ParseSerialize | simple_inkscape_scripting.py:130 | reading back the printed style gives the same properties in the same order, when names contain neither `;` nor `:` and values contain no `;` |
| Styles.ParseDeclarationInverse | simple_inkscape_scripting.py:130 | splitting `key:value` at its first `:` recovers the pair |
| Styles.ParseAllDeclarations | simple_inkscape_scripting.py:130 | splitting every declaration recovers the property list |
| Dicts.OverlayLookup | simple_inkscape_scripting.py:116-124 | after `update` or a loop of assignments, a key is present iff either side had it; the last assignment wins; keys not assigned keep their value |
| Dicts.OverlayKeys | simple_inkscape_scripting.py:113-124 | assignments keep existing keys in place, append new keys after them, and never repeat a key |
| Dicts.SetKeys | simple_inkscape_scripting.py:122-124 | one assignment keeps the keys in place and appends a new key at the end without repeating keys |
| Dicts.Set | simple_inkscape_scripting.py:122-124 | `d[k] = v` overwrites in place or appends; afterwards `d[k]` is `v` and other keys keep their values |
| Dicts.LastIsGet | simple_inkscape_scripting.py:116 | in a dict without repeated keys, the last pair for a key is its value |
| Text.HyphenateIdempotent | simple_inkscape_scripting.py:120 | renaming twice is renaming once, and a name without `_` is unchanged |
| Text.Hyphenate | simple_inkscape_scripting.py:120 | same length; every `_` turned into `-`, every other character kept, so no `_` is left |
| Text.SplitJoin | simple_inkscape_scripting.py:130 | splitting a `;`-join gives back the parts when no part contains the separator |
| Text.SplitAfterFree | simple_inkscape_scripting.py:130 | a separator-free prefix extends the first piece of a split |
| Text.JoinEmpty | simple_inkscape_scripting.py:130 | a join is empty only for no parts or one empty part |
| Scene.Scene.Add | simple_inkscape_scripting.py:158-176 | a non-object or a non-top-level object is refused with a message and nothing else changes; otherwise the object leaves the top-level list and joins the end of the group's children; the invariant is kept |
| Ownership.AddCheck | simple_inkscape_scripting.py:162-170 | `add` accepts exactly an object that is currently top-level |
| Ownership.Absorb | simple_inkscape_scripting.py:172-175 | moving a top-level object into a group keeps the ownership partition |
| Scene.AbsorbKeeps | simple_inkscape_scripting.py:172-175 | the same step keeps the whole registry invariant |
| Ownership.Without | simple_inkscape_scripting.py:172 | the comprehension keeps exactly the elements other than the removed one |
| Ownership.WithoutAt | simple_inkscape_scripting.py:172 | removing an element that occurs once leaves the others in their order |
| Ownership.WithoutAbsent | simple_inkscape_scripting.py:172 | removing an absent element changes nothing |
| Ownership.WithoutNoDup | simple_inkscape_scripting.py:172 | removal keeps a list free of repeats |
| Ownership.SecondAddRejected | simple_inkscape_scripting.py:166-170 | after a successful `add`, adding the same object again is refused as already grouped |
| Ownership.OwnedExactlyOnce | simple_inkscape_scripting.py:101-175 | under the partition, each object occurs exactly once across the top-level list and all groups' children |
| Ownership.UnknownUnowned | simple_inkscape_scripting.py:101-175 | a handle that was never issued occurs nowhere |
| Ownership.CountNoDup | simple_inkscape_scripting.py:172 | in a list without repeats an element occurs once or not at all |
| Ownership.CountAllAtMostOne | simple_inkscape_scripting.py:175 | disjoint repeat-free children lists hold an object at most once in total |
| Scene.Scene.OwnedOnce | simple_inkscape_scripting.py:101-175 | in a valid scene every object is owned exactly once |
| Scene.Scene.Group | simple_inkscape_scripting.py:566-572 | a new group is registered like any object, then each argument is `add`ed in turn; the final top-level list, the group's children and the messages are those of the `add` sequence |
| Scene.Scene.AddAll | simple_inkscape_scripting.py:569-570 | the loop's end state is the result of applying `add` to each argument in order, with one message per refusal |
| Scene.TracksStep | simple_inkscape_scripting.py:569-570 | one loop step is one step of that sequence |
| Ownership.AbsorbAllMembers | simple_inkscape_scripting.py:566-572 | an object ends up in the group iff it was already there, or it was top-level and named in the arguments; it then leaves the top level, and nothing else does |
| Ownership.AbsorbAllErrors | simple_inkscape_scripting.py:566-572 | at most one message per argument, and none when every argument is a distinct top-level object |
| Ownership.AbsorbAllPartition | simple_inkscape_scripting.py:566-572 | grouping keeps the ownership partition |
| Ownership.AbsorbAllAccounted | simple_inkscape_scripting.py:566-572 | every argument is either appended to the group or answered by exactly one complaint; with no complaint, every argument was an object and the new children are their handles in argument order |
| Ownership.AbsorbAllInOrder | simple_inkscape_scripting.py:566-572 | distinct top-level objects all join the group in argument order, with no complaint |
| Scene.Rejections | simple_inkscape_scripting.py:162-170 | one message per refusal, in order: message i reports refusal i |
| Scene.Scene.AddPrimitive | simple_inkscape_scripting.py:210-243 | the element is `fe` + type; its attributes are the normalised arguments over a `result` named by a fresh id that no object has; the counter goes up by one |
| Filters.BuildPrimitiveArgs | simple_inkscape_scripting.py:212-236 | the loop fills `all_args` exactly as the specification `PrimitiveArgs` says |
| Filters.PrimitiveArgsLookup | simple_inkscape_scripting.py:212-236 | `result` comes first and holds the fresh id unless an argument overrides it; every other attribute is present iff some argument normalises to it, and holds the last such value; no key repeats |
| Filters.ArgsResolved | simple_inkscape_scripting.py:215-236 | no primitive handle survives, and every attribute other than `in` and `in2` is a plain string |
| Filters.ResolvedPreserved | simple_inkscape_scripting.py:212-236 | assigning resolved arguments into resolved attributes keeps them resolved |
| Filters.SetResolved | simple_inkscape_scripting.py:224-236 | one resolved assignment keeps the attributes resolved |
| Filters.SourceChain | simple_inkscape_scripting.py:215-224 | for any other arguments before it, a previous primitive given as the last `src1` becomes the `in` attribute holding its result name |
| Filters.NormaliseAll | simple_inkscape_scripting.py:216-236 | one normalised attribute per argument, in order |
| Gradients.SpreadNames | simple_inkscape_scripting.py:250-268 | `none`→`pad`, `reflected`→`reflect`, `direct`→`repeat`, any other name unchanged; the result is an SVG spread method iff the name is one of Inkscape's or SVG's; mapping twice is mapping once |
| Gradients.SpreadAttr | simple_inkscape_scripting.py:264-269 | `spreadMethod` is set iff a repeat name is given, and it holds the mapped name |
| Gradients.TemplateHref | simple_inkscape_scripting.py:272-275 | a template whose `str` is `url(#X)` yields both `href` and `xlink:href` equal to `#X` |
| Gradients.LinearGradientAttrs | simple_inkscape_scripting.py:254-281 | as written: fails with an undefined-name error exactly when `gradient_units` is given; otherwise no `gradientUnits` attribute is set |
| Gradients.IntendedLinearGradientAttrs | simple_inkscape_scripting.py:270-271 | as intended: a given units value is set as `gradientUnits`, and without one the result is the as-written one |
| Gradients.GradientUnitsDiscrepancy | simple_inkscape_scripting.py:270-271 | every units value the intended version records makes the as-written version fail |
| Scene.Scene.SetStyle | simple_inkscape_scripting.py:301-309 | the default style becomes the old one with each renamed keyword assigned in turn; the invariant is kept |
| Scene.Scene.SetTransform | simple_inkscape_scripting.py:312-315 | the default transform becomes `t` stripped |
| Transforms.StripShape | simple_inkscape_scripting.py:315 | the stripped string sits inside `t` with only whitespace around it, and starts and ends with a non-space |
| Transforms.Surrounded | simple_inkscape_scripting.py:315 | the shape of a strip, from the facts about its two halves |
| Transforms.StripIdempotent | simple_inkscape_scripting.py:315 | stripping twice is stripping once |
| Transforms.TrimStart | simple_inkscape_scripting.py:315 | `lstrip` leaves the suffix after the leading whitespace, starting with a non-space |
| Transforms.TrimEnd | simple_inkscape_scripting.py:315 | `rstrip` leaves the prefix before the trailing whitespace, ending with a non-space |
| Transforms.SpacesFrom | simple_inkscape_scripting.py:315 | the end of the whitespace run from a position |
| Transforms.SpacesUntil | simple_inkscape_scripting.py:315 | the start of the whitespace run up to a position |
| Scene.Scene.Line | simple_inkscape_scripting.py:357-362 | registers a line with the stroke-only default style |
| Scene.Scene.Polyline | simple_inkscape_scripting.py:365-372 | fewer than two points: one message and nothing else changes; otherwise a polyline with the `x,y` points joined by spaces is registered |
| Scene.Scene.Polygon | simple_inkscape_scripting.py:375-383 | fewer than three points: one message and nothing else changes; otherwise a polygon is registered |
| Scene.Scene.RegularPolygon | simple_inkscape_scripting.py:386-402 | fewer than three sides: one message and nothing else changes; otherwise a flat-sided star is registered |
| Scene.Scene.Star | simple_inkscape_scripting.py:405-428 | fewer than three sides: one message and nothing else changes; otherwise a star that is not flat-sided is registered |
| Scene.Scene.Path | simple_inkscape_scripting.py:474-482 | no path elements: one message and nothing else changes; otherwise a path with the elements joined by spaces is registered |
| Scene.Scene.Text | simple_inkscape_scripting.py:505-518 | registers a text with no shape style, recording the id of the path it follows, if any |
| Scene.Scene.MoreText | simple_inkscape_scripting.py:521-536 | unless the last top-level object is a text, one message and nothing else changes; otherwise that text alone gets one more span, styled from the default and the call's style, and is returned |
| Scene.ReplaceKeeps | simple_inkscape_scripting.py:534 | changing an object's element without changing its id or its being a group keeps the invariant |
| Scene.Scene.Arc | simple_inkscape_scripting.py:431-471 | registers an arc whose path, arc type and `open` flag are those `ArcDrawn` states; an invalid arc type is reported twice |
| Scene.ArcElement | simple_inkscape_scripting.py:436-468 | the arc element: the synthesised path, the arc type only when valid, `open` only for `arc`; and the messages it reports |
| Arcs.ArcPath | simple_inkscape_scripting.py:444-468 | the path is a Move to the start angle, `n` arc segments at evenly spaced angles with the last at the end of the sweep, then the closing tail; `open` iff the type is `arc`; an invalid type is reported |
| Arcs.AssembledArcPath | simple_inkscape_scripting.py:448-468 | a Move, the segments and the closing tail together form that path |
| Arcs.ArcSegments | simple_inkscape_scripting.py:454-458 | the loop emits `n` segments, segment `s` ending at angle `a1 + delta*(s+1)/n`, the last at `a1 + delta` |
| Arcs.Sweep | simple_inkscape_scripting.py:445-452 | the sweep lies in `(0, 2π]`, is `2π` exactly when the two normalised angles coincide, and carries the start angle onto the end angle modulo `2π` |
| Arcs.FloorMod | simple_inkscape_scripting.py:445-450 | Python's `%` with a positive modulus lies in `[0, m)` and differs from `x` by a whole multiple of `m` |
| Arcs.SegmentCountBounds | simple_inkscape_scripting.py:453 | `int((delta+π/2)/(π/2))` is `floor(delta/(π/2))+1`, at least one; `n-1` quarter turns are at most the sweep and `n` exceed it; each segment spans strictly less than `π/2` |
| Arcs.QuarterTurnMultiple | simple_inkscape_scripting.py:453 | a sweep of exactly `k` quarter turns gets `k+1` segments, so the count is not a ceiling |
| Arcs.SegmentAngles | simple_inkscape_scripting.py:455 | segment end angles step by `delta/n` from the start angle, and the last is the end of the sweep |
| Arcs.Closing | simple_inkscape_scripting.py:459-467 | `arc`: nothing; `slice`: Line to the centre then ZoneClose; `chord`: ZoneClose; any other type: nothing |
| Arcs.SweepExamples | simple_inkscape_scripting.py:445-452 | equal angles sweep the full ellipse in five segments; from 0 to π the sweep is π in three segments |
| Styles.Merge | simple_inkscape_scripting.py:113-124 | the merged dict starts with the shape's keys in their order, and has no repeated keys when the shape style has none |
| Styles.Compact | simple_inkscape_scripting.py:127 | never longer than its input; every property it keeps appears in the input with that value, not `None` (order: Styles.CompactConcat) |
| Styles.Resolve | simple_inkscape_scripting.py:113-127 | every resolved property is one the merged dict holds with a value other than `None` |
| Styles.ConstructStyle | simple_inkscape_scripting.py:109-130 | the style string is empty exactly when no property survives resolution |
| Gradients.RepeatToSpread | simple_inkscape_scripting.py:250-252 | Inkscape's three names map to an SVG spread method different from the name; any other name passes through unchanged (lines 265-268) |
| Gradients.GradientAttrs | simple_inkscape_scripting.py:258-280 | a units value given is recorded as `gradientUnits`; without one no attribute has that name |
| Ids.Decimal | simple_inkscape_scripting.py:68 | `%d`: a non-empty string of digits, with a leading `0` only for zero |
| Ids.IdOf | simple_inkscape_scripting.py:68 | the id is longer than the prefix and starts with it |
| Ids.Url | simple_inkscape_scripting.py:103-107 | `url(#` + id + `)`: six characters longer than the id, with the id between position 5 and the last character |
| Transforms.Strip | simple_inkscape_scripting.py:315 | never longer than `t`, and empty or starting and ending with a non-space |
| Arcs.Normalise | simple_inkscape_scripting.py:445-446 | the angle brought into `[0, 2π)` |
| Arcs.Trunc | simple_inkscape_scripting.py:453 | Python's `int()` on a real: the integer toward zero, within one of the argument |
| Arcs.SegmentCount | simple_inkscape_scripting.py:453 | a positive sweep gets at least one segment |
| Filters.Normalise | simple_inkscape_scripting.py:216-236 | `src1`/`src2` become `in`/`in2` holding a given primitive's result name, or any other value as given; every other name is the renamed keyword, holding a string kept verbatim, a sequence joined by spaces, or the `str` text of anything else; no primitive handle survives |
| Filters.PrimitiveArgs | simple_inkscape_scripting.py:212-236 | the attributes begin with `result` and have no repeated keys |
| Ownership.AbsorbAll | simple_inkscape_scripting.py:569-570 | at most one complaint per argument; the group's existing children stay first, in order |
| Scene.PointsText | simple_inkscape_scripting.py:370 | the points text is empty exactly when there are no points |
| Scene.MakeElement | simple_inkscape_scripting.py:76-99 | keeps the id, kind and connector flag; no transform attribute exactly when both transforms are blank; no style attribute exactly when no property survives, and never an empty one |
| Styles.CompactConcat | simple_inkscape_scripting.py:127 | compacting works pair by pair, so the kept properties stay in the merged dict's insertion order, which is the order they are printed in |
| Scene.Scene.Register | simple_inkscape_scripting.py:97-100 | the element holding id number `serial` is appended, joins the end of the top-level list with no children, and the invariant is kept |
| Dicts.Overlay | simple_inkscape_scripting.py:116-124 | `d.update(kvs)` or a loop of `d[k] = v`: the result has at least the keys of `d` and at most one new key per assignment (lookups: Dicts.OverlayLookup; key order: Dicts.OverlayKeys) |
| Dicts.Get | simple_inkscape_scripting.py:116-127 | `d[k]` for a present key: the value the dict holds for it after the updates (Dicts.GetIn, Dicts.LastIsGet) |
| Dicts.GetIn | simple_inkscape_scripting.py:116-127 | the value looked up is the one stored with the key |
| Text.Join | simple_inkscape_scripting.py:85 | `sep.join(parts)`: starts with the first part, followed by the separator when there is a second part (inverse: Text.SplitJoin) |
| Filters.Stringify | simple_inkscape_scripting.py:225-236 | a string is kept verbatim, a scalar becomes its `str` text, and a sequence's space-joined text splits back into its items when none contains a space |
| Filters.ResolveSource | simple_inkscape_scripting.py:222-224 | a primitive given as a source becomes the string of its result name; any other value is kept; no handle survives |
| Transforms.Present | simple_inkscape_scripting.py:80-83 | the transform is listed exactly when it is neither `None` nor empty, and then it is the only entry |
| Styles.Declaration | simple_inkscape_scripting.py:130 | `'%s:%s' % kv`: the key, a colon, then the value |
| Gradients.PointAttrs | simple_inkscape_scripting.py:258-263 | a point sets its two coordinate attributes and nothing else; no point sets nothing |
| Arcs.SegmentAngle | simple_inkscape_scripting.py:455 | the end angle of segment `s`: the start angle before the first segment, the end of the sweep after the last |
| Arcs.ValidArcType | simple_inkscape_scripting.py:436 | the three arc types `arc`, `slice` and `chord` |
| Scene.StyleAttribute | simple_inkscape_scripting.py:92-94 | an empty style string sets no `style` attribute; any other string is set as it is |
| Scene.Pairs | simple_inkscape_scripting.py:370 | one `x,y` string per point, in order |
| Scene.FollowsText | simple_inkscape_scripting.py:523-524 | there is a last top-level object and it is a text element |
| Scene.AppendSpan | simple_inkscape_scripting.py:529-535 | the text gains the span at the end of its spans; its id, transform, style, connector flag and other text fields are unchanged |
| Scene.ArcMessages | simple_inkscape_scripting.py:439 | no message for a valid arc type; otherwise exactly two, each reporting that type (lines 439 and 467) |

## Left out

- `image` is left out: it reads a file, re-encodes it with PIL and embeds it as base64, which is I/O and foreign-library work.
- `SimpleInkscapeScripting.generate` and `add_arguments` are left out. They are `exec` of user code, option parsing and host plumbing. Running the script corresponds to calling the `Scene.Scene` methods in order.
- `connector` is left out. It computes bounding-box centres in floating point, formats them with `%g`, and needs inkex bounding boxes.
- `circle`, `ellipse`, `rect`, `clone` and `inkex_object` build foreign inkex elements. Their bookkeeping is the same as `Scene.Scene.Create`'s with a different element, and is not repeated per function.
- `SimpleFilter.__init__`, `SimpleLinearGradient.add_stop` and the gradient's `style_str` go through `inkex.Style` serialisation, which is not part of this model. The model takes the style string as given.
- The inkex calls are left out: `set_id`, `bounding_box`, `PathElement.star`, `PathElement.arc`, `defs.add`, `add_primitive`, the lxml tree. The model records which element an object is and the attributes its contracts speak about, not the XML tree.
- Trigonometry and floating point are left out. π is any positive real and angles are exact reals. The point at an angle (`rx*cos(a) + cx`, `ry*sin(a) + cy`) is a function the caller supplies. Rounding of floats is not modelled. Neither are the star and regular-polygon angle parameters (`sodipodi:arg1`/`arg2`, rounding, randomisation).
- The random part of the id prefix (line 43) is left out; the prefix is a constructor parameter.
- `str()` of coordinates, scalars and sequence elements is left out. Such values enter the model already in their `str` form.
- Adding a group to itself, or creating a cycle of groups, is refused by lxml in the source. That exception is not modelled; the model keeps only the ownership bookkeeping.
- Scene.Scene.MoreText: `conn_avoid` is accepted and ignored by the source, so the model has no such parameter.
- Scene.Scene.MoreText: a text element made through `inkex_object` is not recognised as text here, because `inkex_object` is not modelled.
- Scene.Scene.Arc: the model reports an invalid arc type twice and still registers the object, as the code does.
- Gradients.LinearGradientAttrs: the `gradient_units` branch raises `NameError` as written. It is modelled as a failure and, corrected, as `Gradients.IntendedLinearGradientAttrs`; see Findings.

## Findings

| source | as written | input that shows it | evidently intended | confidence | as-written member | corrected member |
|---|---|---|---|---|---|---|
| simple_inkscape_scripting.py:270-271 | `grad.set('gradientUnits', gradientUnits)` reads the undefined name `gradientUnits`, so any `gradient_units` raises `NameError` | `linear_gradient(gradient_units='userSpaceOnUse')` | `grad.set('gradientUnits', gradient_units)`, recording the given units | high; not executed | Gradients.LinearGradientAttrs, Gradients.GradientUnitsDiscrepancy | Gradients.IntendedLinearGradientAttrs |
