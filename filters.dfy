/**
 * Filter-primitive argument normalisation, `SimpleFilterPrimitive.__init__`
 * (simple_inkscape_scripting.py:210-239): keyword arguments become the
 * primitive's attributes, with a fresh `result` name first.
 */
module Filters {
  import opened Text
  import opened Dicts

  /**
   * A keyword argument's value, told apart the way lines 222-236 tell it:
   * a string, a non-string sequence (its elements already passed through
   * `str`), any other value (its `str` form), or another primitive (the
   * `result` it was created with, and its default `str` form).
   */
  datatype ArgValue =
    | Str(s: string)
    | Items(elems: seq<string>)
    | Scalar(text: string)
    | PrimRef(result: string, text: string)

  /** Lines 215 and 218: `src1` and `src2` stand for `in` and `in2`. */
  predicate IsSource(k: string)
  {
    k == "src1" || k == "src2"
  }

  function SourceAttribute(k: string): string
    requires IsSource(k)
  {
    if k == "src1" then "in" else "in2"
  }

  /** Lines 222-224: a primitive given as a source stands for its result name; anything else is kept as given. */
  function ResolveSource(v: ArgValue): (r: ArgValue)
    ensures !r.PrimRef?
    ensures v.PrimRef? ==> r == Str(v.result)
    ensures !v.PrimRef? ==> r == v
  {
    if v.PrimRef? then Str(v.result) else v
  }

  /** Lines 225-236: strings verbatim, sequences space-joined, everything else through `str`. */
  function Stringify(v: ArgValue): (s: string)
    ensures v.Str? ==> s == v.s
    ensures v.Scalar? ==> s == v.text
    ensures v.Items? && |v.elems| >= 1 && (forall e :: e in v.elems ==> ' ' !in e) ==> Split(s, ' ') == v.elems
  {
    assert v.Items? && |v.elems| >= 1 && (forall e :: e in v.elems ==> ' ' !in e) ==>
             Split(Join(v.elems, ' '), ' ') == v.elems by {
      if v.Items? && |v.elems| >= 1 && (forall e :: e in v.elems ==> ' ' !in e) {
        SplitJoin(v.elems, ' ');
      }
    }
    match v
    case Str(s) => s
    case Items(elems) => Join(elems, ' ')
    case Scalar(text) => text
    case PrimRef(_, text) => text
  }

  /** The attribute one keyword argument turns into. */
  function Normalise(kv: (string, ArgValue)): (r: (string, ArgValue))
    ensures !r.1.PrimRef?
    ensures r.0 != "in" && r.0 != "in2" ==> r.1.Str?
    ensures IsSource(Hyphenate(kv.0)) ==> r.0 == SourceAttribute(Hyphenate(kv.0))
    ensures !IsSource(Hyphenate(kv.0)) ==> r.0 == Hyphenate(kv.0)
    ensures IsSource(Hyphenate(kv.0)) && kv.1.PrimRef? ==> r.1 == Str(kv.1.result)
    ensures IsSource(Hyphenate(kv.0)) && !kv.1.PrimRef? ==> r.1 == kv.1
    ensures !IsSource(Hyphenate(kv.0)) && kv.1.Str? ==> r.1 == kv.1
    ensures !IsSource(Hyphenate(kv.0)) && kv.1.Items? ==> r.1 == Str(Join(kv.1.elems, ' '))
    ensures !IsSource(Hyphenate(kv.0)) && (kv.1.Scalar? || kv.1.PrimRef?) ==> r.1 == Str(kv.1.text)
  {
    var k := Hyphenate(kv.0);
    if IsSource(k) then (SourceAttribute(k), ResolveSource(kv.1)) else (k, Str(Stringify(kv.1)))
  }

  function NormaliseAll(kwargs: Dict<ArgValue>): (r: Dict<ArgValue>)
    ensures |r| == |kwargs|
    ensures forall i :: 0 <= i < |r| ==> r[i] == Normalise(kwargs[i])
  {
    if kwargs == [] then [] else [Normalise(kwargs[0])] + NormaliseAll(kwargs[1..])
  }

  lemma {:induction false} NormaliseAllAppend(xs: Dict<ArgValue>, ys: Dict<ArgValue>)
    ensures NormaliseAll(xs + ys) == NormaliseAll(xs) + NormaliseAll(ys)
    decreases |xs|
  {
    if xs == [] {
      assert xs + ys == ys;
    } else {
      assert (xs + ys)[0] == xs[0] && (xs + ys)[1..] == xs[1..] + ys;
      NormaliseAllAppend(xs[1..], ys);
    }
  }

  /** Lines 212-236: the attributes `all_args` handed to the filter, given the fresh result name. */
  function PrimitiveArgs(result: string, kwargs: Dict<ArgValue>): (r: Dict<ArgValue>)
    ensures |r| >= 1 && Keys(r)[0] == "result" && WellFormed(r)
  {
    OverlayKeys([("result", Str(result))], NormaliseAll(kwargs));
    Overlay([("result", Str(result))], NormaliseAll(kwargs))
  }

  /** Lines 212-236 as the loop that fills `all_args`. */
  method BuildPrimitiveArgs(result: string, kwargs: Dict<ArgValue>) returns (args: Dict<ArgValue>)
    ensures args == PrimitiveArgs(result, kwargs)
  {
    args := [("result", Str(result))];
    var i := 0;
    while i < |kwargs|
      invariant 0 <= i <= |kwargs|
      invariant Overlay(args, NormaliseAll(kwargs[i..])) == PrimitiveArgs(result, kwargs)
    {
      var k := Hyphenate(kwargs[i].0);
      var v := kwargs[i].1;
      if IsSource(k) {
        if v.PrimRef? {
          v := Str(v.result);
        }
        args := Set(args, SourceAttribute(k), v);
      } else if v.Str? {
        args := Set(args, k, v);
      } else if v.Items? {
        args := Set(args, k, Str(Join(v.elems, ' ')));
      } else {
        args := Set(args, k, Str(v.text));
      }
      assert NormaliseAll(kwargs[i..])[0] == Normalise(kwargs[i]);
      assert NormaliseAll(kwargs[i..])[1..] == NormaliseAll(kwargs[i + 1..]);
      i := i + 1;
    }
  }

  /**
   * The primitive's attributes: `result` always comes first and defaults to
   * the fresh name; every other attribute is the last argument that
   * normalises to its name.
   */
  lemma PrimitiveArgsLookup(result: string, kwargs: Dict<ArgValue>, k: string)
    ensures var args := PrimitiveArgs(result, kwargs);
      && |args| >= 1 && Keys(args)[0] == "result" && WellFormed(args)
      && (k in Keys(args) <==> k == "result" || k in Keys(NormaliseAll(kwargs)))
      && (k in Keys(NormaliseAll(kwargs)) ==> Get(args, k) == Last(NormaliseAll(kwargs), k))
      && (k == "result" && k !in Keys(NormaliseAll(kwargs)) ==> Get(args, k) == Str(result))
  {
    var init: Dict<ArgValue> := [("result", Str(result))];
    OverlayKeys(init, NormaliseAll(kwargs));
    OverlayLookup(init, NormaliseAll(kwargs), k);
  }

  /**
   * No primitive handle survives into the attributes, and every attribute
   * other than `in` and `in2` is a plain string.
   */
  lemma ArgsResolved(result: string, kwargs: Dict<ArgValue>)
    ensures forall kv :: kv in PrimitiveArgs(result, kwargs) ==> !kv.1.PrimRef?
    ensures forall kv :: kv in PrimitiveArgs(result, kwargs) && kv.0 != "in" && kv.0 != "in2" ==> kv.1.Str?
  {
    ResolvedPreserved([("result", Str(result))], NormaliseAll(kwargs));
  }

  predicate Resolved(d: Dict<ArgValue>)
  {
    forall kv :: kv in d ==> !kv.1.PrimRef? && (kv.0 != "in" && kv.0 != "in2" ==> kv.1.Str?)
  }

  lemma {:induction false} ResolvedPreserved(d: Dict<ArgValue>, kvs: Dict<ArgValue>)
    requires Resolved(d) && Resolved(kvs)
    ensures Resolved(Overlay(d, kvs))
    decreases kvs
  {
    if kvs != [] {
      SetResolved(d, kvs[0].0, kvs[0].1);
      ResolvedPreserved(Set(d, kvs[0].0, kvs[0].1), kvs[1..]);
    }
  }

  lemma {:induction false} SetResolved(d: Dict<ArgValue>, k: string, v: ArgValue)
    requires Resolved(d) && Resolved([(k, v)])
    ensures Resolved(Set(d, k, v))
  {
    if d != [] && d[0].0 != k {
      SetResolved(d[1..], k, v);
    }
  }

  /**
   * Chaining: a primitive given a previous primitive as its last `src1`
   * reads that primitive's result name as its `in` attribute, not a literal
   * string, whatever other arguments precede it.
   */
  lemma SourceChain(result: string, kwargs: Dict<ArgValue>, prev: string, text: string)
    ensures "in" in Keys(PrimitiveArgs(result, kwargs + [("src1", PrimRef(prev, text))]))
    ensures Get(PrimitiveArgs(result, kwargs + [("src1", PrimRef(prev, text))]), "in") == Str(prev)
  {
    var all := kwargs + [("src1", PrimRef(prev, text))];
    assert Hyphenate("src1") == "src1";
    assert Normalise(("src1", PrimRef(prev, text))) == ("in", Str(prev));
    NormaliseAllAppend(kwargs, [("src1", PrimRef(prev, text))]);
    assert NormaliseAll(all) == NormaliseAll(kwargs) + [("in", Str(prev))];
    LastOfAppended(NormaliseAll(kwargs), "in", Str(prev));
    PrimitiveArgsLookup(result, all, "in");
  }
}
