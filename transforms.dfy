/**
 * The transform composer (simple_inkscape_scripting.py:79-85) and the
 * global default transform setter `transform()` (lines 312-315).
 */
module Transforms {
  import opened Wrappers
  import opened Text

  /** `t is None or t == ''`: no transform to apply. */
  predicate Blank(t: Option<string>)
  {
    t == None || t == Some("")
  }

  /** Lines 80-83: the list `ts` of transforms that are present. */
  function Present(t: Option<string>): (ts: seq<string>)
    ensures ts == [] <==> Blank(t)
    ensures |ts| <= 1 && forall s :: s in ts ==> s != "" && t == Some(s)
  {
    if Blank(t) then [] else [t.value]
  }

  /**
   * Lines 79-85: the object's own transform first, then the default one,
   * joined by a space; `None` means the element gets no transform attribute.
   */
  function Compose(local: Option<string>, default: Option<string>): (r: Option<string>)
    ensures r == None <==> Blank(local) && Blank(default)
    ensures !Blank(local) && !Blank(default) ==> r == Some(local.value + " " + default.value)
    ensures !Blank(local) && Blank(default) ==> r == Some(local.value)
    ensures Blank(local) && !Blank(default) ==> r == Some(default.value)
  {
    var ts := Present(local) + Present(default);
    assert |ts| == 2 ==> Join(ts, ' ') == ts[0] + " " + Join(ts[1..], ' ');
    if ts == [] then None else Some(Join(ts, ' '))
  }

  /** The characters Python's `str.strip()` removes by default. */
  predicate IsSpace(c: char)
  {
    var n := c as int;
    (9 <= n <= 13) || (28 <= n <= 32) || n == 0x85 || n == 0xA0 || n == 0x1680
    || (0x2000 <= n <= 0x200A) || n == 0x2028 || n == 0x2029 || n == 0x202F
    || n == 0x205F || n == 0x3000
  }

  /** The end of the run of whitespace in `t` that starts at `i`. */
  function SpacesFrom(t: string, i: nat): (r: nat)
    requires i <= |t|
    ensures i <= r <= |t|
    ensures forall k :: i <= k < r ==> IsSpace(t[k])
    ensures r == |t| || !IsSpace(t[r])
    decreases |t| - i
  {
    if i < |t| && IsSpace(t[i]) then SpacesFrom(t, i + 1) else i
  }

  /** The start of the run of whitespace in `t` that ends at `j`. */
  function SpacesUntil(t: string, j: nat): (r: nat)
    requires j <= |t|
    ensures r <= j
    ensures forall k :: r <= k < j ==> IsSpace(t[k])
    ensures r == 0 || !IsSpace(t[r - 1])
  {
    if j > 0 && IsSpace(t[j - 1]) then SpacesUntil(t, j - 1) else j
  }

  /** `t.lstrip()`: the suffix left after the leading whitespace. */
  function TrimStart(t: string): (r: string)
    ensures |r| <= |t| && r == t[|t| - |r|..]
    ensures forall i :: 0 <= i < |t| - |r| ==> IsSpace(t[i])
    ensures r == [] || !IsSpace(r[0])
  {
    t[SpacesFrom(t, 0)..]
  }

  /** `t.rstrip()`: the prefix left before the trailing whitespace. */
  function TrimEnd(t: string): (r: string)
    ensures |r| <= |t| && r == t[..|r|]
    ensures forall i :: |r| <= i < |t| ==> IsSpace(t[i])
    ensures r == [] || !IsSpace(r[|r| - 1])
  {
    t[..SpacesUntil(t, |t|)]
  }

  /** Line 315: `t.strip()`. */
  function Strip(t: string): (r: string)
    ensures |r| <= |t|
    ensures r == [] || (!IsSpace(r[0]) && !IsSpace(r[|r| - 1]))
  {
    TrimEnd(TrimStart(t))
  }

  /**
   * Stripping removes only surrounding whitespace: the result sits inside `t`
   * with nothing but whitespace around it and starts and ends with a
   * non-space.
   */
  lemma StripShape(t: string)
    ensures var r := Strip(t); var lead := |t| - |TrimStart(t)|;
      && lead + |r| <= |t|
      && t[lead..lead + |r|] == r
      && (forall i :: 0 <= i < lead ==> IsSpace(t[i]))
      && (forall i :: lead + |r| <= i < |t| ==> IsSpace(t[i]))
      && (r == [] || (!IsSpace(r[0]) && !IsSpace(r[|r| - 1])))
  {
    Surrounded(t, TrimStart(t), Strip(t));
  }

  /**
   * The shape of a strip, from the facts about its two halves: `s` is a
   * suffix of `t` after whitespace and `r` a prefix of `s` before whitespace.
   */
  lemma Surrounded(t: string, s: string, r: string)
    requires |s| <= |t| && s == t[|t| - |s|..]
    requires forall i :: 0 <= i < |t| - |s| ==> IsSpace(t[i])
    requires s == [] || !IsSpace(s[0])
    requires |r| <= |s| && r == s[..|r|]
    requires forall i :: |r| <= i < |s| ==> IsSpace(s[i])
    requires r == [] || !IsSpace(r[|r| - 1])
    ensures var lead := |t| - |s|;
      && lead + |r| <= |t|
      && t[lead..lead + |r|] == r
      && (forall i :: 0 <= i < lead ==> IsSpace(t[i]))
      && (forall i :: lead + |r| <= i < |t| ==> IsSpace(t[i]))
      && (r == [] || (!IsSpace(r[0]) && !IsSpace(r[|r| - 1])))
  {
    var lead := |t| - |s|;
    assert t[lead..lead + |r|] == r;
    forall i | lead + |r| <= i < |t| ensures IsSpace(t[i]) {
      assert t[i] == s[i - lead];
    }
    if r != [] {
      assert r[0] == s[0];
    }
  }

  /** Stripping twice is stripping once. */
  lemma StripIdempotent(t: string)
    ensures Strip(Strip(t)) == Strip(t)
  {
    StripShape(t);
    var r := Strip(t);
    if r != [] {
      assert TrimStart(r) == r;
      assert TrimEnd(r) == r;
    }
  }
}
