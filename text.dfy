/** The few Python string operations the engine is built from. */
module Text {

  /** A point given as the `str` forms of its two coordinates. */
  type Coord = (string, string)

  /** `sep.join(parts)`: the parts, in order, with one separator between neighbours. */
  function Join(parts: seq<string>, sep: char): (s: string)
    ensures |parts| >= 1 ==> |s| >= |parts[0]| && s[..|parts[0]|] == parts[0]
    ensures |parts| >= 2 ==> |s| > |parts[0]| && s[|parts[0]|] == sep
  {
    if parts == [] then ""
    else if |parts| == 1 then parts[0]
    else parts[0] + [sep] + Join(parts[1..], sep)
  }

  /** `s.split(sep)`: the maximal separator-free pieces of `s`, in order. */
  function Split(s: string, sep: char): (pieces: seq<string>)
    ensures |pieces| >= 1
  {
    if s == [] then [""]
    else
      var rest := Split(s[1..], sep);
      if s[0] == sep then [""] + rest
      else [[s[0]] + rest[0]] + rest[1..]
  }

  /** A separator-free prefix extends the first piece of what follows it. */
  lemma {:induction false} SplitAfterFree(a: string, tail: string, sep: char)
    requires sep !in a
    ensures Split(a + tail, sep) == [a + Split(tail, sep)[0]] + Split(tail, sep)[1..]
  {
    if a == [] {
      var pieces := Split(tail, sep);
      assert a + tail == tail && a + pieces[0] == pieces[0];
      assert pieces == [pieces[0]] + pieces[1..];
    } else {
      assert (a + tail)[0] == a[0] && (a + tail)[1..] == a[1..] + tail;
      SplitAfterFree(a[1..], tail, sep);
      assert [a[0]] + (a[1..] + Split(tail, sep)[0]) == a + Split(tail, sep)[0];
    }
  }

  /** Splitting undoes joining when no part contains the separator. */
  lemma {:induction false} SplitJoin(parts: seq<string>, sep: char)
    requires |parts| >= 1
    requires forall p :: p in parts ==> sep !in p
    ensures Split(Join(parts, sep), sep) == parts
  {
    if |parts| == 1 {
      SplitAfterFree(parts[0], [], sep);
      assert parts[0] + [] == parts[0];
    } else {
      var rest := Join(parts[1..], sep);
      SplitJoin(parts[1..], sep);
      assert parts[0] + [sep] + rest == parts[0] + ([sep] + rest);
      assert ([sep] + rest)[1..] == rest;
      SplitAfterFree(parts[0], [sep] + rest, sep);
      assert Split([sep] + rest, sep) == [""] + Split(rest, sep);
      assert parts[0] + "" == parts[0];
      assert parts == [parts[0]] + parts[1..];
    }
  }

  /** A join is empty only when there is nothing to join or a single empty part. */
  lemma {:induction false} JoinEmpty(parts: seq<string>, sep: char)
    ensures Join(parts, sep) == "" <==> parts == [] || parts == [""]
  {
    if |parts| >= 2 {
      assert Join(parts, sep)[|parts[0]|] == sep;
    }
  }

  /** `k.replace('_', '-')`: keyword names become property names. */
  function Hyphenate(k: string): (r: string)
    ensures |r| == |k| && '_' !in r
    ensures forall i :: 0 <= i < |k| && k[i] != '_' ==> r[i] == k[i]
    ensures forall i :: 0 <= i < |k| && k[i] == '_' ==> r[i] == '-'
  {
    if k == [] then []
    else [if k[0] == '_' then '-' else k[0]] + Hyphenate(k[1..])
  }

  /** Renaming twice is renaming once, and a name without `_` is left alone. */
  lemma {:induction false} HyphenateIdempotent(k: string)
    ensures Hyphenate(Hyphenate(k)) == Hyphenate(k)
    ensures '_' !in k ==> Hyphenate(k) == k
  {
    if k != [] {
      HyphenateIdempotent(k[1..]);
      assert Hyphenate(k)[1..] == Hyphenate(k[1..]);
    }
  }
}
