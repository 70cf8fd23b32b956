/**
 * Ownership of objects in the scene. Every object is held by exactly one
 * owner: the top-level list `_simple_objs` or the `_children` list of one
 * group. Handles are the positions objects were created at (0, 1, 2, ...),
 * and `kids[g]` lists the children of object `g` (empty for a non-group).
 */
module Ownership {
  import opened Wrappers

  predicate NoDup(s: seq<nat>)
  {
    forall i, j :: 0 <= i < j < |s| ==> s[i] != s[j]
  }

  /** The invariant of the registry: `n` objects, each owned exactly once. */
  predicate Partition(n: nat, top: seq<nat>, kids: seq<seq<nat>>)
  {
    && |kids| == n
    && NoDup(top)
    && (forall g :: 0 <= g < n ==> NoDup(kids[g]))
    && (forall h: nat :: h in top ==> h < n)
    && (forall g: int, h: nat {:trigger h in kids[g]} :: 0 <= g < n && h in kids[g] ==> h < n && h !in top)
    && (forall g1: int, g2: int, h: nat {:trigger h in kids[g1], h in kids[g2]} :: 0 <= g1 < g2 < n && h in kids[g1] ==> h !in kids[g2])
    && (forall h: nat :: h < n && h !in top ==> exists g :: 0 <= g < n && h in kids[g])
  }

  /** How often `h` occurs in `s`. */
  function Count(s: seq<nat>, h: nat): nat
  {
    if s == [] then 0 else (if s[0] == h then 1 else 0) + Count(s[1..], h)
  }

  /** How often `h` occurs over all the lists `kids`. */
  function CountAll(kids: seq<seq<nat>>, h: nat): nat
  {
    if kids == [] then 0 else Count(kids[0], h) + CountAll(kids[1..], h)
  }

  /** How many owners hold `h`, counting repeated holding. */
  function Occurrences(top: seq<nat>, kids: seq<seq<nat>>, h: nat): nat
  {
    Count(top, h) + CountAll(kids, h)
  }

  lemma {:induction false} CountNoDup(s: seq<nat>, h: nat)
    requires NoDup(s)
    ensures Count(s, h) == if h in s then 1 else 0
  {
    if s != [] {
      assert NoDup(s[1..]) by {
        forall i, j | 0 <= i < j < |s[1..]|
          ensures s[1..][i] != s[1..][j]
        {
          assert s[1..][i] == s[i + 1] && s[1..][j] == s[j + 1];
        }
      }
      CountNoDup(s[1..], h);
      if s[0] == h {
        assert h !in s[1..] by {
          forall j | 0 <= j < |s[1..]|
            ensures s[1..][j] != h
          {
            assert s[1..][j] == s[j + 1];
          }
        }
      }
      assert h in s <==> s[0] == h || h in s[1..] by {
        assert s == [s[0]] + s[1..];
      }
    }
  }

  lemma {:induction false} CountAllAtMostOne(kids: seq<seq<nat>>, h: nat)
    requires forall g :: 0 <= g < |kids| ==> NoDup(kids[g])
    requires forall g1, g2 :: 0 <= g1 < g2 < |kids| && h in kids[g1] ==> h !in kids[g2]
    ensures CountAll(kids, h) == if exists g :: 0 <= g < |kids| && h in kids[g] then 1 else 0
  {
    if kids != [] {
      var rest := kids[1..];
      assert forall g :: 0 <= g < |rest| ==> rest[g] == kids[g + 1];
      CountAllAtMostOne(rest, h);
      CountNoDup(kids[0], h);
      if h in kids[0] {
        assert forall g :: 0 <= g < |rest| ==> h !in rest[g];
      } else if exists g :: 0 <= g < |kids| && h in kids[g] {
        var g :| 0 <= g < |kids| && h in kids[g];
        assert h in rest[g - 1];
      }
    }
  }

  /** Under the invariant, each of the `n` objects has exactly one owner. */
  lemma OwnedExactlyOnce(n: nat, top: seq<nat>, kids: seq<seq<nat>>, h: nat)
    requires Partition(n, top, kids) && h < n
    ensures Occurrences(top, kids, h) == 1
  {
    CountNoDup(top, h);
    CountAllAtMostOne(kids, h);
  }

  /** Objects outside `0..n` are owned by nobody. */
  lemma UnknownUnowned(n: nat, top: seq<nat>, kids: seq<seq<nat>>, h: nat)
    requires Partition(n, top, kids) && h >= n
    ensures Occurrences(top, kids, h) == 0
  {
    CountNoDup(top, h);
    CountAllAtMostOne(kids, h);
  }

  /** Registration: object `n` joins the end of the top-level list with no children. */
  lemma Register(n: nat, top: seq<nat>, kids: seq<seq<nat>>)
    requires Partition(n, top, kids)
    ensures Partition(n + 1, top + [n], kids + [[]])
  {
    var top', kids' := top + [n], kids + [[]];
    assert forall g :: 0 <= g < n ==> kids'[g] == kids[g];
    assert forall h :: h in top' ==> h in top || h == n;
    assert n !in top;
    forall i, j | 0 <= i < j < |top'|
      ensures top'[i] != top'[j]
    {
      if j == |top| {
        assert top'[i] == top[i];
      }
    }
    forall g: int, h: nat | 0 <= g < n + 1 && h in kids'[g]
      ensures h < n + 1 && h !in top'
    {
      assert h in kids[g] && h < n && h !in top;
      assert h !in top';
    }
  }

  /** The comprehension `[o for o in s if o is not h]`. */
  function Without(s: seq<nat>, h: nat): (r: seq<nat>)
    ensures forall x :: x in r <==> x in s && x != h
    ensures |r| <= |s|
  {
    if s == [] then []
    else (if s[0] == h then [] else [s[0]]) + Without(s[1..], h)
  }

  /** Removing an element that occurs once, at index `i`, keeps the others in order. */
  lemma {:induction false} WithoutAt(s: seq<nat>, i: nat)
    requires NoDup(s) && i < |s|
    ensures Without(s, s[i]) == s[..i] + s[i + 1..]
  {
    var h := s[i];
    var t := s[1..];
    assert Without(s, h) == (if s[0] == h then [] else [s[0]]) + Without(t, h);
    if i == 0 {
      assert h !in t by {
        forall j | 0 <= j < |t|
          ensures t[j] != h
        {
          assert t[j] == s[j + 1];
        }
      }
      WithoutAbsent(t, h);
    } else {
      assert NoDup(t) by {
        forall a, b | 0 <= a < b < |t|
          ensures t[a] != t[b]
        {
          assert t[a] == s[a + 1] && t[b] == s[b + 1];
        }
      }
      assert t[i - 1] == h;
      WithoutAt(t, i - 1);
      assert s[0] != h;
      assert s[..i] == [s[0]] + t[..i - 1];
      assert s[i + 1..] == t[i..];
    }
  }

  lemma {:induction false} WithoutAbsent(s: seq<nat>, h: nat)
    requires h !in s
    ensures Without(s, h) == s
  {
    if s != [] {
      assert h !in s[1..];
      WithoutAbsent(s[1..], h);
      assert s == [s[0]] + s[1..];
    }
  }

  lemma {:induction false} WithoutNoDup(s: seq<nat>, h: nat)
    requires NoDup(s)
    ensures NoDup(Without(s, h))
  {
    if h in s {
      var i :| 0 <= i < |s| && s[i] == h;
      WithoutAt(s, i);
      var r := s[..i] + s[i + 1..];
      forall a, b | 0 <= a < b < |r|
        ensures r[a] != r[b]
      {
        var a' := if a < i then a else a + 1;
        var b' := if b < i then b else b + 1;
        assert r[a] == s[a'] && r[b] == s[b'];
      }
    } else {
      WithoutAbsent(s, h);
    }
  }

  /** `SimpleGroup.add`: a top-level `h` moves to the end of group `g`'s children. */
  lemma Absorb(n: nat, top: seq<nat>, kids: seq<seq<nat>>, g: nat, h: nat)
    requires Partition(n, top, kids) && g < n && h in top
    ensures Partition(n, Without(top, h), kids[g := kids[g] + [h]])
  {
    var top', kids' := Without(top, h), kids[g := kids[g] + [h]];
    WithoutNoDup(top, h);
    assert h !in kids[g];
    assert NoDup(kids'[g]) by {
      var c := kids[g] + [h];
      forall a, b | 0 <= a < b < |c|
        ensures c[a] != c[b]
      {
        if b == |c| - 1 {
          assert c[a] in kids[g];
        }
      }
    }
    forall g1, g2, x | 0 <= g1 < g2 < n && x in kids'[g1]
      ensures x !in kids'[g2]
    {
      if x == h {
        assert forall k :: 0 <= k < n ==> h !in kids[k];
      }
    }
    forall x | 0 <= x < n && x !in top'
      ensures exists k :: 0 <= k < n && x in kids'[k]
    {
      if x == h {
        assert h in kids'[g];
      } else {
        var k :| 0 <= k < n && x in kids[k];
        assert x in kids'[k];
      }
    }
  }

  /** What `SimpleGroup.add` can be given: a registered object, or anything else. */
  datatype Arg = Obj(handle: nat) | NotAnObject

  /** The two complaints `SimpleGroup.add` can report. */
  datatype AddError = NotSimpleObject | AlreadyGrouped

  /** Lines 162-170: which complaint, if any, `add(a)` reports given the top-level list. */
  function AddCheck(top: seq<nat>, a: Arg): (e: Option<AddError>)
    ensures e == None <==> a.Obj? && a.handle in top
  {
    match a
    case NotAnObject => Some(NotSimpleObject)
    case Obj(h) => if h in top then None else Some(AlreadyGrouped)
  }

  /** Once added, an object is no longer top-level, so adding it again is refused. */
  lemma SecondAddRejected(top: seq<nat>, h: nat)
    requires AddCheck(top, Obj(h)) == None
    ensures AddCheck(Without(top, h), Obj(h)) == Some(AlreadyGrouped)
  {
  }

  /** The state of `group()`'s loop (lines 569-570): top-level list, the group's children, complaints. */
  datatype Absorbed = Absorbed(top: seq<nat>, mine: seq<nat>, errors: seq<AddError>)

  /** `add` applied to each argument in turn. */
  function AbsorbAll(top: seq<nat>, mine: seq<nat>, args: seq<Arg>): (r: Absorbed)
    ensures |r.errors| <= |args|
    ensures |mine| <= |r.mine| && r.mine[..|mine|] == mine
    decreases args
  {
    if args == [] then Absorbed(top, mine, [])
    else match AddCheck(top, args[0])
      case Some(e) =>
        var r := AbsorbAll(top, mine, args[1..]);
        Absorbed(r.top, r.mine, [e] + r.errors)
      case None =>
        var r := AbsorbAll(Without(top, args[0].handle), mine + [args[0].handle], args[1..]);
        assert r.mine[..|mine|] == r.mine[..|mine| + 1][..|mine|];
        r
  }

  /**
   * An object ends up in the group exactly when it was already there, or it
   * is named in the arguments and was top-level when the loop began; it is
   * then no longer top-level, and nothing else leaves the top level.
   */
  lemma {:induction false} AbsorbAllMembers(top: seq<nat>, mine: seq<nat>, args: seq<Arg>, h: nat)
    requires forall x :: x in mine ==> x !in top
    ensures var r := AbsorbAll(top, mine, args);
      && (h in r.mine <==> h in mine || (Obj(h) in args && h in top))
      && (h in r.top <==> h in top && Obj(h) !in args)
    decreases args
  {
    if args != [] {
      assert args == [args[0]] + args[1..];
      match AddCheck(top, args[0])
      case Some(e) =>
        AbsorbAllMembers(top, mine, args[1..], h);
      case None =>
        var x := args[0].handle;
        AbsorbAllMembers(Without(top, x), mine + [x], args[1..], h);
    }
  }

  /** One step of the loop: the first argument is added or refused, then the rest follow. */
  lemma AbsorbAllStep(top: seq<nat>, mine: seq<nat>, a: Arg, rest: seq<Arg>)
    ensures var r := AbsorbAll(top, mine, [a] + rest);
      match AddCheck(top, a)
      case Some(e) =>
        var r' := AbsorbAll(top, mine, rest);
        r == Absorbed(r'.top, r'.mine, [e] + r'.errors)
      case None =>
        r == AbsorbAll(Without(top, a.handle), mine + [a.handle], rest)
  {
    var args := [a] + rest;
    assert args[0] == a && args[1..] == rest;
  }

  /** Each complaint of `group()` corresponds to one refused argument, in order. */
  lemma {:induction false} AbsorbAllErrors(top: seq<nat>, mine: seq<nat>, args: seq<Arg>)
    ensures |AbsorbAll(top, mine, args).errors| <= |args|
    ensures ((forall a :: a in args ==> a.Obj?) && (forall a :: a in args ==> a.handle in top) && NoDupArgs(args))
            ==> AbsorbAll(top, mine, args).errors == []
    decreases args
  {
    if args != [] {
      var rest := args[1..];
      assert forall a :: a in rest ==> a in args;
      match AddCheck(top, args[0])
      case Some(e) =>
        AbsorbAllErrors(top, mine, rest);
      case None =>
        var x := args[0].handle;
        AbsorbAllErrors(Without(top, x), mine + [x], rest);
        if (forall a :: a in args ==> a.Obj?) && (forall a :: a in args ==> a.handle in top) && NoDupArgs(args) {
          forall a | a in rest
            ensures a.handle in Without(top, x)
          {
            var j :| 0 <= j < |rest| && rest[j] == a;
            assert args[j + 1] == a;
          }
          assert NoDupArgs(rest) by {
            forall i, j | 0 <= i < j < |rest|
              ensures rest[i] != rest[j]
            {
              assert rest[i] == args[i + 1] && rest[j] == args[j + 1];
            }
          }
        }
    }
  }

  predicate NoDupArgs(args: seq<Arg>)
  {
    forall i, j :: 0 <= i < j < |args| ==> args[i] != args[j]
  }

  /** The handles of arguments that are all objects, in argument order. */
  function Handles(args: seq<Arg>): (hs: seq<nat>)
    requires forall a :: a in args ==> a.Obj?
    ensures |hs| == |args|
    ensures forall i :: 0 <= i < |args| ==> hs[i] == args[i].handle
  {
    if args == [] then [] else [args[0].handle] + Handles(args[1..])
  }

  /**
   * Every argument is either appended to the group or answered by exactly
   * one complaint; with no complaint at all, every argument was an object
   * and the new children follow the argument order.
   */
  lemma {:induction false} AbsorbAllAccounted(top: seq<nat>, mine: seq<nat>, args: seq<Arg>)
    ensures var r := AbsorbAll(top, mine, args);
      |r.mine| + |r.errors| == |mine| + |args|
    ensures var r := AbsorbAll(top, mine, args);
      r.errors == [] ==> (forall a :: a in args ==> a.Obj?) && r.mine == mine + Handles(args)
    decreases args
  {
    if args != [] {
      var rest := args[1..];
      assert forall a :: a in args ==> a == args[0] || a in rest;
      match AddCheck(top, args[0])
      case Some(e) =>
        AbsorbAllAccounted(top, mine, rest);
      case None =>
        var x := args[0].handle;
        AbsorbAllAccounted(Without(top, x), mine + [x], rest);
    }
  }

  /** Distinct top-level objects all join the group, in argument order, with no complaint. */
  lemma AbsorbAllInOrder(top: seq<nat>, mine: seq<nat>, args: seq<Arg>)
    requires forall a :: a in args ==> a.Obj? && a.handle in top
    requires NoDupArgs(args)
    ensures AbsorbAll(top, mine, args).errors == []
    ensures AbsorbAll(top, mine, args).mine == mine + Handles(args)
  {
    AbsorbAllErrors(top, mine, args);
    AbsorbAllAccounted(top, mine, args);
  }

  /** The loop of `group()` keeps every object owned exactly once. */
  lemma {:induction false} AbsorbAllPartition(n: nat, top: seq<nat>, kids: seq<seq<nat>>, g: nat, args: seq<Arg>)
    requires Partition(n, top, kids) && g < n
    requires forall a :: a in args && a.Obj? ==> a.handle < n
    ensures var r := AbsorbAll(top, kids[g], args);
      Partition(n, r.top, kids[g := r.mine])
    decreases args
  {
    if args == [] {
      assert kids[g := kids[g]] == kids;
    } else {
      assert forall a :: a in args[1..] ==> a in args;
      match AddCheck(top, args[0])
      case Some(e) =>
        AbsorbAllPartition(n, top, kids, g, args[1..]);
      case None =>
        var x := args[0].handle;
        Absorb(n, top, kids, g, x);
        var kids' := kids[g := kids[g] + [x]];
        AbsorbAllPartition(n, Without(top, x), kids', g, args[1..]);
        assert kids'[g := AbsorbAll(Without(top, x), kids'[g], args[1..]).mine]
            == kids[g := AbsorbAll(Without(top, x), kids'[g], args[1..]).mine];
    }
  }
}
