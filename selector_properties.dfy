/**
 * What DrySelector promises: the precedence of match_objects, subclass
 * semantics for class patterns, subset semantics for dict patterns, strict
 * length for sequence patterns, wildcard components of a selector, and that
 * a selector lifted from a definition selects that definition.
 */
module SelectorProperties {
  import opened DryConfig
  import opened DrySelectors
  import opened DryObjects

  // ---------------------------------------------------------------------
  // Classes

  /** issubclass is transitive. */
  lemma {:induction false} SubclassTransitive(c: Class, mid: Class, base: Class)
    requires IsSubclass(c, mid) && IsSubclass(mid, base)
    ensures IsSubclass(c, base)
    decreases c
  {
    if c != mid {
      var i :| 0 <= i < |c.bases| && IsSubclass(c.bases[i], mid);
      SubclassTransitive(c.bases[i], mid, base);
    }
  }

  /** A class is a subclass of each of its direct bases. */
  lemma BaseIsSuperclass(c: Class, i: nat)
    requires i < |c.bases|
    ensures IsSubclass(c, c.bases[i])
  {
  }

  /** A subclass strictly below `base` is never its ancestor: issubclass is antisymmetric. */
  lemma {:induction false} SubclassAntisymmetric(c: Class, base: Class)
    requires IsSubclass(c, base) && IsSubclass(base, c)
    ensures c == base
  {
    SubclassRank(c, base);
    SubclassRank(base, c);
  }

  /** A class is never smaller than its subclasses. */
  lemma {:induction false} SubclassRank(c: Class, base: Class)
    requires IsSubclass(c, base)
    ensures c == base || base < c
    decreases c
  {
    if c != base {
      var i :| 0 <= i < |c.bases| && IsSubclass(c.bases[i], base);
      SubclassRank(c.bases[i], base);
    }
  }

  /** A type pattern matches exactly the subclasses of that type, and raises on anything but a class. */
  lemma TypePattern(base: Class, v: Value, byName: bool, call: Callables)
    ensures Match(TypeRef(base), v, byName, call) == Ok(true) <==> v.TypeRef? && IsSubclass(v.cls, base)
    ensures Match(TypeRef(base), v, byName, call).Err? <==> !v.TypeRef?
  {
  }

  /** In particular a type pattern matches the class itself and every class below it. */
  lemma {:induction false} TypePatternMatchesDescendants(base: Class, mid: Class, c: Class, byName: bool, call: Callables)
    requires IsSubclass(mid, base) && IsSubclass(c, mid)
    ensures Match(TypeRef(base), TypeRef(base), byName, call) == Ok(true)
    ensures Match(TypeRef(base), TypeRef(c), byName, call) == Ok(true)
  {
    SubclassTransitive(c, mid, base);
  }

  /** Two sibling classes do not match each other. */
  lemma SiblingsDoNotMatch(root: Class, byName: bool, call: Callables)
    ensures
      var a := Class("pkg.A", 0, [root]);
      var b := Class("pkg.B", 0, [root]);
      Match(TypeRef(a), TypeRef(b), byName, call) == Ok(false)
  {
    var a := Class("pkg.A", 0, [root]);
    var b := Class("pkg.B", 0, [root]);
    if IsSubclass(b, a) {
      assert IsSubclass(root, a);
      SubclassRank(root, a);
      assert false;
    }
  }

  // ---------------------------------------------------------------------
  // Precedence of the branches

  /**
   * A class is callable in Python, but never treated as a generic callable:
   * what the named callables answer does not change the result.
   */
  lemma TypePatternIgnoresCallables(c: Class, v: Value, byName: bool, call1: Callables, call2: Callables)
    ensures Match(TypeRef(c), v, byName, call1) == Match(TypeRef(c), v, byName, call2)
  {
  }

  /** A selector pattern is answered by the selector itself, whatever the comparison mode. */
  lemma SelectorPatternDelegates(s: DrySelector, v: Value, byName: bool, call: Callables)
    ensures Match(Sel(s), v, byName, call) == Select(s, v, call)
    ensures Match(Sel(s), v, byName, call) == Match(Sel(s), v, !byName, call)
  {
  }

  /**
   * Unless the pattern is a class, a selector or a callable, a definition on
   * either side decides the result by DryObjectDef.equal alone.
   */
  lemma DefinitionDecides(k: Value, v: Value, byName: bool, call: Callables)
    requires !k.TypeRef? && !k.Sel? && !k.Callable?
    requires k.Def? || v.Def?
    ensures k.Def? ==> Match(k, v, byName, call) == Ok(DefEqual(k.def, v, byName))
    ensures !k.Def? ==> Match(k, v, byName, call) == Ok(DefEqual(v.def, k, byName))
  {
  }

  lemma {:induction false} ValueEqReflexive(a: Value, byName: bool)
    ensures ValueEq(a, a, byName)
    decreases a, 2
  {
    match a
    case List(xs) =>
      forall i | 0 <= i < |xs|
        ensures ValueEq(xs[i], xs[i], byName)
      {
        ValueEqReflexive(xs[i], byName);
      }
    case Dict(es) => EntriesEqReflexive(es, byName);
    case Def(d) => DefEqReflexive(d, byName);
    case _ =>
  }

  lemma {:induction false} EntriesEqReflexive(es: seq<Entry>, byName: bool)
    ensures EntriesEq(es, es, byName)
    decreases es, 1
  {
    forall k | k in Keys(es)
      ensures ValueEq(es[KeyIndex(es, k)].val, es[KeyIndex(es, k)].val, byName)
    {
      ValueEqReflexive(es[KeyIndex(es, k)].val, byName);
    }
  }

  lemma {:induction false} DefEqReflexive(d: DryObjectDef, byName: bool)
    ensures DefEq(d, d, byName)
    decreases d, 0
  {
    forall i | 0 <= i < |d.args|
      ensures ValueEq(d.args[i], d.args[i], byName)
    {
      ValueEqReflexive(d.args[i], byName);
    }
    EntriesEqReflexive(d.kwargs, byName);
  }

  lemma {:induction false} ValueEqSymmetric(a: Value, b: Value, byName: bool)
    requires ValueEq(a, b, byName)
    ensures ValueEq(b, a, byName)
    decreases a, 2
  {
    match a
    case List(xs) =>
      forall i | 0 <= i < |xs|
        ensures ValueEq(b.items[i], xs[i], byName)
      {
        ValueEqSymmetric(xs[i], b.items[i], byName);
      }
    case Dict(es) => EntriesEqSymmetric(es, b.entries, byName);
    case Def(d) => DefEqSymmetric(d, b.def, byName);
    case _ =>
  }

  lemma {:induction false} EntriesEqSymmetric(es: seq<Entry>, fs: seq<Entry>, byName: bool)
    requires EntriesEq(es, fs, byName)
    ensures EntriesEq(fs, es, byName)
    decreases es, 1
  {
    forall k | k in Keys(fs)
      ensures ValueEq(fs[KeyIndex(fs, k)].val, es[KeyIndex(es, k)].val, byName)
    {
      ValueEqSymmetric(es[KeyIndex(es, k)].val, fs[KeyIndex(fs, k)].val, byName);
    }
  }

  lemma {:induction false} DefEqSymmetric(d: DryObjectDef, e: DryObjectDef, byName: bool)
    requires DefEq(d, e, byName)
    ensures DefEq(e, d, byName)
    decreases d, 0
  {
    forall i | 0 <= i < |d.args|
      ensures ValueEq(e.args[i], d.args[i], byName)
    {
      ValueEqSymmetric(d.args[i], e.args[i], byName);
    }
    EntriesEqSymmetric(d.kwargs, e.kwargs, byName);
  }

  /** DryObjectDef.equal is reflexive, in both comparison modes. */
  lemma DefEqualReflexive(d: DryObjectDef, byName: bool)
    ensures DefEqual(d, Def(d), byName)
  {
    DefEqReflexive(d, byName);
  }

  /** DryObjectDef.equal is symmetric, in both comparison modes. */
  lemma DefEqualSymmetric(d1: DryObjectDef, d2: DryObjectDef, byName: bool)
    ensures DefEqual(d1, Def(d2), byName) <==> DefEqual(d2, Def(d1), byName)
  {
    if DefEq(d1, d2, byName) {
      DefEqSymmetric(d1, d2, byName);
    }
    if DefEq(d2, d1, byName) {
      DefEqSymmetric(d2, d1, byName);
    }
  }

  /** Keyword order does not matter at any depth: a nested dict may list its keys in another order. */
  lemma NestedDictOrderIgnored(c: Class, byName: bool)
    ensures
      var one, two := Scalar(Int(1)), Scalar(Int(2));
      var ab := DryObjectDef(c, [Dict([Entry("a", one), Entry("b", two)])], []);
      var ba := DryObjectDef(c, [Dict([Entry("b", two), Entry("a", one)])], []);
      DefEqual(ab, Def(ba), byName)
  {
    var one, two := Scalar(Int(1)), Scalar(Int(2));
    var es := [Entry("a", one), Entry("b", two)];
    var fs := [Entry("b", two), Entry("a", one)];
    assert Keys(es) == {"a", "b"} == Keys(fs) by {
      var b, a := [Entry("b", two)], [Entry("a", one)];
      assert b[1..] == [] && a[1..] == [];
      assert Keys(b) == {"b"} + Keys([]);
      assert Keys(a) == {"a"} + Keys([]);
      assert es[1..] == b && fs[1..] == a;
    }
    assert KeyIndex(es, "a") == 0 && KeyIndex(fs, "a") == 1;
    assert KeyIndex(es, "b") == 1 && KeyIndex(fs, "b") == 0;
    assert EntriesEq(es, fs, byName);
    var ab := DryObjectDef(c, [Dict(es)], []);
    var ba := DryObjectDef(c, [Dict(fs)], []);
    assert ValueEq(ab.args[0], ba.args[0], byName);
    assert EntriesEq(ab.kwargs, ba.kwargs, byName);
  }

  /** The same arguments under classes that match in the comparison mode give equal definitions. */
  lemma SameArgumentsEqual(d: DryObjectDef, cls: Class, byName: bool)
    requires ClassEq(d.cls, cls, byName)
    ensures DefEq(d, DryObjectDef(cls, d.args, d.kwargs), byName)
  {
    forall i | 0 <= i < |d.args|
      ensures ValueEq(d.args[i], d.args[i], byName)
    {
      ValueEqReflexive(d.args[i], byName);
    }
    EntriesEqReflexive(d.kwargs, byName);
  }

  /** Comparing by name tolerates a reloaded class at any depth, not only at the top. */
  lemma NestedReloadEqualByName(c: Class, inner: DryObjectDef, reloaded: Class)
    requires reloaded.path == inner.cls.path
    ensures
      var original := DryObjectDef(c, [Def(inner)], []);
      var reloadedDef := DryObjectDef(c, [Def(DryObjectDef(reloaded, inner.args, inner.kwargs))], []);
      DefEqual(original, Def(reloadedDef), true)
  {
    SameArgumentsEqual(inner, reloaded, true);
  }

  /** A definition as a pattern matches itself; comparing by name also tolerates a reloaded class. */
  lemma DefinitionMatchesItself(d: DryObjectDef, reloaded: Class, byName: bool, call: Callables)
    requires reloaded.path == d.cls.path
    ensures Match(Def(d), Def(d), byName, call) == Ok(true)
    ensures Match(Def(d), Def(DryObjectDef(reloaded, d.args, d.kwargs)), true, call) == Ok(true)
  {
    DefEqReflexive(d, byName);
    SameArgumentsEqual(d, reloaded, true);
  }

  // ---------------------------------------------------------------------
  // Dict patterns

  lemma {:induction false} EntriesIff(pes: seq<Entry>, cands: seq<Entry>, byName: bool, call: Callables)
    ensures MatchEntries(pes, cands, byName, call) == Ok(true) <==>
      forall i :: 0 <= i < |pes| ==>
        Lookup(cands, pes[i].key).Some? && Match(pes[i].val, Lookup(cands, pes[i].key).value, byName, call) == Ok(true)
    decreases pes
  {
    if pes != [] {
      EntriesIff(pes[1..], cands, byName, call);
      assert forall i :: 1 <= i < |pes| ==> pes[i] == pes[1..][i - 1];
    }
  }

  /** Only the candidate's values under the pattern's keys matter. */
  lemma {:induction false} EntriesSameLookups(pes: seq<Entry>, c1: seq<Entry>, c2: seq<Entry>, byName: bool, call: Callables)
    requires forall i :: 0 <= i < |pes| ==> Lookup(c1, pes[i].key) == Lookup(c2, pes[i].key)
    ensures MatchEntries(pes, c1, byName, call) == MatchEntries(pes, c2, byName, call)
    decreases pes
  {
    if pes != [] {
      assert forall i :: 1 <= i < |pes| ==> pes[i] == pes[1..][i - 1];
      EntriesSameLookups(pes[1..], c1, c2, byName, call);
    }
  }

  /** A dict pattern against anything that is neither a dict nor a definition gives False. */
  lemma DictPatternNeedsDict(pes: seq<Entry>, v: Value, byName: bool, call: Callables)
    requires !v.Dict? && !v.Def?
    ensures Match(Dict(pes), v, byName, call) == Ok(false)
  {
  }

  /**
   * A dict pattern matches a dict iff every pattern key is present in the
   * candidate and its value matches the candidate's value under that key.
   */
  lemma DictPatternIff(pes: seq<Entry>, cands: seq<Entry>, byName: bool, call: Callables)
    ensures Match(Dict(pes), Dict(cands), byName, call) == Ok(true) <==>
      forall i :: 0 <= i < |pes| ==>
        pes[i].key in Keys(cands) && Match(pes[i].val, Lookup(cands, pes[i].key).value, byName, call) == Ok(true)
  {
    EntriesIff(pes, cands, byName, call);
  }

  /** A pattern key missing from the candidate rules a match out. */
  lemma DictMissingKeyFails(pes: seq<Entry>, cands: seq<Entry>, i: nat, byName: bool, call: Callables)
    requires i < |pes| && pes[i].key !in Keys(cands)
    ensures Match(Dict(pes), Dict(cands), byName, call) != Ok(true)
  {
    DictPatternIff(pes, cands, byName, call);
  }

  /** Adding keys to a candidate (after its own) never breaks a match. */
  lemma DictExtraKeysPreserveMatch(pes: seq<Entry>, cands: seq<Entry>, extra: seq<Entry>, byName: bool, call: Callables)
    requires Match(Dict(pes), Dict(cands), byName, call) == Ok(true)
    ensures Match(Dict(pes), Dict(cands + extra), byName, call) == Ok(true)
  {
    DictPatternIff(pes, cands, byName, call);
    forall i | 0 <= i < |pes|
      ensures Lookup(cands + extra, pes[i].key) == Lookup(cands, pes[i].key)
    {
      LookupAppendPresent(cands, extra, pes[i].key);
    }
    EntriesSameLookups(pes, cands + extra, cands, byName, call);
  }

  /** Candidate keys the pattern does not mention never change the result, raised errors included. */
  lemma DictExtraKeysIgnored(pes: seq<Entry>, cands: seq<Entry>, extra: seq<Entry>, byName: bool, call: Callables)
    requires Keys(extra) !! Keys(pes)
    ensures Match(Dict(pes), Dict(cands + extra), byName, call) == Match(Dict(pes), Dict(cands), byName, call)
  {
    forall i | 0 <= i < |pes|
      ensures Lookup(cands + extra, pes[i].key) == Lookup(cands, pes[i].key)
    {
      KeysIndex(pes, i);
      LookupAppendAbsent(cands, extra, pes[i].key);
    }
    EntriesSameLookups(pes, cands + extra, cands, byName, call);
  }

  /** The subset example: {a: 1} matches {a: 1, b: 2}; {a: 1, z: 9} does not match it. */
  lemma DictSubsetExample(byName: bool, call: Callables)
    ensures
      var one := Scalar(Int(1));
      var cand := Dict([Entry("a", one), Entry("b", Scalar(Int(2)))]);
      && Match(Dict([Entry("a", one)]), cand, byName, call) == Ok(true)
      && Match(Dict([Entry("a", one), Entry("z", Scalar(Int(9)))]), cand, byName, call) == Ok(false)
  {
    var one := Scalar(Int(1));
    var cand := [Entry("a", one), Entry("b", Scalar(Int(2)))];
    assert Lookup(cand, "a") == Some(one);
    assert Lookup(cand, "z") == None;
    var p1 := [Entry("a", one)];
    var p2 := [Entry("a", one), Entry("z", Scalar(Int(9)))];
    assert Match(one, one, byName, call) == Ok(true);
    assert p1[1..] == [];
    assert MatchEntries(p1, cand, byName, call) == MatchEntries([], cand, byName, call);
    assert p2[1..] == [Entry("z", Scalar(Int(9)))];
    assert MatchEntries(p2, cand, byName, call) == MatchEntries(p2[1..], cand, byName, call);
    assert MatchEntries(p2[1..], cand, byName, call) == Ok(false);
  }

  // ---------------------------------------------------------------------
  // Sequence patterns

  lemma {:induction false} ItemsIff(ps: seq<Value>, vs: seq<Value>, byName: bool, call: Callables)
    requires |ps| == |vs|
    ensures MatchItems(ps, vs, byName, call) == Ok(true) <==>
      forall i :: 0 <= i < |ps| ==> Match(ps[i], vs[i], byName, call) == Ok(true)
    decreases ps
  {
    if ps != [] {
      ItemsIff(ps[1..], vs[1..], byName, call);
      assert forall i :: 1 <= i < |ps| ==> ps[i] == ps[1..][i - 1] && vs[i] == vs[1..][i - 1];
    }
  }

  /** A sequence pattern against anything that is not a non-string iterable gives False. */
  lemma SequencePatternNeedsIterable(ps: seq<Value>, v: Value, byName: bool, call: Callables)
    requires !v.List? && !v.Dict? && !v.Def?
    ensures Match(List(ps), v, byName, call) == Ok(false)
  {
  }

  /** Lengths must agree exactly: no prefix or subsequence matching. */
  lemma SequenceLengthMismatch(ps: seq<Value>, v: Value, byName: bool, call: Callables)
    requires NonStringIterable(v) && |ps| != Length(v)
    ensures Match(List(ps), v, byName, call) == Ok(false)
  {
  }

  /** Equal lengths: a match iff every position matches. */
  lemma SequencePatternIff(ps: seq<Value>, vs: seq<Value>, byName: bool, call: Callables)
    requires |ps| == |vs|
    ensures Match(List(ps), List(vs), byName, call) == Ok(true) <==>
      forall i :: 0 <= i < |ps| ==> Match(ps[i], vs[i], byName, call) == Ok(true)
  {
    ItemsIff(ps, vs, byName, call);
  }

  /**
   * A dict is a non-string iterable too: a non-empty sequence pattern of the
   * same length indexes it with 0 and raises KeyError.
   */
  lemma SequencePatternAgainstDict(ps: seq<Value>, cands: seq<Entry>, byName: bool, call: Callables)
    requires |ps| == |cands| && ps != []
    ensures Match(List(ps), Dict(cands), byName, call) == Err(KeyError)
  {
  }

  /** [1, 2] matches neither [1, 2, 3] nor [1], and does match [1, 2]. */
  lemma SequenceLengthExample(byName: bool, call: Callables)
    ensures
      var one, two := Scalar(Int(1)), Scalar(Int(2));
      && Match(List([one, two]), List([one, two, Scalar(Int(3))]), byName, call) == Ok(false)
      && Match(List([one, two]), List([one]), byName, call) == Ok(false)
      && Match(List([one, two]), List([one, two]), byName, call) == Ok(true)
  {
    var one, two := Scalar(Int(1)), Scalar(Int(2));
    assert [one, two][1..] == [two];
    ItemsIff([one, two], [one, two], byName, call);
  }

  // ---------------------------------------------------------------------
  // Plain equality and self-matching

  /** Any other pattern is compared with ==: a scalar matches exactly the equal scalars. */
  lemma ScalarPattern(a: Atom, v: Value, byName: bool, call: Callables)
    requires !v.Def?
    ensures Match(Scalar(a), v, byName, call) == Ok(v.Scalar? && AtomEq(a, v.atom))
  {
  }

  /** Data made only of scalars, lists and dicts. */
  predicate Plain(v: Value)
  {
    match v
    case Scalar(_) => true
    case List(items) => forall i :: 0 <= i < |items| ==> Plain(items[i])
    case Dict(es) => forall i :: 0 <= i < |es| ==> Plain(es[i].val)
    case _ => false
  }

  /** def_to_sel leaves plain data as it is. */
  lemma {:induction false} PlainLiftsToItself(v: Value)
    requires Plain(v)
    ensures LiftValue(v) == Ok(v)
    decreases v, 1
  {
    match v
    case Scalar(_) =>
    case List(items) => PlainItemsLift(items);
    case Dict(es) => PlainEntriesLift(es);
  }

  lemma {:induction false} PlainItemsLift(items: seq<Value>)
    requires forall i :: 0 <= i < |items| ==> Plain(items[i])
    ensures LiftItems(items) == Ok(items)
    decreases items, 0
  {
    if items != [] {
      PlainLiftsToItself(items[0]);
      assert forall i :: 1 <= i < |items| ==> items[i] == items[1..][i - 1];
      PlainItemsLift(items[1..]);
      assert [items[0]] + items[1..] == items;
    }
  }

  lemma {:induction false} PlainEntriesLift(es: seq<Entry>)
    requires forall i :: 0 <= i < |es| ==> Plain(es[i].val)
    ensures LiftEntries(es) == Ok(es)
    decreases es, 0
  {
    if es != [] {
      PlainLiftsToItself(es[0].val);
      assert forall i :: 1 <= i < |es| ==> es[i] == es[1..][i - 1];
      PlainEntriesLift(es[1..]);
      assert [Entry(es[0].key, es[0].val)] + es[1..] == es;
    }
  }

  /**
   * The selector lifted from a value matches that value: a definition nested
   * in the arguments is matched by the nested selector lifted from it.
   */
  lemma {:induction false} LiftedValueMatches(v: Value, byName: bool, call: Callables)
    requires Liftable(v) && WellFormed(v)
    ensures Match(LiftValue(v).value, v, byName, call) == Ok(true)
    decreases v, 1
  {
    match v
    case Scalar(a) =>
    case Obj(_, d) => LiftedDefSelects(d, call);
    case Def(d) => LiftedDefSelects(d, call);
    case List(items) =>
      LiftedItemsMatch(items, byName, call);
    case Dict(es) =>
      LiftedEntriesMatch(es, byName, call);
  }

  lemma {:induction false} LiftedItemsMatch(items: seq<Value>, byName: bool, call: Callables)
    requires forall i :: 0 <= i < |items| ==> Liftable(items[i]) && WellFormed(items[i])
    ensures MatchItems(LiftItems(items).value, items, byName, call) == Ok(true)
    decreases items, 0
  {
    var ps := LiftItems(items).value;
    forall i | 0 <= i < |items|
      ensures Match(ps[i], items[i], byName, call) == Ok(true)
    {
      LiftItemsAt(items, i);
      LiftedValueMatches(items[i], byName, call);
    }
    ItemsIff(ps, items, byName, call);
  }

  lemma {:induction false} LiftedEntriesMatch(es: seq<Entry>, byName: bool, call: Callables)
    requires DistinctKeys(es)
    requires forall i :: 0 <= i < |es| ==> Liftable(es[i].val) && WellFormed(es[i].val)
    ensures MatchEntries(LiftEntries(es).value, es, byName, call) == Ok(true)
    decreases es, 0
  {
    var pes := LiftEntries(es).value;
    forall i | 0 <= i < |pes|
      ensures Lookup(es, pes[i].key).Some? && Match(pes[i].val, Lookup(es, pes[i].key).value, byName, call) == Ok(true)
    {
      LiftEntriesAt(es, i);
      LookupDistinct(es, i);
      LiftedValueMatches(es[i].val, byName, call);
    }
    EntriesIff(pes, es, byName, call);
  }

  /** DrySelector.from_def(d) selects d. */
  lemma {:induction false} LiftedDefSelects(d: DryObjectDef, call: Callables)
    requires LiftableDef(d) && WellFormedDef(d)
    ensures SelectDef(LiftDef(d).value, d, call) == Ok(true)
    ensures Select(LiftDef(d).value, Def(d), call) == Ok(true)
    decreases d, 2
  {
    var s := LiftDef(d).value;
    assert s.args == Some(List(LiftItems(d.args).value));
    assert s.kwargs == Some(Dict(LiftEntries(d.kwargs).value));
    assert IsSubclass(d.cls, d.cls);
    assert ClsCompare(s.cls.value, d.cls, call) == Ok(true);
    LiftedItemsMatch(d.args, true, call);
    assert ArgsCompare(s.args.value, d.args, call) == Ok(true);
    LiftedEntriesMatch(d.kwargs, true, call);
    assert KwargsCompare(s.kwargs.value, d.kwargs, call) == Ok(true);
  }

  /** A pattern built only from scalars, lists and dicts matches itself. */
  lemma PlainMatchesItself(v: Value, byName: bool, call: Callables)
    requires Plain(v) && WellFormed(v)
    ensures Match(v, v, byName, call) == Ok(true)
  {
    PlainLiftsToItself(v);
    PlainIsLiftable(v);
    LiftedValueMatches(v, byName, call);
  }

  lemma {:induction false} PlainIsLiftable(v: Value)
    requires Plain(v)
    ensures Liftable(v)
  {
    PlainLiftsToItself(v);
  }

  // ---------------------------------------------------------------------
  // The selector call

  /** A component left as None always passes; the call is the AND of the others. */
  lemma SelectIsConjunction(s: DrySelector, d: DryObjectDef, call: Callables)
    ensures SelectDef(s, d, call) == Ok(true) <==>
      && (!Given(s.cls) || ClsCompare(s.cls.value, d.cls, call) == Ok(true))
      && (!Given(s.args) || ArgsCompare(s.args.value, d.args, call) == Ok(true))
      && (!Given(s.kwargs) || KwargsCompare(s.kwargs.value, d.kwargs, call) == Ok(true))
  {
  }

  /** The selector with every component None selects every definition and every object. */
  lemma WildcardSelectsEverything(d: DryObjectDef, r: nat, call: Callables)
    ensures Select(DrySelector(None, None, None), Def(d), call) == Ok(true)
    ensures Select(DrySelector(None, None, None), Obj(r, d), call) == Ok(true)
  {
  }

  /** A component holding Python None is skipped exactly like a missing one. */
  lemma NoneComponentIsWildcard(s: DrySelector, d: DryObjectDef, call: Callables)
    ensures
      var none := Some(Scalar(NoneAtom));
      && SelectDef(DrySelector(none, s.args, s.kwargs), d, call) == SelectDef(DrySelector(None, s.args, s.kwargs), d, call)
      && SelectDef(DrySelector(s.cls, none, s.kwargs), d, call) == SelectDef(DrySelector(s.cls, None, s.kwargs), d, call)
      && SelectDef(DrySelector(s.cls, s.args, none), d, call) == SelectDef(DrySelector(s.cls, s.args, None), d, call)
  {
  }

  /** A Mapping raises; anything else that is not a definition or an object gives False. */
  lemma SelectNonDefinitions(s: DrySelector, v: Value, call: Callables)
    requires !v.Def? && !v.Obj?
    ensures v.Dict? ==> Select(s, v, call) == Err(RuntimeError)
    ensures !v.Dict? ==> Select(s, v, call) == Ok(false)
  {
  }

  /**
   * cls_compare: a class gives a subclass test, a callable its verdict on the
   * class, a string equality with the class path, a selector False; any other
   * matcher raises ValueError.
   */
  lemma ClsCompareKinds(m: Value, c: Class, call: Callables)
    ensures m.TypeRef? ==> ClsCompare(m, c, call) == Ok(IsSubclass(c, m.cls))
    ensures m.Callable? ==> ClsCompare(m, c, call) == Ok(call(m.name, TypeRef(c)))
    ensures m.Scalar? && m.atom.Str? ==> ClsCompare(m, c, call) == Ok(m.atom.s == c.path)
    ensures m.Sel? ==> ClsCompare(m, c, call) == Ok(false)
    ensures ClsCompare(m, c, call).Err? <==> !(m.TypeRef? || m.Callable? || m.Sel? || (m.Scalar? && m.atom.Str?))
    ensures ClsCompare(m, c, call).Err? ==> ClsCompare(m, c, call).error == ValueError
  {
  }

  /** The selector example: class Greeter with kwargs {msg: "hi"}. */
  lemma GreeterExample(greeter: Class, id: string, call: Callables)
    ensures
      var pattern := DrySelector(Some(TypeRef(greeter)), None, Some(Dict([Entry("msg", Scalar(Str("hi")))])));
      var hi := DryObjectDef(greeter, [], [Entry("msg", Scalar(Str("hi"))), Entry(DryIdKey, Scalar(Str(id)))]);
      var bye := DryObjectDef(greeter, [], [Entry("msg", Scalar(Str("bye"))), Entry(DryIdKey, Scalar(Str(id)))]);
      SelectDef(pattern, hi, call) == Ok(true) && SelectDef(pattern, bye, call) == Ok(false)
  {
  }

  /** Selecting a saved archive is selecting the definition it was saved from, when its class is current. */
  lemma SelectSavedArchive(s: DrySelector, a: Archive, d: DryObjectDef, content: Archive, m: Modules, call: Callables)
    requires ContentOnly(content) && IsCurrent(m, d.cls)
    ensures SelectFile(s, SavedV1(a, d, d.cls, content), m, call) == SelectDef(s, d, call)
  {
  }

  /** The selector lifted from a definition selects the archive saved from it. */
  lemma LiftedSelectsSavedArchive(d: DryObjectDef, content: Archive, m: Modules, call: Callables)
    requires LiftableDef(d) && WellFormedDef(d)
    requires ContentOnly(content) && IsCurrent(m, d.cls)
    ensures SelectFile(LiftDef(d).value, SavedV1(map[], d, d.cls, content), m, call) == Ok(true)
  {
    SelectSavedArchive(LiftDef(d).value, map[], d, content, m, call);
    LiftedDefSelects(d, call);
  }

  /** An archive that cannot be read is not silently skipped: the selector raises what reading raised. */
  lemma UnreadableArchiveRaises(s: DrySelector, a: Archive, m: Modules, call: Callables)
    requires Definition(a, m, true, false).Err?
    ensures SelectFile(s, a, m, call) == Err(Definition(a, m, true, false).error)
  {
  }
}
