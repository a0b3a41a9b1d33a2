/**
 * The value grammar shared by definitions, selectors and archives, and the
 * collaborators of the core whose source is not part of this model
 * (dry_config's DryObjectDef, utils' class inspection).
 *
 * A Python value that can appear in a definition or a pattern is a `Value`:
 * a scalar, a list or tuple, a dict (kept in insertion order), a definition,
 * a live DryObject, a class, a callable, or a nested selector.
 */
module DryConfig {

  datatype Option<T> = None | Some(value: T)

  /** The exception classes the core raises or lets through. */
  datatype Error =
    | TypeError
    | ValueError
    | KeyError
    | RuntimeError
    | ImportError       // a class or module that can no longer be found
    | UnpicklingError   // bytes that do not decode to a value

  /** A value, or the exception that was raised instead. */
  datatype Result<T> = Ok(value: T) | Err(error: Error)

  /**
   * A class: its qualified path (what get_class_str returns), a generation
   * number that tells apart two implementations of the same path (a module
   * reloaded in-process), and its direct bases. Being an inductive datatype,
   * the inheritance relation is acyclic.
   */
  datatype Class = Class(path: string, generation: nat, bases: seq<Class>)

  /** Python's issubclass: the class itself or, transitively, one of its bases. */
  predicate IsSubclass(c: Class, base: Class)
    decreases c
  {
    c == base || exists i :: 0 <= i < |c.bases| && IsSubclass(c.bases[i], base)
  }

  /** Python scalars that definitions carry as they are. */
  datatype Atom = NoneAtom | Bool(b: bool) | Int(i: int) | Str(s: string)

  function Numeric(a: Atom): Option<int>
  {
    match a
    case Bool(b) => Some(if b then 1 else 0)
    case Int(i) => Some(i)
    case _ => None
  }

  /** Python `==` on scalars: bool is an int subtype, so True == 1 and False == 0. */
  predicate AtomEq(a: Atom, b: Atom)
  {
    if Numeric(a).Some? && Numeric(b).Some? then Numeric(a) == Numeric(b) else a == b
  }

  datatype Value =
    | Scalar(atom: Atom)
    | List(items: seq<Value>)              // list or tuple
    | Dict(entries: seq<Entry>)            // dict, in insertion order
    | Def(def: DryObjectDef)
    | Obj(ref: nat, def: DryObjectDef)     // a live DryObject: its identity and its definition()
    | TypeRef(cls: Class)
    | Callable(name: string)               // a callable, interpreted by a `Callables` parameter
    | Sel(sel: DrySelector)

  datatype Entry = Entry(key: string, val: Value)

  /** DryObjectDef: the class and the positional and keyword arguments. */
  datatype DryObjectDef = DryObjectDef(cls: Class, args: seq<Value>, kwargs: seq<Entry>)

  /** A DrySelector: each component is a pattern, or None for "anything". */
  datatype DrySelector = DrySelector(cls: Option<Value>, args: Option<Value>, kwargs: Option<Value>)

  /** What each named callable answers when applied to a value. */
  type Callables = (string, Value) -> bool

  /** The keyword under which every DryObject keeps its identity. */
  const DryIdKey: string := "dry_id"

  // ---------------------------------------------------------------------
  // Dicts as association lists

  function Keys(es: seq<Entry>): (ks: set<string>)
  {
    if es == [] then {} else {es[0].key} + Keys(es[1..])
  }

  lemma {:induction false} KeysIndex(es: seq<Entry>, i: nat)
    requires i < |es|
    ensures es[i].key in Keys(es)
  {
    if i > 0 {
      assert es[1..][i - 1] == es[i];
      KeysIndex(es[1..], i - 1);
    }
  }

  /** `d[key]` for a dict: the value of the first entry with that key. */
  function Lookup(es: seq<Entry>, key: string): (r: Option<Value>)
    ensures r.Some? <==> key in Keys(es)
  {
    if es == [] then None
    else if es[0].key == key then Some(es[0].val)
    else Lookup(es[1..], key)
  }

  /** `d[key] = val`: replaces the value in place when the key is present, appends otherwise. */
  function SetKey(es: seq<Entry>, key: string, val: Value): (r: seq<Entry>)
    ensures Lookup(r, key) == Some(val)
    ensures Keys(r) == Keys(es) + {key}
  {
    if es == [] then [Entry(key, val)]
    else if es[0].key == key then [Entry(key, val)] + es[1..]
    else
      var rest := SetKey(es[1..], key, val);
      assert ([es[0]] + rest)[1..] == rest;
      [es[0]] + rest
  }

  /** Setting one key leaves every other key as it was. */
  lemma {:induction false} SetKeyOther(es: seq<Entry>, key: string, val: Value, other: string)
    requires other != key
    ensures Lookup(SetKey(es, key, val), other) == Lookup(es, other)
  {
    if es != [] && es[0].key != key {
      var rest := SetKey(es[1..], key, val);
      assert ([es[0]] + rest)[1..] == rest;
      SetKeyOther(es[1..], key, val, other);
    } else if es != [] {
      assert ([Entry(key, val)] + es[1..])[1..] == es[1..];
    }
  }

  /** Python dicts never hold a key twice. */
  predicate DistinctKeys(es: seq<Entry>)
  {
    forall i, j :: 0 <= i < j < |es| ==> es[i].key != es[j].key
  }

  /** Every dict inside the value, at any depth, has distinct keys. */
  predicate WellFormed(v: Value)
    decreases v, 1
  {
    match v
    case List(items) => forall i :: 0 <= i < |items| ==> WellFormed(items[i])
    case Dict(es) => DistinctKeys(es) && forall i :: 0 <= i < |es| ==> WellFormed(es[i].val)
    case Def(d) => WellFormedDef(d)
    case Obj(_, d) => WellFormedDef(d)
    case _ => true
  }

  predicate WellFormedDef(d: DryObjectDef)
    decreases d, 0
  {
    && (forall i :: 0 <= i < |d.args| ==> WellFormed(d.args[i]))
    && DistinctKeys(d.kwargs)
    && (forall i :: 0 <= i < |d.kwargs| ==> WellFormed(d.kwargs[i].val))
  }

  lemma {:induction false} LookupDistinct(es: seq<Entry>, i: nat)
    requires DistinctKeys(es) && i < |es|
    ensures Lookup(es, es[i].key) == Some(es[i].val)
  {
    if i > 0 {
      assert es[1..][i - 1] == es[i];
      LookupDistinct(es[1..], i - 1);
    }
  }

  /** A key already present is found before anything appended after it. */
  lemma {:induction false} LookupAppendPresent(es: seq<Entry>, extra: seq<Entry>, key: string)
    requires key in Keys(es)
    ensures Lookup(es + extra, key) == Lookup(es, key)
  {
    assert (es + extra)[0] == es[0];
    if es[0].key != key {
      assert (es + extra)[1..] == es[1..] + extra;
      LookupAppendPresent(es[1..], extra, key);
    }
  }

  /** A key that the appended entries do not hold is looked up as before. */
  lemma {:induction false} LookupAppendAbsent(es: seq<Entry>, extra: seq<Entry>, key: string)
    requires key !in Keys(extra)
    ensures Lookup(es + extra, key) == Lookup(es, key)
  {
    if es == [] {
      assert es + extra == extra;
      assert Lookup(extra, key) == None;
    } else {
      assert (es + extra)[0] == es[0];
      assert (es + extra)[1..] == es[1..] + extra;
      LookupAppendAbsent(es[1..], extra, key);
    }
  }

  /** Setting a key to the value it already holds first leaves the dict unchanged. */
  lemma {:induction false} SetKeyExisting(es: seq<Entry>, key: string)
    requires Lookup(es, key).Some?
    ensures SetKey(es, key, Lookup(es, key).value) == es
  {
    if es[0].key != key {
      SetKeyExisting(es[1..], key);
    }
  }

  // ---------------------------------------------------------------------
  // DryObjectDef.equal (dry_config.py is not part of this model)

  /** The position of the first entry holding `key`, or -1 when there is none. */
  function KeyIndex(es: seq<Entry>, key: string): (i: int)
    ensures -1 <= i < |es|
    ensures i == -1 <==> key !in Keys(es)
    ensures i >= 0 ==> es[i].key == key && Lookup(es, key) == Some(es[i].val)
  {
    if es == [] then -1
    else if es[0].key == key then 0
    else
      var j := KeyIndex(es[1..], key);
      if j == -1 then -1 else j + 1
  }

  /** Class identity: by qualified path when comparing by name, exact otherwise. */
  predicate ClassEq(a: Class, b: Class, byName: bool)
  {
    if byName then a.path == b.path else a == b
  }

  /**
   * Equality of argument values as DryObjectDef.equal applies it: scalars by
   * Python `==`, sequences position by position, dicts key by key in any
   * order, nested definitions by the same comparison mode, live objects by
   * identity, anything else exactly.
   */
  predicate ValueEq(a: Value, b: Value, byName: bool)
    decreases a, 2
  {
    match a
    case Scalar(x) => b.Scalar? && AtomEq(x, b.atom)
    case List(xs) => b.List? && |xs| == |b.items| && forall i :: 0 <= i < |xs| ==> ValueEq(xs[i], b.items[i], byName)
    case Dict(es) => b.Dict? && EntriesEq(es, b.entries, byName)
    case Def(d) => b.Def? && DefEq(d, b.def, byName)
    case Obj(r, _) => b.Obj? && b.ref == r
    case _ => a == b
  }

  /** Two dicts hold the same keys, and the values under each key are equal. */
  predicate EntriesEq(a: seq<Entry>, b: seq<Entry>, byName: bool)
    decreases a, 1
  {
    && Keys(a) == Keys(b)
    && forall k :: k in Keys(a) ==> ValueEq(a[KeyIndex(a, k)].val, b[KeyIndex(b, k)].val, byName)
  }

  /** Two definitions have matching classes, equal positional arguments and equal keyword arguments. */
  predicate DefEq(d: DryObjectDef, e: DryObjectDef, byName: bool)
    decreases d, 0
  {
    && ClassEq(d.cls, e.cls, byName)
    && |d.args| == |e.args|
    && (forall i :: 0 <= i < |d.args| ==> ValueEq(d.args[i], e.args[i], byName))
    && EntriesEq(d.kwargs, e.kwargs, byName)
  }

  /** The contract taken for DryObjectDef.equal: `other` is a definition equal to `d`, applied recursively. */
  predicate DefEqual(d: DryObjectDef, other: Value, byName: bool)
  {
    other.Def? && DefEq(d, other.def, byName)
  }
}
