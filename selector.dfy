/**
 * The structural matcher and the selector of dry_selector.py.
 *
 * `Match` is DrySelector.match_objects: it dispatches on the kind of the
 * pattern in a fixed order (class, selector, callable, definition on either
 * side, dict, non-string sequence, anything else). `Select` and `SelectDef`
 * are DrySelector.__call__; `ClsCompare`, `ArgsCompare` and `KwargsCompare`
 * are the component checks it ANDs together. Verbosity only decides what is
 * printed, so it has no parameter here.
 */
module DrySelectors {
  import opened DryConfig
  import opened DryObjects

  /** is_nonstring_iterable on the values of the grammar: lists, tuples and dicts. */
  predicate NonStringIterable(v: Value)
  {
    v.List? || v.Dict?
  }

  /** len() of a non-string iterable. */
  function Length(v: Value): nat
    requires NonStringIterable(v)
  {
    if v.List? then |v.items| else |v.entries|
  }

  /** The last branch of match_objects, `key_object != value_object`, for the patterns that reach it. */
  predicate PlainEq(k: Value, v: Value)
  {
    match k
    case Scalar(a) => v.Scalar? && AtomEq(a, v.atom)
    case Obj(r, _) => v.Obj? && v.ref == r      // objects compare by identity
    case _ => k == v
  }

  /**
   * DrySelector.match_objects(key_object, value_object, cls_str_compare=byName).
   * Err(e) stands for the exception e escaping the call.
   */
  function Match(k: Value, v: Value, byName: bool, call: Callables): Result<bool>
    decreases k, 1
  {
    match k
    case TypeRef(c) =>
      // issubclass(value_object, key_object) raises unless value_object is a class
      if v.TypeRef? then Ok(IsSubclass(v.cls, c)) else Err(TypeError)
    case Sel(s) => Select(s, v, call)
    case Callable(n) => Ok(call(n, v))
    case Def(d) => Ok(DefEqual(d, v, byName))
    case Dict(pes) =>
      if v.Def? then Ok(DefEqual(v.def, k, byName))
      else if !v.Dict? then Ok(false)
      else MatchEntries(pes, v.entries, byName, call)
    case List(ps) =>
      if v.Def? then Ok(DefEqual(v.def, k, byName))
      else if !NonStringIterable(v) then Ok(false)
      else if |ps| != Length(v) then Ok(false)
      else if v.Dict? then
        // value_object[0] on a dict whose keys are strings raises KeyError
        if ps == [] then Ok(true) else Err(KeyError)
      else MatchItems(ps, v.items, byName, call)
    case Scalar(_) =>
      if v.Def? then Ok(DefEqual(v.def, k, byName)) else Ok(PlainEq(k, v))
    case Obj(_, _) =>
      if v.Def? then Ok(DefEqual(v.def, k, byName)) else Ok(PlainEq(k, v))
  }

  /** The loop over `range(len(key_object))`, stopping at the first element that does not match. */
  function MatchItems(ps: seq<Value>, vs: seq<Value>, byName: bool, call: Callables): Result<bool>
    requires |ps| == |vs|
    decreases ps, 0
  {
    if ps == [] then Ok(true)
    else
      match Match(ps[0], vs[0], byName, call)
      case Err(e) => Err(e)
      case Ok(b) => if !b then Ok(false) else MatchItems(ps[1..], vs[1..], byName, call)
  }

  /** The loop over the keys of a dict pattern, in order, stopping at the first missing or failing key. */
  function MatchEntries(pes: seq<Entry>, cands: seq<Entry>, byName: bool, call: Callables): Result<bool>
    decreases pes, 0
  {
    if pes == [] then Ok(true)
    else
      match Lookup(cands, pes[0].key)
      case None => Ok(false)
      case Some(cv) =>
        match Match(pes[0].val, cv, byName, call)
        case Err(e) => Err(e)
        case Ok(b) => if !b then Ok(false) else MatchEntries(pes[1..], cands, byName, call)
  }

  /**
   * DrySelector.cls_compare. A selector is callable too: calling it on a class
   * yields False, since a class is not a matchable object.
   */
  function ClsCompare(m: Value, c: Class, call: Callables): Result<bool>
    decreases m, 0
  {
    match m
    case TypeRef(t) => Ok(IsSubclass(c, t))
    case Sel(s) => Select(s, TypeRef(c), call)
    case Callable(n) => Ok(call(n, TypeRef(c)))
    case Scalar(Str(p)) => Ok(p == c.path)
    case _ => Err(ValueError)
  }

  /** DrySelector.args_compare: note that it leaves cls_str_compare at its default, True. */
  function ArgsCompare(m: Value, args: seq<Value>, call: Callables): Result<bool>
    decreases m, 2
  {
    Match(m, List(args), true, call)
  }

  /** DrySelector.kwargs_compare, also comparing nested definitions by class name. */
  function KwargsCompare(m: Value, kwargs: seq<Entry>, call: Callables): Result<bool>
    decreases m, 2
  {
    Match(m, Dict(kwargs), true, call)
  }

  /** `component is not None`: a missing component and one holding Python None both mean "anything". */
  predicate Given(p: Option<Value>)
  {
    p.Some? && p.value != Scalar(NoneAtom)
  }

  /** The three component checks of DrySelector.__call__ on a definition, in order. */
  function SelectDef(s: DrySelector, d: DryObjectDef, call: Callables): Result<bool>
    decreases s, 0
  {
    var c := if Given(s.cls) then ClsCompare(s.cls.value, d.cls, call) else Ok(true);
    if c != Ok(true) then c
    else
      var a := if Given(s.args) then ArgsCompare(s.args.value, d.args, call) else Ok(true);
      if a != Ok(true) then a
      else if Given(s.kwargs) then KwargsCompare(s.kwargs.value, d.kwargs, call) else Ok(true)
  }

  /** DrySelector.__call__ on a value: definitions and objects are matched, a Mapping raises. */
  function Select(s: DrySelector, v: Value, call: Callables): Result<bool>
    decreases s, 1
  {
    match v
    case Def(d) => SelectDef(s, d, call)
    case Obj(_, d) => SelectDef(s, d, call)
    case Dict(_) => Err(RuntimeError)
    case _ => Ok(false)
  }

  /** DrySelector.__call__ on a live DryObject: its definition() is matched. */
  function SelectObject(s: DrySelector, o: DryObject, call: Callables): Result<bool>
    reads o
  {
    SelectDef(s, o.Definition(), call)
  }

  /**
   * DrySelector.__call__ on a DryObjectFile: its definition(), read with update
   * on and reload off, is matched; failing to read it raises.
   */
  function SelectFile(s: DrySelector, a: Archive, m: Modules, call: Callables): Result<bool>
  {
    match Definition(a, m, true, false)
    case Err(e) => Err(e)
    case Ok(d) => SelectDef(s, d, call)
  }

  // ---------------------------------------------------------------------
  // Lifting a definition into a selector (def_to_sel, DrySelector.from_def)

  /** The values def_to_sel accepts: scalars, objects, definitions and containers of them. */
  predicate Liftable(v: Value)
    decreases v, 1
  {
    match v
    case Scalar(_) => true
    case Obj(_, d) => LiftableDef(d)
    case Def(d) => LiftableDef(d)
    case List(items) => forall i :: 0 <= i < |items| ==> Liftable(items[i])
    case Dict(es) => forall i :: 0 <= i < |es| ==> Liftable(es[i].val)
    case _ => false
  }

  predicate LiftableDef(d: DryObjectDef)
    decreases d, 0
  {
    && (forall i :: 0 <= i < |d.args| ==> Liftable(d.args[i]))
    && (forall i :: 0 <= i < |d.kwargs| ==> Liftable(d.kwargs[i].val))
  }

  /**
   * def_to_sel: scalars stay as they are, objects and definitions become
   * nested selectors, lists and dicts are mapped element by element, and
   * anything else raises RuntimeError.
   */
  function LiftValue(v: Value): (r: Result<Value>)
    ensures r.Ok? <==> Liftable(v)
    ensures r.Err? ==> r.error == RuntimeError
    ensures r.Ok? && v.Scalar? ==> r.value == v
    ensures r.Ok? && v.List? ==> r.value.List? && |r.value.items| == |v.items|
    ensures r.Ok? && v.Dict? ==> r.value.Dict? && KeySeq(r.value.entries) == KeySeq(v.entries)
    ensures r.Ok? && (v.Def? || v.Obj?) ==> r.value.Sel?
    decreases v, 1
  {
    match v
    case Scalar(_) => Ok(v)
    case Obj(_, d) => LiftedSel(LiftDef(d))
    case Def(d) => LiftedSel(LiftDef(d))
    case List(items) =>
      (match LiftItems(items)
       case Ok(ps) => Ok(List(ps))
       case Err(e) => Err(e))
    case Dict(es) =>
      (match LiftEntries(es)
       case Ok(pes) => Ok(Dict(pes))
       case Err(e) => Err(e))
    case _ => Err(RuntimeError)
  }

  /** A lifted definition, as a nested selector value. */
  function LiftedSel(r: Result<DrySelector>): Result<Value>
  {
    match r
    case Ok(s) => Ok(Sel(s))
    case Err(e) => Err(e)
  }

  /** The keys of a dict, in order. */
  function KeySeq(es: seq<Entry>): seq<string>
  {
    if es == [] then [] else [es[0].key] + KeySeq(es[1..])
  }

  /** map_listlike(applier, items): the first element that cannot be lifted raises. */
  function LiftItems(items: seq<Value>): (r: Result<seq<Value>>)
    ensures r.Ok? <==> forall i :: 0 <= i < |items| ==> Liftable(items[i])
    ensures r.Err? ==> r.error == RuntimeError
    ensures r.Ok? ==> |r.value| == |items|
    decreases items, 0
  {
    if items == [] then Ok([])
    else
      match LiftValue(items[0])
      case Err(e) => Err(e)
      case Ok(p) =>
        match LiftItems(items[1..])
        case Err(e) =>
          assert !Liftable(items[1..][0]) || exists i :: 0 <= i < |items[1..]| && !Liftable(items[1..][i]);
          Err(e)
        case Ok(ps) =>
          assert forall i :: 1 <= i < |items| ==> items[i] == items[1..][i - 1];
          Ok([p] + ps)
  }

  /** map_dictlike(applier, es): the keys stay, in order; each value is lifted. */
  function LiftEntries(es: seq<Entry>): (r: Result<seq<Entry>>)
    ensures r.Ok? <==> forall i :: 0 <= i < |es| ==> Liftable(es[i].val)
    ensures r.Err? ==> r.error == RuntimeError
    ensures r.Ok? ==> |r.value| == |es| && KeySeq(r.value) == KeySeq(es)
    decreases es, 0
  {
    if es == [] then Ok([])
    else
      match LiftValue(es[0].val)
      case Err(e) => Err(e)
      case Ok(p) =>
        match LiftEntries(es[1..])
        case Err(e) =>
          assert exists i :: 0 <= i < |es[1..]| && !Liftable(es[1..][i].val);
          Err(e)
        case Ok(pes) =>
          assert forall i :: 1 <= i < |es| ==> es[i] == es[1..][i - 1];
          var r := [Entry(es[0].key, p)] + pes;
          assert r[1..] == pes;
          Ok(r)
  }

  /**
   * DrySelector.from_def without a cache: a selector whose class pattern is
   * the definition's class and whose argument patterns are the lifted arguments.
   */
  function LiftDef(d: DryObjectDef): (r: Result<DrySelector>)
    ensures r.Ok? <==> LiftableDef(d)
    ensures r.Err? ==> r.error == RuntimeError
    ensures r.Ok? ==> r.value.cls == Some(TypeRef(d.cls))
    ensures r.Ok? ==> r.value.args.Some? && r.value.args.value.List? && |r.value.args.value.items| == |d.args|
    ensures r.Ok? ==> r.value.kwargs.Some? && r.value.kwargs.value.Dict? && KeySeq(r.value.kwargs.value.entries) == KeySeq(d.kwargs)
    decreases d, 2
  {
    match LiftItems(d.args)
    case Err(e) => Err(e)
    case Ok(args) =>
      match LiftEntries(d.kwargs)
      case Err(e) => Err(e)
      case Ok(kwargs) => Ok(DrySelector(Some(TypeRef(d.cls)), Some(List(args)), Some(Dict(kwargs))))
  }

  /** Lifting a list lifts each element in place. */
  lemma {:induction false} LiftItemsAt(items: seq<Value>, j: nat)
    requires LiftItems(items).Ok? && j < |items|
    ensures LiftValue(items[j]).Ok? && LiftItems(items).value[j] == LiftValue(items[j]).value
  {
    if j > 0 {
      assert items[1..][j - 1] == items[j];
      LiftItemsAt(items[1..], j - 1);
    }
  }

  /** Lifting a dict keeps each key at its position and lifts its value. */
  lemma {:induction false} LiftEntriesAt(es: seq<Entry>, j: nat)
    requires LiftEntries(es).Ok? && j < |es|
    ensures LiftValue(es[j].val).Ok?
    ensures LiftEntries(es).value[j] == Entry(es[j].key, LiftValue(es[j].val).value)
  {
    if j > 0 {
      assert es[1..][j - 1] == es[j];
      LiftEntriesAt(es[1..], j - 1);
    }
  }

  /**
   * The cache that DrySelector.from_def threads through one conversion,
   * keyed here by the definition itself rather than by its id(). Every entry
   * is the selector that lifting its key yields.
   */
  class SelectorCache {
    var entries: map<DryObjectDef, DrySelector>

    ghost predicate Valid()
      reads this
    {
      forall d :: d in entries ==> LiftDef(d) == Ok(entries[d])
    }

    /** `cache = {}` */
    constructor ()
      ensures Valid() && entries == map[]
    {
      entries := map[];
    }

    /** What a conversion step may do to the cache: keep every entry and add new ones. */
    ghost predicate Extends(old_entries: map<DryObjectDef, DrySelector>)
      reads this
    {
      forall d :: d in old_entries ==> d in entries && entries[d] == old_entries[d]
    }

    /**
     * DrySelector.from_def(obj_def, cache): a cached definition is answered from
     * the cache without touching it; otherwise the arguments are lifted and the
     * new selector is stored.
     */
    method FromDef(d: DryObjectDef) returns (r: Result<DrySelector>)
      requires Valid()
      modifies this
      ensures Valid() && Extends(old(entries))
      ensures r == LiftDef(d)
      ensures d in old(entries) ==> entries == old(entries) && r == Ok(old(entries)[d])
      ensures r.Ok? ==> d in entries && entries[d] == r.value
      decreases d, 2
    {
      if d in entries {
        return Ok(entries[d]);
      }
      var args := LiftAll(d.args);
      if args.Err? {
        return Err(args.error);
      }
      var kwargs := LiftAllEntries(d.kwargs);
      if kwargs.Err? {
        return Err(kwargs.error);
      }
      var sel := DrySelector(Some(TypeRef(d.cls)), Some(List(args.value)), Some(Dict(kwargs.value)));
      entries := entries[d := sel];
      r := Ok(sel);
    }

    /** def_to_sel(val, cache) */
    method DefToSel(v: Value) returns (r: Result<Value>)
      requires Valid()
      modifies this
      ensures Valid() && Extends(old(entries))
      ensures r == LiftValue(v)
      decreases v, 1
    {
      match v {
        case Scalar(_) =>
          r := Ok(v);
        case Obj(_, d) =>
          var s := FromDef(d);
          r := LiftedSel(s);
        case Def(d) =>
          var s := FromDef(d);
          r := LiftedSel(s);
        case List(items) =>
          var ps := LiftAll(items);
          r := if ps.Ok? then Ok(List(ps.value)) else Err(ps.error);
        case Dict(es) =>
          var pes := LiftAllEntries(es);
          r := if pes.Ok? then Ok(Dict(pes.value)) else Err(pes.error);
        case _ =>
          r := Err(RuntimeError);
      }
    }

    /** map_listlike(applier, items), stopping at the first element that raises. */
    method LiftAll(items: seq<Value>) returns (r: Result<seq<Value>>)
      requires Valid()
      modifies this
      ensures Valid() && Extends(old(entries))
      ensures r == LiftItems(items)
      decreases items, 0
    {
      var acc: seq<Value> := [];
      var i := 0;
      while i < |items|
        invariant 0 <= i <= |items| && |acc| == i
        invariant Valid() && Extends(old(entries))
        invariant forall j :: 0 <= j < i ==> LiftValue(items[j]).Ok? && acc[j] == LiftValue(items[j]).value
      {
        var p := DefToSel(items[i]);
        if p.Err? {
          assert !Liftable(items[i]);
          assert LiftItems(items).Err?;
          return Err(p.error);
        }
        acc := acc + [p.value];
        i := i + 1;
      }
      assert LiftItems(items).Ok?;
      forall j | 0 <= j < |items|
        ensures LiftItems(items).value[j] == acc[j]
      {
        LiftItemsAt(items, j);
      }
      assert LiftItems(items).value == acc;
      r := Ok(acc);
    }

    /** map_dictlike(applier, es): every value lifted, every key kept in its place. */
    method LiftAllEntries(es: seq<Entry>) returns (r: Result<seq<Entry>>)
      requires Valid()
      modifies this
      ensures Valid() && Extends(old(entries))
      ensures r == LiftEntries(es)
      decreases es, 0
    {
      var acc: seq<Entry> := [];
      var i := 0;
      while i < |es|
        invariant 0 <= i <= |es| && |acc| == i
        invariant Valid() && Extends(old(entries))
        invariant forall j :: 0 <= j < i ==> LiftValue(es[j].val).Ok? && acc[j] == Entry(es[j].key, LiftValue(es[j].val).value)
      {
        var p := DefToSel(es[i].val);
        if p.Err? {
          assert !Liftable(es[i].val);
          assert LiftEntries(es).Err?;
          return Err(p.error);
        }
        acc := acc + [Entry(es[i].key, p.value)];
        i := i + 1;
      }
      assert LiftEntries(es).Ok?;
      forall j | 0 <= j < |es|
        ensures LiftEntries(es).value[j] == acc[j]
      {
        LiftEntriesAt(es, j);
      }
      assert LiftEntries(es).value == acc;
      r := Ok(acc);
    }
  }

  /**
   * DrySelector.build: objects and definitions are lifted with a fresh cache,
   * a Mapping goes to from_dict, which always raises, and anything else is a TypeError.
   */
  method Build(v: Value) returns (r: Result<DrySelector>)
    ensures (v.Def? || v.Obj?) ==> r == LiftDef(v.def)
    ensures v.Dict? ==> r == Err(RuntimeError)
    ensures !(v.Def? || v.Obj? || v.Dict?) ==> r == Err(TypeError)
  {
    if v.Obj? || v.Def? {
      var cache := new SelectorCache();
      r := cache.FromDef(v.def);
    } else if v.Dict? {
      r := Err(RuntimeError);
    } else {
      r := Err(TypeError);
    }
  }
}
