/**
 * dry_object.py: the `.dry` archive format, DryObject identity, the
 * process-wide repo slot of load_object, and DryObjectFactory.
 *
 * An archive is a map from entry names to blobs; pickle and dill are an
 * abstract encoder whose decoder inverts it. A class is found again through a
 * `Modules` table (what get_current_cls sees), and uuid4 is an `IdSupply`.
 */
module DryObjects {
  import opened DryConfig

  // ---------------------------------------------------------------------
  // File names (file_resolve)

  /** str.rfind: the last index of `ch` in `s`, or -1. */
  function RFind(s: string, ch: char): (r: int)
    ensures -1 <= r < |s|
    ensures r >= 0 ==> s[r] == ch
    ensures forall i :: r < i < |s| ==> s[i] != ch
  {
    if s == [] then -1
    else if s[|s| - 1] == ch then |s| - 1
    else RFind(s[..|s| - 1], ch)
  }

  /**
   * os.path.splitext(f)[1] != '' on POSIX: the last dot comes after the last
   * separator, and the basename holds a character other than a dot before it
   * (leading dots, as in ".bashrc", do not start an extension).
   */
  predicate HasExtension(f: string)
  {
    var sep := RFind(f, '/');
    var dot := RFind(f, '.');
    sep < dot && exists i :: sep < i < dot && f[i] != '.'
  }

  /** The last path component holds a character other than a dot. */
  predicate BasenameHasNonDot(f: string)
  {
    exists i :: RFind(f, '/') < i < |f| && f[i] != '.'
  }

  /** file_resolve: add ".dry" to a name without an extension, unless the path is exact. */
  function FileResolve(file: string, exactPath: bool): (r: string)
    ensures r == file <==> exactPath || HasExtension(file)
    ensures r != file ==> r == file + ".dry"
  {
    if !HasExtension(file) && !exactPath then file + ".dry" else file
  }

  lemma {:induction false} RFindAppend(s: string, t: string, ch: char)
    requires forall i :: 0 <= i < |t| ==> t[i] != ch
    ensures RFind(s + t, ch) == RFind(s, ch)
    decreases |t|
  {
    if t == [] {
      assert s + t == s;
    } else {
      var u := s + t;
      assert u[..|u| - 1] == s + t[..|t| - 1];
      RFindAppend(s, t[..|t| - 1], ch);
    }
  }

  /** The name file_resolve produces has an extension iff the basename has a non-dot character. */
  lemma ResolvedNameHasExtension(f: string)
    requires !HasExtension(f)
    ensures HasExtension(FileResolve(f, false)) <==> BasenameHasNonDot(f)
  {
    var g := f + ".dry";
    RFindAppend(f, ".dry", '/');
    RFindAppend(f + ".", "dry", '.');
    assert f + "." + "dry" == g;
    assert RFind(f + ".", '.') == |f|;
    assert forall i :: 0 <= i < |f| ==> g[i] == f[i];
  }

  lemma ExtensionMeansNonDotBasename(f: string)
    requires HasExtension(f)
    ensures BasenameHasNonDot(f)
  {
  }

  /**
   * Resolving twice is resolving once exactly when the basename has a
   * character other than a dot: "", "dir/", "." and ".." grow on every call.
   */
  lemma FileResolveIdempotentIff(f: string)
    ensures FileResolve(FileResolve(f, false), false) == FileResolve(f, false) <==> BasenameHasNonDot(f)
  {
    if HasExtension(f) {
      ExtensionMeansNonDotBasename(f);
    } else {
      ResolvedNameHasExtension(f);
      assert |FileResolve(f, false) + ".dry"| > |FileResolve(f, false)|;
    }
  }

  /** An exact path, or a name with an extension, is used as given. */
  lemma FileResolveKeeps(f: string, exactPath: bool)
    requires exactPath || HasExtension(f)
    ensures FileResolve(f, exactPath) == f
  {
  }

  /** A bare name gains the suffix; the same name given as an exact path does not. */
  lemma FileResolveBareName()
    ensures FileResolve("model", false) == "model.dry"
    ensures FileResolve("model", true) == "model"
  {
    RFindAppend([], "model", '.');
    assert [] + "model" == "model";
  }

  /** A name with any extension, not only ".dry", is kept. */
  lemma FileResolveForeignExtension()
    ensures FileResolve("a.zip", false) == "a.zip"
  {
    RFindAppend([], "a.zip", '/');
    assert [] + "a.zip" == "a.zip";
    RFindAppend("a.", "zip", '.');
    assert "a." + "zip" == "a.zip";
    assert RFind("a.", '.') == 1;
    assert "a.zip"[0] != '.';
  }

  /** A leading dot does not start an extension. */
  lemma FileResolveLeadingDot()
    ensures FileResolve(".bashrc", false) == ".bashrc.dry"
  {
    RFindAppend([], ".bashrc", '/');
    assert [] + ".bashrc" == ".bashrc";
    RFindAppend(".", "bashrc", '.');
    assert "." + "bashrc" == ".bashrc";
  }

  /** The empty name gains the suffix alone. */
  lemma FileResolveEmptyName()
    ensures FileResolve("", false) == ".dry"
  {
  }

  /** The only dot of ".dry" leads the name, so it has no extension and grows again. */
  lemma FileResolveDotDryGrows()
    ensures FileResolve(".dry", false) == ".dry.dry"
  {
    var f := ".dry";
    assert RFind(f, '/') == -1 by {
      RFindAppend([], f, '/');
      assert [] + f == f;
    }
    assert RFind(f, '.') == 0 by {
      RFindAppend(".", "dry", '.');
      assert "." + "dry" == f;
    }
    assert !HasExtension(f);
  }

  // ---------------------------------------------------------------------
  // Entries and blobs

  /** Bytes written by pickler (pickle) or dill.dumps, or bytes of any other origin. */
  datatype Blob = Pickled(v: Value) | Raw(bytes: seq<bv8>)

  /** An open zip archive: entry names to contents. */
  type Archive = map<string, Blob>

  const MetaDataName: string := "meta_data.pkl"
  const ClassDefName: string := "cls_def.dill"
  const ArgsName: string := "dry_args.pkl"
  const KwargsName: string := "dry_kwargs.pkl"

  /** The entries the archive format itself owns. */
  const ReservedNames: set<string> := {MetaDataName, ClassDefName, ArgsName, KwargsName}

  /** The meta data record save_meta_data writes: {'version': 1}. */
  const MetaRecord: Value := Dict([Entry("version", Scalar(Int(1)))])

  /** pickler(v), dill.dumps(v) */
  function Pickle(v: Value): Blob
  {
    Pickled(v)
  }

  /** pickle.loads / dill.loads: the inverse of Pickle, failing on anything else. */
  function Unpickle(b: Blob): (r: Result<Value>)
    ensures r.Ok? <==> b.Pickled?
    ensures r.Err? ==> r.error == UnpicklingError
    ensures forall v :: b == Pickle(v) ==> r == Ok(v)
  {
    match b
    case Pickled(v) => Ok(v)
    case Raw(_) => Err(UnpicklingError)
  }

  /** self.file.open(name): a name the archive does not hold raises KeyError. */
  function ReadEntry(a: Archive, name: string): (r: Result<Blob>)
    ensures r.Ok? <==> name in a
    ensures r.Err? ==> r.error == KeyError
  {
    if name in a then Ok(a[name]) else Err(KeyError)
  }

  /** pickle.loads(self.file.open(name).read()) */
  function ReadPickled(a: Archive, name: string): (r: Result<Value>)
    ensures r.Ok? <==> name in a && a[name].Pickled?
    ensures r.Ok? ==> a[name] == Pickle(r.value)
    ensures name !in a ==> r == Err(KeyError)
  {
    match ReadEntry(a, name)
    case Err(e) => Err(e)
    case Ok(b) => Unpickle(b)
  }

  // ---------------------------------------------------------------------
  // Class resolution (get_current_cls)

  /**
   * The classes importable now, by qualified path, and the ones an in-process
   * reload of their modules would yield.
   */
  datatype Modules = Modules(loaded: map<string, Class>, reloaded: map<string, Class>)

  /** A path names a class with that path. */
  predicate ValidModules(m: Modules)
  {
    && (forall p :: p in m.loaded ==> m.loaded[p].path == p)
    && (forall p :: p in m.reloaded ==> m.reloaded[p].path == p)
  }

  /** get_current_cls(c, reload): the class now found at c's path; ImportError if there is none. */
  function CurrentCls(m: Modules, c: Class, reload: bool): (r: Result<Class>)
    ensures r.Err? <==> c.path !in (if reload then m.reloaded else m.loaded)
    ensures r.Err? ==> r.error == ImportError
    ensures ValidModules(m) && r.Ok? ==> r.value.path == c.path
  {
    var table := if reload then m.reloaded else m.loaded;
    if c.path in table then Ok(table[c.path]) else Err(ImportError)
  }

  /** The class is the one its module currently defines. */
  predicate IsCurrent(m: Modules, c: Class)
  {
    CurrentCls(m, c, false) == Ok(c)
  }

  // ---------------------------------------------------------------------
  // Reading an archive (the reading methods of DryObjectFile, as functions of its entries)

  /** load_meta_data */
  function LoadMetaData(a: Archive): (r: Result<Value>)
    ensures r.Ok? ==> MetaDataName in a && a[MetaDataName] == Pickle(r.value)
    ensures MetaDataName !in a ==> r == Err(KeyError)
  {
    ReadPickled(a, MetaDataName)
  }

  /** meta_data['version']: a dict lookup; subscripting anything else with a string is a TypeError. */
  function MetaVersion(meta: Value): (r: Result<Value>)
    ensures r.Ok? <==> meta.Dict? && "version" in Keys(meta.entries)
  {
    if !meta.Dict? then Err(TypeError)
    else match Lookup(meta.entries, "version")
      case None => Err(KeyError)
      case Some(v) => Ok(v)
  }

  /** The version of the archive's format, as stored in its meta data. */
  function FileVersion(a: Archive): (r: Result<Value>)
    ensures r.Ok? ==>
      && MetaDataName in a && a[MetaDataName].Pickled? && a[MetaDataName].v.Dict?
      && Lookup(a[MetaDataName].v.entries, "version") == Some(r.value)
    ensures MetaDataName !in a ==> r == Err(KeyError)
    ensures MetaDataName in a && a[MetaDataName] == Pickle(MetaRecord) ==> r == Ok(Scalar(Int(1)))
  {
    match LoadMetaData(a)
    case Err(e) => Err(e)
    case Ok(meta) => MetaVersion(meta)
  }

  /** `version == 1` in Python: True compares equal to 1 as well. */
  predicate IsVersionOne(v: Value)
    ensures IsVersionOne(v) <==> v == Scalar(Int(1)) || v == Scalar(Bool(true))
  {
    v.Scalar? && AtomEq(v.atom, Int(1))
  }

  /** The class stored by dill; a value that is not a class cannot become a definition. */
  function StoredClass(a: Archive): (r: Result<Class>)
    ensures r.Ok? <==> ClassDefName in a && a[ClassDefName].Pickled? && a[ClassDefName].v.TypeRef?
    ensures r.Ok? ==> a[ClassDefName] == Pickle(TypeRef(r.value))
  {
    match ReadPickled(a, ClassDefName)
    case Err(e) => Err(e)
    case Ok(v) => if v.TypeRef? then Ok(v.cls) else Err(TypeError)
  }

  /**
   * load_class_def_v1: the stored class, or with `update` the class currently
   * at its path, where any failure to find it is re-raised as RuntimeError.
   */
  function LoadClassDefV1(a: Archive, m: Modules, update: bool, reload: bool): (r: Result<Class>)
    ensures !update ==> r == StoredClass(a)
    ensures StoredClass(a).Err? ==> r == StoredClass(a)
    ensures StoredClass(a).Ok? && r.Err? ==> update && r.error == RuntimeError
    ensures ValidModules(m) && r.Ok? ==> r.value.path == StoredClass(a).value.path
  {
    match StoredClass(a)
    case Err(e) => Err(e)
    case Ok(c) =>
      if !update then Ok(c)
      else
        (match CurrentCls(m, c, reload)
         case Ok(cur) => Ok(cur)
         case Err(_) => Err(RuntimeError))
  }

  /**
   * `*args` on a value: a list or tuple passes its items, a string its
   * characters and a dict its keys; anything else is not iterable.
   */
  function StarArgs(v: Value): (r: Option<seq<Value>>)
    ensures r.Some? <==> v.List? || v.Dict? || (v.Scalar? && v.atom.Str?)
    ensures v.List? ==> r == Some(v.items)
    ensures v.Scalar? && r.Some? ==>
      && |r.value| == |v.atom.s|
      && forall i :: 0 <= i < |v.atom.s| ==> r.value[i] == Scalar(Str([v.atom.s[i]]))
    ensures v.Dict? && r.Some? ==>
      && |r.value| == |v.entries|
      && forall i :: 0 <= i < |v.entries| ==> r.value[i] == Scalar(Str(v.entries[i].key))
  {
    match v
    case List(items) => Some(items)
    case Scalar(Str(s)) => Some(seq(|s|, i requires 0 <= i < |s| => Scalar(Str([s[i]]))))
    case Dict(es) => Some(seq(|es|, i requires 0 <= i < |es| => Scalar(Str(es[i].key))))
    case _ => None
  }

  /** DryObjectDef(cls, *args, **kwargs): args must be iterable and kwargs a dict. */
  function MakeDef(cls: Class, args: Value, kwargs: Value): (r: Result<DryObjectDef>)
    ensures r.Ok? <==> StarArgs(args).Some? && kwargs.Dict?
    ensures r.Err? ==> r.error == TypeError
    ensures r.Ok? ==> r.value == DryObjectDef(cls, StarArgs(args).value, kwargs.entries)
  {
    match StarArgs(args)
    case Some(items) => if kwargs.Dict? then Ok(DryObjectDef(cls, items, kwargs.entries)) else Err(TypeError)
    case None => Err(TypeError)
  }

  /** load_definition_v1: class, then args, then kwargs. */
  function LoadDefinitionV1(a: Archive, m: Modules, update: bool, reload: bool): (r: Result<DryObjectDef>)
    ensures LoadClassDefV1(a, m, update, reload).Err? ==> r == Err(LoadClassDefV1(a, m, update, reload).error)
    ensures r.Ok? ==>
      && LoadClassDefV1(a, m, update, reload) == Ok(r.value.cls)
      && ArgsName in a && a[ArgsName].Pickled? && StarArgs(a[ArgsName].v) == Some(r.value.args)
      && KwargsName in a && a[KwargsName] == Pickle(Dict(r.value.kwargs))
  {
    match LoadClassDefV1(a, m, update, reload)
    case Err(e) => Err(e)
    case Ok(cls) =>
      match ReadPickled(a, ArgsName)
      case Err(e) => Err(e)
      case Ok(args) =>
        match ReadPickled(a, KwargsName)
        case Err(e) => Err(e)
        case Ok(kwargs) => MakeDef(cls, args, kwargs)
  }

  /** DryObjectFile.definition: only version 1 is understood. */
  function Definition(a: Archive, m: Modules, update: bool, reload: bool): (r: Result<DryObjectDef>)
    ensures FileVersion(a).Err? ==> r == Err(FileVersion(a).error)
    ensures FileVersion(a).Ok? && !IsVersionOne(FileVersion(a).value) ==> r == Err(RuntimeError)
    ensures r.Ok? ==> IsVersionOne(FileVersion(a).value) && r == LoadDefinitionV1(a, m, update, reload)
  {
    match FileVersion(a)
    case Err(e) => Err(e)
    case Ok(v) => if IsVersionOne(v) then LoadDefinitionV1(a, m, update, reload) else Err(RuntimeError)
  }

  /** `obj_def.cls = as_cls` when as_cls is given. */
  function WithClass(d: DryObjectDef, asCls: Option<Class>): (r: DryObjectDef)
    ensures r.args == d.args && r.kwargs == d.kwargs
    ensures r.cls == (if asCls.Some? then asCls.value else d.cls)
  {
    if asCls.Some? then DryObjectDef(asCls.value, d.args, d.kwargs) else d
  }

  /** The definition load_object_v1 builds from: load_definition_v1, then the as_cls override. */
  function DefinitionToLoadV1(a: Archive, m: Modules, update: bool, reload: bool, asCls: Option<Class>): (r: Result<DryObjectDef>)
    ensures r.Ok? <==> LoadDefinitionV1(a, m, update, reload).Ok?
    ensures r.Err? ==> r.error == LoadDefinitionV1(a, m, update, reload).error
    ensures r.Ok? ==>
      && r.value.args == LoadDefinitionV1(a, m, update, reload).value.args
      && r.value.kwargs == LoadDefinitionV1(a, m, update, reload).value.kwargs
      && r.value.cls == (if asCls.Some? then asCls.value else LoadDefinitionV1(a, m, update, reload).value.cls)
  {
    match LoadDefinitionV1(a, m, update, reload)
    case Err(e) => Err(e)
    case Ok(d) => Ok(WithClass(d, asCls))
  }

  /** The definition DryObjectFile.load_object builds from, behind the version gate. */
  function DefinitionToLoad(a: Archive, m: Modules, update: bool, reload: bool, asCls: Option<Class>): (r: Result<DryObjectDef>)
    ensures r.Ok? <==> Definition(a, m, update, reload).Ok?
    ensures r.Err? ==> r.error == Definition(a, m, update, reload).error
    ensures r.Ok? ==> r.value == WithClass(Definition(a, m, update, reload).value, asCls)
  {
    match FileVersion(a)
    case Err(e) => Err(e)
    case Ok(v) => if IsVersionOne(v) then DefinitionToLoadV1(a, m, update, reload, asCls) else Err(RuntimeError)
  }

  /** The entries an object's own save/load hooks own: everything the format does not reserve. */
  function Content(a: Archive): (c: Archive)
    ensures forall n :: n in c <==> n in a && n !in ReservedNames
    ensures forall n :: n in c ==> c[n] == a[n]
  {
    map n | n in a && n !in ReservedNames :: a[n]
  }

  predicate ContentOnly(c: Archive)
  {
    forall n :: n in c ==> n !in ReservedNames
  }

  // ---------------------------------------------------------------------
  // Writing an archive

  /**
   * The class save_class_def_v1 writes: the current class at the definition's
   * path, unless it differs from the definition's class and `update` is off.
   */
  function ClassToStore(m: Modules, d: DryObjectDef, update: bool): (r: Result<Class>)
    ensures r.Ok? ==> CurrentCls(m, d.cls, false) == r
    ensures !update ==> (r.Ok? <==> IsCurrent(m, d.cls))
    ensures update ==> r == CurrentCls(m, d.cls, false)
    ensures CurrentCls(m, d.cls, false).Ok? && r.Err? ==> r.error == ValueError
  {
    match CurrentCls(m, d.cls, false)
    case Err(e) => Err(e)
    case Ok(cur) => if cur != d.cls && !update then Err(ValueError) else Ok(cur)
  }

  /** The archive after save_definition_v1 wrote class `c`, the args and the kwargs. */
  function WithDefinition(a: Archive, d: DryObjectDef, c: Class): (r: Archive)
    ensures r.Keys == a.Keys + {ClassDefName, ArgsName, KwargsName}
    ensures r[ClassDefName] == Pickle(TypeRef(c))
    ensures r[ArgsName] == Pickle(List(d.args)) && r[KwargsName] == Pickle(Dict(d.kwargs))
    ensures forall n :: n in a && n !in {ClassDefName, ArgsName, KwargsName} ==> r[n] == a[n]
  {
    a[ClassDefName := Pickle(TypeRef(c))][ArgsName := Pickle(List(d.args))][KwargsName := Pickle(Dict(d.kwargs))]
  }

  /** The archive after a complete save_object_v1: meta data, definition, then the object's own entries. */
  function SavedV1(a: Archive, d: DryObjectDef, c: Class, content: Archive): (r: Archive)
    ensures r.Keys == a.Keys + ReservedNames + content.Keys
    ensures forall n :: n in content ==> r[n] == content[n]
    ensures ContentOnly(content) ==> r[MetaDataName] == Pickle(MetaRecord) && r[ClassDefName] == Pickle(TypeRef(c))
  {
    WithDefinition(a[MetaDataName := Pickle(MetaRecord)], d, c) + content
  }

  /** Every archive save_object_v1 completes holds the four format entries, whatever the hooks add. */
  lemma SavedArchiveEntries(a: Archive, d: DryObjectDef, c: Class, content: Archive)
    requires ContentOnly(content)
    ensures ReservedNames <= SavedV1(a, d, c, content).Keys
    ensures LoadMetaData(SavedV1(a, d, c, content)) == Ok(MetaRecord)
    ensures FileVersion(SavedV1(a, d, c, content)) == Ok(Scalar(Int(1)))
    ensures StoredClass(SavedV1(a, d, c, content)) == Ok(c)
  {
  }

  /** Read back without update, a saved archive gives the saved definition with the stored class. */
  lemma ReadBackStored(a: Archive, d: DryObjectDef, c: Class, content: Archive, m: Modules, reload: bool)
    requires ContentOnly(content)
    ensures Definition(SavedV1(a, d, c, content), m, false, reload) == Ok(DryObjectDef(c, d.args, d.kwargs))
  {
  }

  /**
   * Read back with update, the stored class is replaced by the class now at its
   * path, and a failed lookup is a RuntimeError.
   */
  lemma ReadBackUpdated(a: Archive, d: DryObjectDef, c: Class, content: Archive, m: Modules, reload: bool)
    requires ContentOnly(content)
    ensures CurrentCls(m, c, reload).Ok? ==>
      Definition(SavedV1(a, d, c, content), m, true, reload) == Ok(DryObjectDef(CurrentCls(m, c, reload).value, d.args, d.kwargs))
    ensures CurrentCls(m, c, reload).Err? ==> Definition(SavedV1(a, d, c, content), m, true, reload) == Err(RuntimeError)
  {
  }

  /** A saved archive keeps the object's own entries apart from the format's. */
  lemma ContentRoundTrip(d: DryObjectDef, c: Class, content: Archive)
    requires ContentOnly(content)
    ensures Content(SavedV1(map[], d, c, content)) == content
  {
  }

  /** Any version but 1 is refused when reading a definition or loading an object. */
  lemma UnsupportedVersionRejected(a: Archive, m: Modules, update: bool, reload: bool, asCls: Option<Class>)
    requires FileVersion(a).Ok? && !IsVersionOne(FileVersion(a).value)
    ensures Definition(a, m, update, reload) == Err(RuntimeError)
    ensures DefinitionToLoad(a, m, update, reload, asCls) == Err(RuntimeError)
  {
  }

  /** Python's `True == 1`: an archive whose version is True is read as version 1. */
  lemma TrueIsVersionOne()
    ensures IsVersionOne(Scalar(Bool(true))) && !IsVersionOne(Scalar(Int(2))) && !IsVersionOne(Scalar(Str("1")))
  {
  }

  /** A save is refused when the class changed since the definition was made and update is off. */
  lemma ChangedClassRefused(m: Modules, d: DryObjectDef)
    requires CurrentCls(m, d.cls, false).Ok? && CurrentCls(m, d.cls, false).value != d.cls
    ensures ClassToStore(m, d, false) == Err(ValueError)
    ensures ClassToStore(m, d, true) == CurrentCls(m, d.cls, false)
  {
  }

  /** With update, the class stored is the one now at the stored path. */
  lemma UpdatedClassKeepsPath(a: Archive, m: Modules, reload: bool)
    requires ValidModules(m) && LoadClassDefV1(a, m, true, reload).Ok?
    ensures StoredClass(a).Ok? && LoadClassDefV1(a, m, true, reload).value.path == StoredClass(a).value.path
  {
  }

  /**
   * load_class_def_v1 chooses: without update the stored class as it is; with
   * update the class now at its path, a failed lookup becoming RuntimeError.
   */
  lemma ClassDefChoice(a: Archive, m: Modules, reload: bool)
    requires StoredClass(a).Ok?
    ensures LoadClassDefV1(a, m, false, reload) == StoredClass(a)
    ensures CurrentCls(m, StoredClass(a).value, reload).Ok? ==>
      LoadClassDefV1(a, m, true, reload) == CurrentCls(m, StoredClass(a).value, reload)
    ensures CurrentCls(m, StoredClass(a).value, reload).Err? ==> LoadClassDefV1(a, m, true, reload) == Err(RuntimeError)
  {
  }

  /** as_cls replaces the class and nothing else, and never turns a failed read into a success. */
  lemma AsClsOverrides(a: Archive, m: Modules, update: bool, reload: bool, c: Class)
    ensures DefinitionToLoadV1(a, m, update, reload, Some(c)).Ok? <==> LoadDefinitionV1(a, m, update, reload).Ok?
    ensures LoadDefinitionV1(a, m, update, reload).Ok? ==>
      DefinitionToLoadV1(a, m, update, reload, Some(c)).value ==
        DryObjectDef(c, LoadDefinitionV1(a, m, update, reload).value.args, LoadDefinitionV1(a, m, update, reload).value.kwargs)
  {
  }

  /**
   * The round trip: an archive that save_object wrote for a definition whose
   * class is current loads back as that very definition, with or without update.
   */
  lemma SavedDefinitionLoadsBack(d: DryObjectDef, content: Archive, m: Modules, update: bool)
    requires ContentOnly(content) && IsCurrent(m, d.cls)
    ensures DefinitionToLoad(SavedV1(map[], d, d.cls, content), m, update, false, None) == Ok(d)
    ensures Definition(SavedV1(map[], d, d.cls, content), m, update, false) == Ok(d)
  {
  }

  // ---------------------------------------------------------------------
  // Identity

  /** uuid.uuid4(): every identifier differs from the ones issued before. */
  class IdSupply {
    var issued: set<string>
    var next: nat

    ghost predicate Valid()
      reads this
    {
      forall s :: s in issued ==> |s| < next
    }

    constructor ()
      ensures Valid() && issued == {}
    {
      issued := {};
      next := 0;
    }

    method Fresh() returns (id: string)
      requires Valid()
      modifies this
      ensures Valid() && FreshId(id, old(issued), issued)
    {
      id := seq(next, _ => 'x');
      issued := issued + {id};
      next := next + 1;
    }
  }

  /** `id` was issued by one call: it is new, and now the only addition. */
  predicate FreshId(id: string, before: set<string>, after: set<string>)
  {
    id !in before && after == before + {id}
  }

  /** The dry_id a definition carries: a missing key reads as None. */
  function GivenId(kwargs: seq<Entry>): (v: Value)
    ensures Lookup(kwargs, DryIdKey).Some? ==> Lookup(kwargs, DryIdKey) == Some(v)
  {
    match Lookup(kwargs, DryIdKey)
    case None => Scalar(NoneAtom)
    case Some(v) => v
  }

  /** A DryObject: its class (type(self)), its definition arguments and the entries its own hooks keep. */
  class DryObject {
    var cls: Class
    var dryArgs: seq<Value>
    var dryKwargs: seq<Entry>
    var content: Archive

    /**
     * DryObject.__init__: dry_kwargs['dry_id'] becomes the given id, or a fresh
     * one when none (None) is given; every other keyword is kept.
     */
    constructor (cls: Class, args: seq<Value>, kwargs: seq<Entry>, dryId: Value, ids: IdSupply)
      requires ids.Valid()
      modifies ids
      ensures ids.Valid()
      ensures this.cls == cls && dryArgs == args && content == map[]
      ensures Keys(dryKwargs) == Keys(kwargs) + {DryIdKey}
      ensures GivenId(dryKwargs) != Scalar(NoneAtom)
      ensures forall k :: k != DryIdKey ==> Lookup(dryKwargs, k) == Lookup(kwargs, k)
      ensures dryId != Scalar(NoneAtom) ==> dryKwargs == SetKey(kwargs, DryIdKey, dryId) && ids.issued == old(ids.issued)
      ensures dryId == Scalar(NoneAtom) ==>
        exists id :: FreshId(id, old(ids.issued), ids.issued) && dryKwargs == SetKey(kwargs, DryIdKey, Scalar(Str(id)))
    {
      var id := dryId;
      if dryId == Scalar(NoneAtom) {
        var newId := ids.Fresh();
        id := Scalar(Str(newId));
      }
      this.cls := cls;
      dryArgs := args;
      dryKwargs := SetKey(kwargs, DryIdKey, id);
      content := map[];
      forall k | k != DryIdKey
        ensures Lookup(SetKey(kwargs, DryIdKey, id), k) == Lookup(kwargs, k)
      {
        SetKeyOther(kwargs, DryIdKey, id, k);
      }
    }

    /** DryObject.definition */
    function Definition(): DryObjectDef
      reads this
    {
      DryObjectDef(cls, dryArgs, dryKwargs)
    }

    /** load_object_imp: the object takes the entries of the archive that the format does not own. */
    method LoadObjectImp(file: DryObjectFile)
      modifies this
      ensures content == Content(file.entries)
      ensures cls == old(cls) && dryArgs == old(dryArgs) && dryKwargs == old(dryKwargs)
    {
      content := Content(file.entries);
    }

    /** save_object_imp: the object writes its own entries, after the format's. */
    method SaveObjectImp(file: DryObjectFile)
      modifies file
      ensures file.entries == old(file.entries) + content
    {
      file.entries := file.entries + content;
    }
  }

  /**
   * What building `d` yields: an object of d's class with d's arguments,
   * keeping d's dry_id, or drawing a fresh one when d has none.
   */
  ghost predicate BuiltFrom(o: DryObject, d: DryObjectDef, before: set<string>, after: set<string>)
    reads o
  {
    && o.cls == d.cls
    && o.dryArgs == d.args
    && (GivenId(d.kwargs) != Scalar(NoneAtom) ==> o.dryKwargs == d.kwargs && after == before)
    && (GivenId(d.kwargs) == Scalar(NoneAtom) ==>
          exists id :: FreshId(id, before, after) && o.dryKwargs == SetKey(d.kwargs, DryIdKey, Scalar(Str(id))))
  }

  /**
   * DryObjectDef.build (dry_config.py is not part of this model): the class
   * called with the definition's args and kwargs, its dry_id included.
   */
  method BuildObject(d: DryObjectDef, ids: IdSupply) returns (obj: DryObject)
    requires ids.Valid()
    modifies ids
    ensures fresh(obj) && ids.Valid()
    ensures BuiltFrom(obj, d, old(ids.issued), ids.issued) && obj.content == map[]
  {
    var id := GivenId(d.kwargs);
    obj := new DryObject(d.cls, d.args, d.kwargs, id, ids);
    if id != Scalar(NoneAtom) {
      SetKeyExisting(d.kwargs, DryIdKey);
    }
  }

  // ---------------------------------------------------------------------
  // The archive

  /** DryObjectFile: an open archive, written entry by entry. */
  class DryObjectFile {
    var entries: Archive

    /** An existing archive opened for reading. */
    constructor (entries: Archive)
      ensures this.entries == entries
    {
      this.entries := entries;
    }

    /** An archive opened with mode 'w': it starts out empty. */
    constructor Create()
      ensures entries == map[]
    {
      entries := map[];
    }

    /** save_meta_data */
    method SaveMetaData()
      modifies this
      ensures entries == old(entries)[MetaDataName := Pickle(MetaRecord)]
    {
      entries := entries[MetaDataName := Pickle(MetaRecord)];
    }

    /** save_class_def_v1: refuses a class that changed unless `update`; stores the current class. */
    method SaveClassDefV1(m: Modules, d: DryObjectDef, update: bool) returns (raised: Option<Error>)
      modifies this
      ensures ClassToStore(m, d, update).Ok? ==>
        raised == None && entries == old(entries)[ClassDefName := Pickle(TypeRef(ClassToStore(m, d, update).value))]
      ensures ClassToStore(m, d, update).Err? ==>
        raised == Some(ClassToStore(m, d, update).error) && entries == old(entries)
    {
      var modCls := CurrentCls(m, d.cls, false);
      if modCls.Err? {
        return Some(modCls.error);
      }
      if d.cls != modCls.value && !update {
        return Some(ValueError);
      }
      entries := entries[ClassDefName := Pickle(TypeRef(modCls.value))];
      raised := None;
    }

    /** save_definition_v1: the class, then the args, then the kwargs. */
    method SaveDefinitionV1(m: Modules, d: DryObjectDef, update: bool) returns (raised: Option<Error>)
      modifies this
      ensures ClassToStore(m, d, update).Ok? ==>
        raised == None && entries == WithDefinition(old(entries), d, ClassToStore(m, d, update).value)
      ensures ClassToStore(m, d, update).Err? ==>
        raised == Some(ClassToStore(m, d, update).error) && entries == old(entries)
    {
      raised := SaveClassDefV1(m, d, update);
      if raised.Some? {
        return;
      }
      entries := entries[ArgsName := Pickle(List(d.args))];
      entries := entries[KwargsName := Pickle(Dict(d.kwargs))];
    }

    /**
     * save_object_v1: meta data, the definition (as_cls replacing the class),
     * then the object's own entries. `update` is not passed on, so a class
     * that changed is always refused, after the meta data was written.
     */
    method SaveObjectV1(obj: DryObject, m: Modules, update: bool, asCls: Option<Class>) returns (r: Result<bool>)
      modifies this
      ensures var d := WithClass(obj.Definition(), asCls);
        ClassToStore(m, d, false).Ok? ==> r == Ok(true) && entries == SavedV1(old(entries), d, ClassToStore(m, d, false).value, obj.content)
      ensures var d := WithClass(obj.Definition(), asCls);
        ClassToStore(m, d, false).Err? ==> r == Err(ClassToStore(m, d, false).error) && entries == old(entries)[MetaDataName := Pickle(MetaRecord)]
      ensures var d := WithClass(obj.Definition(), asCls);
        CurrentCls(m, d.cls, false).Ok? && CurrentCls(m, d.cls, false).value != d.cls ==> r == Err(ValueError)
    {
      SaveMetaData();
      var objDef := WithClass(obj.Definition(), asCls);
      var raised := SaveDefinitionV1(m, objDef, false);
      if raised.Some? {
        return Err(raised.value);
      }
      obj.SaveObjectImp(this);
      r := Ok(true);
    }

    /** load_object_v1: read the definition, apply as_cls, build, then run the object's load hook. */
    method LoadObjectV1(m: Modules, update: bool, reload: bool, asCls: Option<Class>, ids: IdSupply) returns (r: Result<DryObject>)
      requires ids.Valid()
      modifies ids
      ensures ids.Valid()
      ensures DefinitionToLoadV1(entries, m, update, reload, asCls).Err? ==>
        r == Err(DefinitionToLoadV1(entries, m, update, reload, asCls).error) && ids.issued == old(ids.issued)
      ensures DefinitionToLoadV1(entries, m, update, reload, asCls).Ok? ==>
        && r.Ok? && fresh(r.value)
        && BuiltFrom(r.value, DefinitionToLoadV1(entries, m, update, reload, asCls).value, old(ids.issued), ids.issued)
        && r.value.content == Content(entries)
    {
      var d := LoadDefinitionV1(entries, m, update, reload);
      if d.Err? {
        return Err(d.error);
      }
      var objDef := WithClass(d.value, asCls);
      var obj := BuildObject(objDef, ids);
      obj.LoadObjectImp(this);
      r := Ok(obj);
    }

    /** DryObjectFile.load_object: version 1 only. */
    method LoadObject(m: Modules, update: bool, reload: bool, asCls: Option<Class>, ids: IdSupply) returns (r: Result<DryObject>)
      requires ids.Valid()
      modifies ids
      ensures ids.Valid()
      ensures DefinitionToLoad(entries, m, update, reload, asCls).Err? ==>
        r == Err(DefinitionToLoad(entries, m, update, reload, asCls).error) && ids.issued == old(ids.issued)
      ensures DefinitionToLoad(entries, m, update, reload, asCls).Ok? ==>
        && r.Ok? && fresh(r.value)
        && BuiltFrom(r.value, DefinitionToLoad(entries, m, update, reload, asCls).value, old(ids.issued), ids.issued)
        && r.value.content == Content(entries)
    {
      var version := FileVersion(entries);
      if version.Err? {
        return Err(version.error);
      }
      if !IsVersionOne(version.value) {
        return Err(RuntimeError);
      }
      r := LoadObjectV1(m, update, reload, asCls, ids);
    }
  }

  /**
   * save_object: the archive is opened for writing, which empties it, and
   * only version 1 can be written.
   */
  method SaveObject(obj: DryObject, file: DryObjectFile, m: Modules, version: int, update: bool, asCls: Option<Class>)
    returns (r: Result<bool>)
    modifies file
    ensures version != 1 ==> r == Err(ValueError) && file.entries == map[]
    ensures var d := WithClass(obj.Definition(), asCls);
      version == 1 && ClassToStore(m, d, false).Ok? ==>
        r == Ok(true) && file.entries == SavedV1(map[], d, ClassToStore(m, d, false).value, obj.content)
    ensures var d := WithClass(obj.Definition(), asCls);
      version == 1 && ClassToStore(m, d, false).Err? ==>
        r == Err(ClassToStore(m, d, false).error) && file.entries == map[MetaDataName := Pickle(MetaRecord)]
  {
    file.entries := map[];
    if version == 1 {
      r := file.SaveObjectV1(obj, m, update, asCls);
    } else {
      r := Err(ValueError);
    }
  }

  // ---------------------------------------------------------------------
  // The repo slot of load_object

  /** The repo load_object may consult: live objects by definition (DryRepo's code is not part of this model). */
  datatype DryRepo = DryRepo(objects: map<DryObjectDef, DryObject>)

  /** DryRepo.get_obj: a definition the repo does not hold raises. */
  function GetObj(repo: DryRepo, d: DryObjectDef): (r: Result<DryObject>)
    ensures r.Ok? <==> d in repo.objects
  {
    if d in repo.objects then Ok(repo.objects[d]) else Err(KeyError)
  }

  /**
   * The repo a call consults: one passed in while none is active becomes
   * active; passing one while any is active is refused.
   */
  function ActiveRepo(slot: Option<DryRepo>, repo: Option<DryRepo>): (r: Result<Option<DryRepo>>)
    ensures r.Err? <==> slot.Some? && repo.Some?
    ensures r.Err? ==> r.error == RuntimeError
    ensures r.Ok? ==> r.value == (if repo.Some? then repo else slot)
  {
    if repo.Some? then (if slot.Some? then Err(RuntimeError) else Ok(repo)) else Ok(slot)
  }

  /** The object the active repo answers for the archive's definition, if it answers. */
  function RepoHit(active: Option<DryRepo>, lookup: DryObjectDef): (r: Option<DryObject>)
    ensures r.Some? <==> active.Some? && lookup in active.value.objects
  {
    if active.Some? && GetObj(active.value, lookup).Ok? then Some(GetObj(active.value, lookup).value) else None
  }

  /** Any repo passed while one is active is refused, even the active repo itself. */
  lemma SecondRepoRefused(active: DryRepo, repo: DryRepo)
    ensures ActiveRepo(Some(active), Some(repo)) == Err(RuntimeError)
    ensures ActiveRepo(None, Some(repo)) == Ok(Some(repo))
    ensures ActiveRepo(Some(active), None) == Ok(Some(active))
  {
  }

  /**
   * The repo answers exactly for the definitions it holds, identity token
   * included: a definition differing only in its dry_id is a different key,
   * answered only when the repo holds that definition itself.
   */
  lemma RepoHitExact(repo: DryRepo, d: DryObjectDef, otherId: Value)
    requires d in repo.objects
    requires otherId != GivenId(d.kwargs)
    ensures RepoHit(Some(repo), d) == Some(repo.objects[d])
    ensures
      var rekeyed := DryObjectDef(d.cls, d.args, SetKey(d.kwargs, DryIdKey, otherId));
      && rekeyed != d
      && RepoHit(Some(repo), rekeyed) == (if rekeyed in repo.objects then Some(repo.objects[rekeyed]) else None)
  {
    var rekeyed := DryObjectDef(d.cls, d.args, SetKey(d.kwargs, DryIdKey, otherId));
    assert Lookup(rekeyed.kwargs, DryIdKey) == Some(otherId);
    assert Lookup(rekeyed.kwargs, DryIdKey) != Lookup(d.kwargs, DryIdKey);
  }

  /** load_object.load_repo, the one slot shared by every call of the module-level load_object. */
  class ObjectLoader {
    var loadRepo: Option<DryRepo>

    constructor ()
      ensures loadRepo == None
    {
      loadRepo := None;
    }

    /**
     * The module-level load_object. The definition used for the repo lookup is
     * read with update on and reload off, whatever the caller asked for. The
     * call that activated a repo clears the slot when it returns normally; an
     * exception leaves the slot as it was set.
     */
    method LoadObject(file: DryObjectFile, m: Modules, update: bool, reload: bool, asCls: Option<Class>,
                      repo: Option<DryRepo>, ids: IdSupply) returns (r: Result<DryObject>)
      requires ids.Valid()
      modifies this, ids
      ensures ids.Valid()
      ensures ActiveRepo(old(loadRepo), repo).Err? ==>
        r == Err(RuntimeError) && loadRepo == old(loadRepo) && ids.issued == old(ids.issued)
      ensures ActiveRepo(old(loadRepo), repo).Ok? && Definition(file.entries, m, true, false).Err? ==>
        && r == Err(Definition(file.entries, m, true, false).error)
        && loadRepo == ActiveRepo(old(loadRepo), repo).value
        && ids.issued == old(ids.issued)
      ensures ActiveRepo(old(loadRepo), repo).Ok? && Definition(file.entries, m, true, false).Ok? ==>
        var hit := RepoHit(ActiveRepo(old(loadRepo), repo).value, Definition(file.entries, m, true, false).value);
        hit.Some? ==> r == Ok(hit.value) && loadRepo == old(loadRepo) && ids.issued == old(ids.issued)
      ensures ActiveRepo(old(loadRepo), repo).Ok? && Definition(file.entries, m, true, false).Ok? ==>
        var hit := RepoHit(ActiveRepo(old(loadRepo), repo).value, Definition(file.entries, m, true, false).value);
        var d := DefinitionToLoad(file.entries, m, update, reload, asCls);
        && (hit.None? && d.Err? ==>
              r == Err(d.error) && loadRepo == ActiveRepo(old(loadRepo), repo).value && ids.issued == old(ids.issued))
        && (hit.None? && d.Ok? ==>
              && r.Ok? && fresh(r.value) && loadRepo == old(loadRepo)
              && BuiltFrom(r.value, d.value, old(ids.issued), ids.issued)
              && r.value.content == Content(file.entries))
    {
      ghost var active := ActiveRepo(loadRepo, repo);
      var resetRepo := false;
      var loadObj := true;
      if repo.Some? {
        if loadRepo.Some? {
          return Err(RuntimeError);
        }
        loadRepo := repo;
        resetRepo := true;
      }
      assert active == Ok(loadRepo);
      assert resetRepo <==> old(loadRepo) != loadRepo;
      var objDef := Definition(file.entries, m, true, false);
      if objDef.Err? {
        return Err(objDef.error);
      }
      ghost var hit := RepoHit(loadRepo, objDef.value);
      var obj: DryObject;
      if loadRepo.Some? {
        var found := GetObj(loadRepo.value, objDef.value);
        if found.Ok? {
          obj := found.value;
          loadObj := false;
        }
      }
      assert loadObj <==> hit.None?;
      assert !loadObj ==> obj == hit.value;
      if loadObj {
        var loaded := file.LoadObject(m, update, reload, asCls, ids);
        if loaded.Err? {
          return Err(loaded.error);
        }
        obj := loaded.value;
      }
      if resetRepo {
        loadRepo := None;
      }
      r := Ok(obj);
    }

    /**
     * change_object_cls: save into a fresh in-memory archive, then load it
     * back with as_cls. With no repo active and the object's class current,
     * the result is a new object of class `cls` with the same arguments, the
     * same dry_id and the same own entries.
     */
    method ChangeObjectCls(obj: DryObject, m: Modules, cls: Class, update: bool, reload: bool, ids: IdSupply)
      returns (r: Result<DryObject>)
      requires ids.Valid()
      modifies this, ids
      ensures ids.Valid()
      ensures ClassToStore(m, obj.Definition(), false).Err? ==>
        r == Err(ClassToStore(m, obj.Definition(), false).error) && loadRepo == old(loadRepo)
      ensures old(loadRepo).None? && IsCurrent(m, obj.cls) && ContentOnly(obj.content) &&
              (update ==> CurrentCls(m, obj.cls, reload).Ok?) ==>
        && r.Ok? && fresh(r.value) && loadRepo == None
        && r.value.cls == cls && r.value.dryArgs == obj.dryArgs && r.value.content == obj.content
        && (GivenId(obj.dryKwargs) != Scalar(NoneAtom) ==> r.value.dryKwargs == obj.dryKwargs)
    {
      var buffer := new DryObjectFile.Create();
      var saved := SaveObject(obj, buffer, m, 1, false, None);
      if saved.Err? {
        return Err(saved.error);
      }
      ghost var d := obj.Definition();
      if IsCurrent(m, obj.cls) && ContentOnly(obj.content) {
        assert buffer.entries == SavedV1(map[], d, obj.cls, obj.content);
        ReadBackUpdated(map[], d, obj.cls, obj.content, m, false);
        ReadBackUpdated(map[], d, obj.cls, obj.content, m, reload);
        ReadBackStored(map[], d, obj.cls, obj.content, m, reload);
        SavedArchiveEntries(map[], d, obj.cls, obj.content);
        ContentRoundTrip(d, obj.cls, obj.content);
      }
      r := LoadObject(buffer, m, update, reload, Some(cls), None, ids);
    }
  }

  // ---------------------------------------------------------------------
  // DryObjectFactory

  /** A callback, by what it does to the object's own entries. */
  type Callback = Archive -> Archive

  /** The callbacks applied once each, first to last. */
  function ApplyCallbacks(cbs: seq<Callback>, c: Archive): Archive
    decreases |cbs|
  {
    if cbs == [] then c else ApplyCallbacks(cbs[1..], cbs[0](c))
  }

  lemma {:induction false} ApplyCallbacksAppend(a: seq<Callback>, b: seq<Callback>, c: Archive)
    ensures ApplyCallbacks(a + b, c) == ApplyCallbacks(b, ApplyCallbacks(a, c))
    decreases |a|
  {
    if a == [] {
      assert a + b == b;
    } else {
      assert (a + b)[0] == a[0] && (a + b)[1..] == a[1..] + b;
      ApplyCallbacksAppend(a[1..], b, a[0](c));
    }
  }

  /** A callback added last runs last. */
  lemma ApplyCallbacksSnoc(cbs: seq<Callback>, cb: Callback, c: Archive)
    ensures ApplyCallbacks(cbs + [cb], c) == cb(ApplyCallbacks(cbs, c))
  {
    ApplyCallbacksAppend(cbs, [cb], c);
  }

  /** A list of callbacks that factories may share, as Python's `callbacks=[]` default is shared. */
  class CallbackList {
    var items: seq<Callback>

    constructor ()
      ensures items == []
    {
      items := [];
    }
  }

  class DryObjectFactory {
    const definition: DryObjectDef
    const callbacks: CallbackList

    constructor (d: DryObjectDef, callbacks: CallbackList)
      ensures definition == d && this.callbacks == callbacks
    {
      definition := d;
      this.callbacks := callbacks;
    }

    /** add_callback: appended to the (possibly shared) list. */
    method AddCallback(cb: Callback)
      modifies callbacks
      ensures callbacks.items == old(callbacks.items) + [cb]
    {
      callbacks.items := callbacks.items + [cb];
    }

    /**
     * DryObjectFactory.__call__: build, then every callback once, in order.
     * A factory's definition has no dry_id, so each object gets a fresh one.
     */
    method Call(ids: IdSupply) returns (obj: DryObject)
      requires ids.Valid()
      modifies ids
      ensures fresh(obj) && ids.Valid()
      ensures BuiltFrom(obj, definition, old(ids.issued), ids.issued)
      ensures obj.content == ApplyCallbacks(callbacks.items, map[])
      ensures DryIdKey !in Keys(definition.kwargs) ==>
        exists id :: FreshId(id, old(ids.issued), ids.issued) && Lookup(obj.dryKwargs, DryIdKey) == Some(Scalar(Str(id)))
    {
      obj := BuildObject(definition, ids);
      var i := 0;
      while i < |callbacks.items|
        invariant 0 <= i <= |callbacks.items|
        invariant ids.Valid() && BuiltFrom(obj, definition, old(ids.issued), ids.issued)
        invariant obj.content == ApplyCallbacks(callbacks.items[..i], map[])
      {
        ApplyCallbacksSnoc(callbacks.items[..i], callbacks.items[i], map[]);
        assert callbacks.items[..i + 1] == callbacks.items[..i] + [callbacks.items[i]];
        obj.content := callbacks.items[i](obj.content);
        i := i + 1;
      }
      assert callbacks.items[..i] == callbacks.items;
    }
  }

  /** DryObjectFactory.__init__: a definition that carries a dry_id is refused. */
  method NewFactory(d: DryObjectDef, callbacks: CallbackList) returns (r: Result<DryObjectFactory>)
    ensures r.Err? <==> DryIdKey in Keys(d.kwargs)
    ensures r.Err? ==> r.error == ValueError
    ensures r.Ok? ==> fresh(r.value) && r.value.definition == d && r.value.callbacks == callbacks
  {
    if DryIdKey in Keys(d.kwargs) {
      return Err(ValueError);
    }
    var f := new DryObjectFactory(d, callbacks);
    r := Ok(f);
  }
}
