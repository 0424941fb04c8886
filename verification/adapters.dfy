/** The adapter registry of grizzly/corpman/adapters: `load` scans a
    directory once, registers every adapter class under its `NAME`, and
    `names`/`get` read the registry. The filesystem and Python's import
    machinery are not modelled; the directory arrives as a sequence of
    entries saying what importing each one produced. */
module Adapters {
  import opened Wrappers

  /** An adapter class found in a package, with its `NAME` attribute if it
      declares one. */
  datatype AdapterClass = AdapterClass(className: string, name: Option<string>)

  /** One directory entry as the loader sees it: something that is not a
      package (a plain file, a bare module, a directory without an
      `__init__.py`), a package whose import raised, a package that defines
      no adapter class, or a package defining one. */
  datatype Entry =
    | NotPackage(fileName: string)
    | ImportFailure(package: string)
    | NoAdapter(package: string)
    | Package(package: string, adapter: AdapterClass)

  /** Why `load` refused: it already ran, a package did not import (strict
      mode only), a class has no `NAME`, a `NAME` is not lower case, or two
      classes share a `NAME`. */
  datatype LoadError =
    | AlreadyLoaded
    | ImportFailed(package: string)
    | MissingName(className: string)
    | NotLowerCase(name: string)
    | NameCollision(name: string)

  /** The registry: adapter classes by `NAME`. */
  type Registry = map<string, AdapterClass>

  /** The registry's state after a call of `load`, and the error it raised. */
  datatype Loaded = Loaded(registry: Registry, error: Option<LoadError>)

  /** The registry before anything is loaded. */
  const Empty: Registry := map[]

  predicate IsUpper(c: char) {
    'A' <= c <= 'Z'
  }

  predicate HasUpper(s: string) {
    exists i :: 0 <= i < |s| && IsUpper(s[i])
  }

  /** `names`: the names under which adapters are registered. */
  function Names(reg: Registry): (r: set<string>)
    ensures forall n :: n in r <==> Get(reg, n).Some?
  {
    reg.Keys
  }

  /** `get`: the adapter class registered under `name`, if any. */
  function Get(reg: Registry, name: string): (r: Option<AdapterClass>)
    ensures r.Some? <==> name in reg
    ensures r.Some? ==> r.value == reg[name]
  {
    if name in reg then Some(reg[name]) else None
  }

  /** Every registered class sits under its own lower-case `NAME`. */
  ghost predicate ValidRegistry(reg: Registry) {
    forall n :: n in reg ==> reg[n].name == Some(n) && !HasUpper(n)
  }

  // ----- one entry -----

  /** The entry does not stop `load`: a failed import is tolerated only when
      skipping failures, and a class needs a lower-case `NAME`. */
  predicate Admissible(e: Entry, skip: bool) {
    match e
    case ImportFailure(_) => skip
    case Package(_, cls) => cls.name.Some? && !HasUpper(cls.name.value)
    case _ => true
  }

  /** The entry defines an adapter class declaring `NAME` `n`. */
  predicate Declares(e: Entry, n: string) {
    e.Package? && e.adapter.name == Some(n)
  }

  /** Loading one entry into the registry built so far. */
  function Step(acc: Registry, e: Entry, skip: bool): (r: Result<Registry, LoadError>)
    ensures r.Success? <==> Admissible(e, skip) && (forall n :: Declares(e, n) ==> n !in acc)
    ensures r.Success? && !e.Package? ==> r.value == acc
    ensures r.Success? && e.Package? ==> r.value == acc[e.adapter.name.value := e.adapter]
    ensures r.Failure? ==> r.error != AlreadyLoaded
  {
    match e
    case NotPackage(_) => Success(acc)
    case NoAdapter(_) => Success(acc)
    case ImportFailure(p) => if skip then Success(acc) else Failure(ImportFailed(p))
    case Package(_, cls) =>
      match cls.name
      case None => Failure(MissingName(cls.className))
      case Some(n) =>
        if HasUpper(n) then Failure(NotLowerCase(n))
        else if n in acc then Failure(NameCollision(n))
        else Success(acc[n := cls])
  }

  // ----- a directory -----

  /** Loading `entries` in order into `acc`; the first refusal ends it. */
  function Scan(acc: Registry, entries: seq<Entry>, skip: bool): (r: Result<Registry, LoadError>)
    ensures r.Failure? ==> r.error != AlreadyLoaded
    ensures r.Success? ==> forall n :: n in acc ==> n in r.value && r.value[n] == acc[n]
    decreases |entries|
  {
    if entries == [] then Success(acc)
    else
      match Step(acc, entries[0], skip)
      case Failure(err) => Failure(err)
      case Success(next) => Scan(next, entries[1..], skip)
  }

  /** `load(path, skip_failures)`: refuses when the registry already holds
      adapters, and otherwise scans the directory. A refusal leaves the
      registry as it was. */
  function Load(reg: Registry, entries: seq<Entry>, skip: bool): (r: Loaded)
    ensures |reg| > 0 ==> r == Loaded(reg, Some(AlreadyLoaded))
    ensures r.error.Some? ==> r.registry == reg
    ensures r.error.None? ==> reg == Empty
  {
    if |reg| > 0 then Loaded(reg, Some(AlreadyLoaded))
    else
      match Scan(Empty, entries, skip)
      case Failure(err) => Loaded(reg, Some(err))
      case Success(next) => Loaded(next, None)
  }

  // ----- what a scan accepts and registers -----

  /** A directory the loader accepts on top of `acc`: every entry is
      admissible, no two classes share a `NAME`, and none reuses a name
      already registered. */
  ghost predicate Acceptable(acc: Registry, entries: seq<Entry>, skip: bool) {
    && (forall i :: 0 <= i < |entries| ==> Admissible(entries[i], skip))
    && (forall i, n :: 0 <= i < |entries| && Declares(entries[i], n) ==> n !in acc)
    && (forall i, j, n :: 0 <= i < j < |entries| && Declares(entries[i], n) ==> !Declares(entries[j], n))
  }

  /** `reg` is `acc` with exactly the declared classes added. */
  ghost predicate Registers(acc: Registry, entries: seq<Entry>, reg: Registry) {
    && (forall n :: n in reg <==> n in acc || exists i :: 0 <= i < |entries| && Declares(entries[i], n))
    && (forall n :: n in acc ==> reg[n] == acc[n])
    && (forall i, n :: 0 <= i < |entries| && Declares(entries[i], n) ==> n in reg && reg[n] == entries[i].adapter)
  }

  lemma AcceptableUnfold(acc: Registry, entries: seq<Entry>, skip: bool, next: Registry)
    requires |entries| > 0
    requires Step(acc, entries[0], skip) == Success(next)
    ensures Acceptable(acc, entries, skip) <==> Acceptable(next, entries[1..], skip)
  {
    var e, rest := entries[0], entries[1..];
    if Acceptable(next, rest, skip) {
      forall i, n | 0 <= i < |entries| && Declares(entries[i], n)
        ensures n !in acc
      {
        if i == 0 {
          assert Declares(e, n);
          assert n !in acc;
        } else {
          assert Declares(rest[i - 1], n);
          assert n !in next;
          assert n !in acc;
        }
      }
      forall i, j, n | 0 <= i < j < |entries| && Declares(entries[i], n)
        ensures !Declares(entries[j], n)
      {
        if i == 0 {
          assert n in next;
          assert rest[j - 1] == entries[j];
        } else {
          assert rest[i - 1] == entries[i] && rest[j - 1] == entries[j];
        }
      }
    }
    if Acceptable(acc, entries, skip) {
      forall i | 0 <= i < |rest|
        ensures Admissible(rest[i], skip)
      {
        assert rest[i] == entries[i + 1];
      }
      forall i, n | 0 <= i < |rest| && Declares(rest[i], n)
        ensures n !in next
      {
        assert rest[i] == entries[i + 1];
        if e.Package? {
          assert !Declares(entries[0], n);
        }
      }
      forall i, j, n | 0 <= i < j < |rest| && Declares(rest[i], n)
        ensures !Declares(rest[j], n)
      {
        assert rest[i] == entries[i + 1] && rest[j] == entries[j + 1];
      }
    }
  }

  /** A scan succeeds exactly on an acceptable directory. */
  lemma {:induction false} ScanSucceeds(acc: Registry, entries: seq<Entry>, skip: bool)
    ensures Scan(acc, entries, skip).Success? <==> Acceptable(acc, entries, skip)
    decreases |entries|
  {
    if entries != [] {
      match Step(acc, entries[0], skip)
      case Failure(_) =>
        assert !Admissible(entries[0], skip) || exists n :: Declares(entries[0], n) && n in acc;
      case Success(next) =>
        ScanSucceeds(next, entries[1..], skip);
        AcceptableUnfold(acc, entries, skip, next);
    }
  }

  lemma RegistersUnfoldNames(acc: Registry, entries: seq<Entry>, skip: bool, next: Registry, reg: Registry)
    requires |entries| > 0
    requires Step(acc, entries[0], skip) == Success(next)
    requires forall n :: n in reg <==> n in next || exists i :: 0 <= i < |entries[1..]| && Declares(entries[1..][i], n)
    ensures forall n :: n in reg <==> n in acc || exists i :: 0 <= i < |entries| && Declares(entries[i], n)
  {
    var e, rest := entries[0], entries[1..];
    assert forall n :: n in next <==> n in acc || Declares(e, n);
    forall n
      ensures n in reg <==> n in acc || exists i :: 0 <= i < |entries| && Declares(entries[i], n)
    {
      if exists i :: 0 <= i < |rest| && Declares(rest[i], n) {
        var i :| 0 <= i < |rest| && Declares(rest[i], n);
        assert entries[i + 1] == rest[i];
      }
      if exists i :: 0 <= i < |entries| && Declares(entries[i], n) {
        var i :| 0 <= i < |entries| && Declares(entries[i], n);
        if i > 0 {
          assert rest[i - 1] == entries[i];
        }
      }
    }
  }

  lemma RegistersUnfold(acc: Registry, entries: seq<Entry>, skip: bool, next: Registry, reg: Registry)
    requires |entries| > 0
    requires Step(acc, entries[0], skip) == Success(next)
    requires Registers(next, entries[1..], reg)
    ensures Registers(acc, entries, reg)
  {
    RegistersUnfoldNames(acc, entries, skip, next, reg);
    forall n | n in acc
      ensures reg[n] == acc[n]
    {
      assert !Declares(entries[0], n);
    }
    RegistersUnfoldValues(acc, entries, skip, next, reg);
  }

  lemma RegistersUnfoldValues(acc: Registry, entries: seq<Entry>, skip: bool, next: Registry, reg: Registry)
    requires |entries| > 0
    requires Step(acc, entries[0], skip) == Success(next)
    requires Registers(next, entries[1..], reg)
    ensures forall i, n :: 0 <= i < |entries| && Declares(entries[i], n) ==> n in reg && reg[n] == entries[i].adapter
  {
    forall i, n | 0 <= i < |entries| && Declares(entries[i], n)
      ensures n in reg && reg[n] == entries[i].adapter
    {
      if i > 0 {
        assert entries[1..][i - 1] == entries[i];
      }
    }
  }

  /** A successful scan adds exactly the declared classes, each under its
      `NAME`, and keeps what was registered before. */
  lemma {:induction false} ScanRegisters(acc: Registry, entries: seq<Entry>, skip: bool)
    requires Scan(acc, entries, skip).Success?
    ensures Registers(acc, entries, Scan(acc, entries, skip).value)
    decreases |entries|
  {
    if entries != [] {
      var next := Step(acc, entries[0], skip).value;
      ScanRegisters(next, entries[1..], skip);
      RegistersUnfold(acc, entries, skip, next, Scan(acc, entries, skip).value);
    }
  }

  /** What a successful `load` leaves is a valid registry: every class under
      its own lower-case `NAME`. */
  lemma LoadKeepsRegistryValid(reg: Registry, entries: seq<Entry>, skip: bool)
    requires ValidRegistry(reg)
    ensures ValidRegistry(Load(reg, entries, skip).registry)
  {
    var scan := Scan(Empty, entries, skip);
    if |reg| == 0 && scan.Success? {
      ScanSucceeds(Empty, entries, skip);
      ScanRegisters(Empty, entries, skip);
      forall n | n in scan.value
        ensures scan.value[n].name == Some(n) && !HasUpper(n)
      {
        var i :| 0 <= i < |entries| && Declares(entries[i], n);
        assert Admissible(entries[i], skip);
      }
    }
  }

  /** `load` succeeds exactly when the registry is empty and the directory
      acceptable, and then the registry holds exactly the declared classes. */
  lemma LoadSucceeds(reg: Registry, entries: seq<Entry>, skip: bool)
    ensures Load(reg, entries, skip).error.None? <==> reg == Empty && Acceptable(Empty, entries, skip)
    ensures Load(reg, entries, skip).error.None? ==>
      forall n :: n in Names(Load(reg, entries, skip).registry) <==> exists i :: 0 <= i < |entries| && Declares(entries[i], n)
    ensures Load(reg, entries, skip).error.None? ==>
      forall i, n :: 0 <= i < |entries| && Declares(entries[i], n) ==> Get(Load(reg, entries, skip).registry, n) == Some(entries[i].adapter)
  {
    ScanSucceeds(Empty, entries, skip);
    if Load(reg, entries, skip).error.None? {
      ScanRegisters(Empty, entries, skip);
    }
  }

  /** `load` runs only once: with adapters registered, every further call
      refuses and changes nothing. */
  lemma LoadOnce(entries: seq<Entry>, skip: bool, again: seq<Entry>, skipAgain: bool)
    requires Load(Empty, entries, skip).error.None?
    requires exists i :: 0 <= i < |entries| && entries[i].Package?
    ensures Load(Load(Empty, entries, skip).registry, again, skipAgain)
         == Loaded(Load(Empty, entries, skip).registry, Some(AlreadyLoaded))
  {
    var i :| 0 <= i < |entries| && entries[i].Package?;
    LoadSucceeds(Empty, entries, skip);
    ScanSucceeds(Empty, entries, skip);
    assert Admissible(entries[i], skip);
    var n := entries[i].adapter.name.value;
    assert Declares(entries[i], n);
    assert Get(Load(Empty, entries, skip).registry, n).Some?;
  }

  /** A class without a lower-case `NAME` makes `load` refuse in either
      mode, and the registry stays empty. */
  lemma BadNameRefused(entries: seq<Entry>, skip: bool, i: nat)
    requires i < |entries| && entries[i].Package?
    requires entries[i].adapter.name == None || HasUpper(entries[i].adapter.name.value)
    ensures Load(Empty, entries, skip).error.Some?
    ensures Load(Empty, entries, skip).registry == Empty
  {
    ScanSucceeds(Empty, entries, skip);
    assert !Admissible(entries[i], skip);
  }

  /** Two classes declaring one `NAME` make `load` refuse in either mode. */
  lemma CollisionRefused(entries: seq<Entry>, skip: bool, i: nat, j: nat, n: string)
    requires i < j < |entries| && Declares(entries[i], n) && Declares(entries[j], n)
    ensures Load(Empty, entries, skip).error.Some?
    ensures Load(Empty, entries, skip).registry == Empty
  {
    ScanSucceeds(Empty, entries, skip);
  }

  /** A package that fails to import makes a strict `load` refuse. */
  lemma StrictImportRefused(entries: seq<Entry>, i: nat)
    requires i < |entries| && entries[i].ImportFailure?
    ensures Load(Empty, entries, false).error.Some?
    ensures Load(Empty, entries, false).registry == Empty
  {
    ScanSucceeds(Empty, entries, false);
    assert !Admissible(entries[i], false);
  }

  /** The entries that define an adapter class. */
  function Packages(entries: seq<Entry>): (r: seq<Entry>)
    ensures forall i :: 0 <= i < |r| ==> r[i].Package?
    ensures |r| <= |entries|
  {
    if entries == [] then []
    else if entries[0].Package? then [entries[0]] + Packages(entries[1..])
    else Packages(entries[1..])
  }

  /** Skipping failures, `load` treats a directory as if it held only its
      adapter packages: failed imports, packages without an adapter and
      plain files change nothing. */
  lemma {:induction false} SkipIgnoresBroken(acc: Registry, entries: seq<Entry>)
    ensures Scan(acc, entries, true) == Scan(acc, Packages(entries), true)
    decreases |entries|
  {
    if entries != [] {
      SkipIgnoresBroken(acc, entries[1..]);
      if entries[0].Package? {
        var ps := Packages(entries);
        assert ps[0] == entries[0] && ps[1..] == Packages(entries[1..]);
        match Step(acc, entries[0], true)
        case Failure(_) =>
        case Success(next) => SkipIgnoresBroken(next, entries[1..]);
      }
    }
  }

  /** Where a strict `load` succeeds, skipping failures gives the same
      registry. */
  lemma {:induction false} StrictAgreesWithSkip(acc: Registry, entries: seq<Entry>)
    requires Scan(acc, entries, false).Success?
    ensures Scan(acc, entries, true) == Scan(acc, entries, false)
    decreases |entries|
  {
    if entries != [] {
      var next := Step(acc, entries[0], false).value;
      assert Step(acc, entries[0], true) == Success(next);
      StrictAgreesWithSkip(next, entries[1..]);
    }
  }

  // ----- the loader's scenarios -----

  /** Before `load`, `get` finds nothing and `names` is empty. */
  lemma EmptyBeforeLoad(name: string)
    ensures Get(Empty, name) == None
    ensures Names(Empty) == {}
  {
  }

  /** A directory holding an empty sub-directory, an empty file and a bare
      module registers nothing. */
  lemma NoPackagesExample(entries: seq<Entry>)
    requires entries == [NotPackage("empty"), NotPackage("empty_file"), NotPackage("fake.py")]
    ensures Load(Empty, entries, true) == Loaded(Empty, None)
  {
    assert Scan(Empty, entries[2..], true) == Scan(Empty, [], true) by { assert entries[2..][1..] == []; }
    assert Scan(Empty, entries[1..], true) == Scan(Empty, entries[2..], true) by { assert entries[1..][1..] == entries[2..]; }
  }

  /** One adapter named `simple`, loaded strictly, is registered; loading
      again refuses. */
  lemma SimpleAdapterExample(entries: seq<Entry>, cls: AdapterClass)
    requires cls == AdapterClass("SimpleAdapter", Some("simple"))
    requires entries == [Package("SimpleAdapter", cls)]
    ensures Load(Empty, entries, false) == Loaded(map["simple" := cls], None)
    ensures "simple" in Names(map["simple" := cls])
    ensures Load(map["simple" := cls], entries, true) == Loaded(map["simple" := cls], Some(AlreadyLoaded))
  {
    assert entries[1..] == [];
    assert !HasUpper("simple") by {
      forall i | 0 <= i < |"simple"|
        ensures !IsUpper("simple"[i])
      {
      }
    }
    assert Step(Empty, entries[0], false) == Success(map["simple" := cls]);
    assert Scan(map["simple" := cls], entries[1..], false) == Success(map["simple" := cls]);
  }

  /** `UppER` and a missing `NAME` are refused even when skipping failures. */
  lemma InvalidNameExamples(upper: seq<Entry>, missing: seq<Entry>)
    requires upper == [Package("UpperAdapter", AdapterClass("UpperAdapter", Some("UppER")))]
    requires missing == [Package("AAdapter", AdapterClass("AAdapter", None))]
    ensures Load(Empty, upper, true) == Loaded(Empty, Some(NotLowerCase("UppER")))
    ensures Load(Empty, missing, true) == Loaded(Empty, Some(MissingName("AAdapter")))
  {
    assert IsUpper("UppER"[0]);
  }

  /** Two packages both naming their adapter `adpt` collide. */
  lemma CollisionExample(entries: seq<Entry>)
    requires entries == [Package("N1Adapter", AdapterClass("N1Adapter", Some("adpt"))),
                         Package("N2Adapter", AdapterClass("N2Adapter", Some("adpt")))]
    ensures Load(Empty, entries, true) == Loaded(Empty, Some(NameCollision("adpt")))
  {
    var first := map["adpt" := entries[0].adapter];
    assert Step(Empty, entries[0], true) == Success(first) by { NameIsLower(); }
    assert Scan(first, entries[1..], true) == Failure(NameCollision("adpt")) by { NameIsLower(); }
  }

  lemma NameIsLower()
    ensures !HasUpper("adpt")
  {
    forall i | 0 <= i < |"adpt"|
      ensures !IsUpper("adpt"[i])
    {
    }
  }

  /** Skipping failures, a package without an adapter and one that fails to
      import do not keep `good` from being registered; loaded strictly, the
      failed import is refused. */
  lemma SkipFailuresExample(entries: seq<Entry>, cls: AdapterClass)
    requires cls == AdapterClass("GoodAdapter", Some("good"))
    requires entries == [NoAdapter("EmptyAdapter"), ImportFailure("BadAdapter"), Package("GoodAdapter", cls)]
    ensures Load(Empty, entries, true) == Loaded(map["good" := cls], None)
    ensures Load(Empty, entries, false) == Loaded(Empty, Some(ImportFailed("BadAdapter")))
  {
    assert entries[1..][1..] == entries[2..] && entries[2..][1..] == [];
    assert Step(Empty, entries[2], true) == Success(map["good" := cls]) by { GoodIsLower(); }
    assert Scan(Empty, entries[2..], true) == Success(map["good" := cls]);
    assert Scan(Empty, entries[1..], true) == Scan(Empty, entries[2..], true);
    assert Step(Empty, entries[1], false) == Failure(ImportFailed("BadAdapter"));
    assert Scan(Empty, entries[1..], false) == Failure(ImportFailed("BadAdapter"));
  }

  lemma GoodIsLower()
    ensures !HasUpper("good")
  {
    forall i | 0 <= i < |"good"|
      ensures !IsUpper("good"[i])
    {
    }
  }
}
