/**
 * The generation tasks of pyecoregen's ecore module: which model elements a
 * task iterates over, where the file it writes for a package goes, which
 * classifiers a package's `__init__.py` and module import, and the order in
 * which a module defines its classes.
 */
module Tasks {
  import opened Wrappers
  import opened Text
  import opened Metamodel

  /** The three tasks: the package `__init__.py`, the package module, and the optional mixin skeleton. */
  datatype TaskKind = PackageInit | PackageModule | PackageMixin

  /** `e` alone if it is an instance of `t`, otherwise nothing. */
  function Matching(e: Element, t: MetaClass): seq<Element> {
    if IsKindOf(e.metaclass, t) then [e] else []
  }

  /** The elements of `elements` that are instances of `t`, in their order. */
  function Select(elements: seq<Element>, t: MetaClass): (r: seq<Element>)
    ensures |r| <= |elements|
    ensures forall i :: 0 <= i < |r| ==> IsKindOf(r[i].metaclass, t)
  {
    if elements == [] then []
    else Matching(elements[0], t) + Select(elements[1..], t)
  }

  /** A single element is kept exactly when it is an instance of `t`. */
  lemma SelectSingle(x: Element, t: MetaClass)
    ensures Select([x], t) == (if IsKindOf(x.metaclass, t) then [x] else [])
  {
    assert [x][1..] == [];
  }

  /** Selection keeps the input's order: selecting from a concatenation concatenates the selections. */
  lemma {:induction false} SelectConcat(a: seq<Element>, b: seq<Element>, t: MetaClass)
    ensures Select(a + b, t) == Select(a, t) + Select(b, t)
  {
    if a == [] {
      assert a + b == b;
    } else {
      assert (a + b)[0] == a[0];
      assert (a + b)[1..] == a[1..] + b;
      SelectConcat(a[1..], b, t);
    }
  }

  /** Every element kept is one of the input elements and an instance of `t`. */
  lemma {:induction false} SelectKeepsMembers(elements: seq<Element>, t: MetaClass)
    ensures forall x :: x in Select(elements, t) ==> x in elements && IsKindOf(x.metaclass, t)
  {
    if elements != [] {
      SelectKeepsMembers(elements[1..], t);
      assert forall x :: x in elements[1..] ==> x in elements;
    }
  }

  /** Each instance of `t` is kept as often as it occurs, and nothing else is kept. */
  lemma {:induction false} SelectCounts(elements: seq<Element>, t: MetaClass, x: Element)
    ensures multiset(Select(elements, t))[x] == if IsKindOf(x.metaclass, t) then multiset(elements)[x] else 0
  {
    if elements != [] {
      var e, rest := elements[0], elements[1..];
      SelectCounts(rest, t, x);
      assert elements == [e] + rest;
      assert Select(elements, t) == Matching(e, t) + Select(rest, t);
      assert multiset(Select(elements, t))[x] == multiset(Matching(e, t))[x] + multiset(Select(rest, t))[x];
      assert multiset(elements)[x] == multiset([e])[x] + multiset(rest)[x];
    }
  }

  /** `filtered_elements`: the root if it has the type, then its matching descendants (`eAllContents()`). */
  function FilteredElements(root: Element, allContents: seq<Element>, t: MetaClass): seq<Element> {
    Matching(root, t) + Select(allContents, t)
  }

  /**
   * At most one element more than the contents is yielded, and each is an
   * instance of `t` and is the root or one of its contents.
   */
  lemma FilteredElementsKinds(root: Element, allContents: seq<Element>, t: MetaClass)
    ensures var r := FilteredElements(root, allContents, t);
      && |r| <= |allContents| + 1
      && forall x :: x in r ==> IsKindOf(x.metaclass, t) && (x == root || x in allContents)
  {
    SelectKeepsMembers(allContents, t);
  }

  /** Every instance of `t` in the tree is yielded exactly once, and nothing else is. */
  lemma FilteredElementsExactlyOnce(root: Element, allContents: seq<Element>, t: MetaClass, x: Element)
    requires root !in allContents
    requires forall i, j :: 0 <= i < j < |allContents| ==> allContents[i] != allContents[j]
    ensures multiset(FilteredElements(root, allContents, t))[x]
         == if (x == root || x in allContents) && IsKindOf(x.metaclass, t) then 1 else 0
  {
    var s := Select(allContents, t);
    DistinctOccursOnce(allContents, x);
    SelectCounts(allContents, t, x);
    assert multiset(FilteredElements(root, allContents, t))[x] == multiset(Matching(root, t))[x] + multiset(s)[x];
    if x != root {
      assert multiset(Matching(root, t))[x] == 0;
    }
  }

  /** The root comes first exactly when it is an instance of `t`. */
  lemma FilteredRootFirst(root: Element, allContents: seq<Element>, t: MetaClass)
    requires root !in allContents
    ensures var r := FilteredElements(root, allContents, t);
      (|r| > 0 && r[0] == root) <==> IsKindOf(root.metaclass, t)
  {
    var s := Select(allContents, t);
    SelectCounts(allContents, t, root);
    assert root !in s by {
      assert multiset(s)[root] == 0;
    }
  }

  lemma {:induction false} DistinctOccursOnce<T>(s: seq<T>, x: T)
    requires forall i, j :: 0 <= i < j < |s| ==> s[i] != s[j]
    ensures multiset(s)[x] == if x in s then 1 else 0
  {
    if s != [] {
      DistinctOccursOnce(s[1..], x);
      assert s == [s[0]] + s[1..];
    }
  }

  /**
   * The model of the filtered-elements test: package `ThePackage` (1) holding
   * `Class1` (2) and `SubPackage` (3), which holds `Class2` (4) and the enum
   * `MyEnum` (5) with literals `A` (6) and `B` (7).
   */
  function ExampleContents(): seq<Element> {
    [Element(2, EClass), Element(3, EPackage), Element(4, EClass),
     Element(5, EEnum), Element(6, EEnumLiteral), Element(7, EEnumLiteral)]
  }

  /** Selecting packages yields the root package and `SubPackage`. */
  lemma FilteredPackagesExample()
    ensures FilteredElements(Element(1, EPackage), ExampleContents(), EPackage) == [Element(1, EPackage), Element(3, EPackage)]
  {
    ExampleSelect(EPackage);
    assert IsKindOf(EPackage, EPackage);
    NotKindOfDeeper(EClassifier, EPackage);
    NotKindOfDeeper(EEnumLiteral, EPackage);
  }

  /** Selecting classes yields `Class1` and `Class2`. */
  lemma FilteredClassesExample()
    ensures FilteredElements(Element(1, EPackage), ExampleContents(), EClass) == [Element(2, EClass), Element(4, EClass)]
  {
    ExampleSelect(EClass);
    assert IsKindOf(EClass, EClass);
    NotKindOfDeeper(EPackage, EClass);
    NotKindOfDeeper(EDataType, EClass);
    NotKindOfDeeper(EEnumLiteral, EClass);
  }

  /** Selecting enums yields `MyEnum` alone. */
  lemma FilteredEnumsExample()
    ensures FilteredElements(Element(1, EPackage), ExampleContents(), EEnum) == [Element(5, EEnum)]
  {
    ExampleSelect(EEnum);
    assert IsKindOf(EEnum, EEnum);
    NotKindOfDeeper(EPackage, EEnum);
    NotKindOfDeeper(EClass, EEnum);
    NotKindOfDeeper(EEnumLiteral, EEnum);
  }

  /** `filtered_elements` over the example tree, one element at a time. */
  lemma ExampleSelect(t: MetaClass)
    ensures FilteredElements(Element(1, EPackage), ExampleContents(), t)
         == Matching(Element(1, EPackage), t) + (Matching(Element(2, EClass), t) + (Matching(Element(3, EPackage), t)
          + (Matching(Element(4, EClass), t) + (Matching(Element(5, EEnum), t)
          + (Matching(Element(6, EEnumLiteral), t) + Matching(Element(7, EEnumLiteral), t))))))
  {
    SelectSix(ExampleContents(), t);
  }

  /** `Select` over six elements, one element at a time. */
  lemma SelectSix(c: seq<Element>, t: MetaClass)
    requires |c| == 6
    ensures Select(c, t)
         == Matching(c[0], t) + (Matching(c[1], t) + (Matching(c[2], t)
          + (Matching(c[3], t) + (Matching(c[4], t) + Matching(c[5], t)))))
  {
    var r5 := Matching(c[5], t);
    SelectStep(c[5..], t);
    assert c[5..][0] == c[5] && c[5..][1..] == [];
    assert Select(c[5..], t) == r5;
    var r4 := Matching(c[4], t) + r5;
    SelectStep(c[4..], t);
    assert c[4..][0] == c[4] && c[4..][1..] == c[5..];
    assert Select(c[4..], t) == r4;
    var r3 := Matching(c[3], t) + r4;
    SelectStep(c[3..], t);
    assert c[3..][0] == c[3] && c[3..][1..] == c[4..];
    assert Select(c[3..], t) == r3;
    var r2 := Matching(c[2], t) + r3;
    SelectStep(c[2..], t);
    assert c[2..][0] == c[2] && c[2..][1..] == c[3..];
    assert Select(c[2..], t) == r2;
    var r1 := Matching(c[1], t) + r2;
    SelectStep(c[1..], t);
    assert c[1..][0] == c[1] && c[1..][1..] == c[2..];
    assert Select(c[1..], t) == r1;
    SelectStep(c, t);
  }

  lemma SelectStep(s: seq<Element>, t: MetaClass)
    requires s != []
    ensures Select(s, t) == Matching(s[0], t) + Select(s[1..], t)
  {
  }

  /** `folder_path_for_package`: the parent's folder joined with the package name; a root package is its own folder. */
  function FolderPath(m: Model, p: PackageId): string
    requires ParentsValid(m) && p in m.packages
    decreases m.packages[p].depth
  {
    match Parent(m, p)
    case Some(q) => PathJoin(FolderPath(m, q), m.packages[p].name)
    case None => m.packages[p].name
  }

  /** `filename_for_element` of each task for a package called `name`. */
  function Filename(k: TaskKind, name: string): (r: string)
    ensures k != PackageInit ==> |r| > |name| && r[..|name|] == name
    ensures k != PackageMixin ==> |r| >= 3 && r[|r| - 3..] == ".py"
    ensures k == PackageMixin ==> |r| >= 9 && r[|r| - 9..] == ".skeleton"
  {
    match k
    case PackageInit => "__init__.py"
    case PackageModule => name + ".py"
    case PackageMixin => name + "_mixins.py.skeleton"
  }

  /** `relative_path_for_element`: the file of task `k` inside the package's folder. */
  function RelativePath(k: TaskKind, m: Model, p: PackageId): string
    requires ParentsValid(m) && p in m.packages
  {
    PathJoin(FolderPath(m, p), Filename(k, m.packages[p].name))
  }

  /**
   * Whatever the names hold, a package's folder ends with the package's name
   * and a task's file path ends with the task's file name.
   */
  lemma PathsEndWithNames(k: TaskKind, m: Model, p: PackageId)
    requires ParentsValid(m) && p in m.packages
    ensures var f := FolderPath(m, p); var name := m.packages[p].name;
      |f| >= |name| && f[|f| - |name|..] == name
    ensures var r := RelativePath(k, m, p); var file := Filename(k, m.packages[p].name);
      |r| >= |file| && r[|r| - |file|..] == file
  {
    if Parent(m, p).Some? {
      PathJoinParts(FolderPath(m, Parent(m, p).value), m.packages[p].name);
    }
    PathJoinParts(FolderPath(m, p), Filename(k, m.packages[p].name));
  }

  /** A name that `posixpath.join` treats as one relative path segment. */
  predicate PlainName(s: string) {
    s != "" && '/' !in s
  }

  /** All packages from the root down to `p` have plain names. */
  ghost predicate PlainChain(m: Model, p: PackageId)
    requires ParentsValid(m) && p in m.packages
  {
    forall i :: 0 <= i < |NameChain(m, p)| ==> PlainName(NameChain(m, p)[i])
  }

  /** With plain names, a package's folder is the names from the root down, joined by `/`. */
  lemma {:induction false} FolderPathJoinsNames(m: Model, p: PackageId)
    requires ParentsValid(m) && p in m.packages && PlainChain(m, p)
    ensures FolderPath(m, p) == Join("/", NameChain(m, p))
    decreases m.packages[p].depth
  {
    match Parent(m, p)
    case None =>
    case Some(q) =>
      var chain := NameChain(m, q);
      var name := m.packages[p].name;
      assert NameChain(m, p) == chain + [name];
      assert forall i :: 0 <= i < |chain| ==> chain[i] == NameChain(m, p)[i];
      assert PlainName(NameChain(m, p)[|chain|]);
      FolderPathJoinsNames(m, q);
      var prefix := JoinEndsWithLast("/", chain);
      assert PlainName(chain[|chain| - 1]);
      var a := FolderPath(m, q);
      assert a == prefix + chain[|chain| - 1];
      assert a != "" && a[|a| - 1] != '/';
      assert name[0] != '/' by { assert name[0] in name; }
      JoinAppend("/", chain, name);
  }

  /** With plain names, splitting a package's folder on `/` gives back the package names from the root down. */
  lemma FolderPathSegments(m: Model, p: PackageId)
    requires ParentsValid(m) && p in m.packages && PlainChain(m, p)
    ensures Split(FolderPath(m, p), '/') == NameChain(m, p)
  {
    FolderPathJoinsNames(m, p);
    SplitJoin(NameChain(m, p), '/');
  }

  /** The file names are plain whenever the package name is. */
  lemma FilenamePlain(k: TaskKind, name: string)
    requires PlainName(name)
    ensures PlainName(Filename(k, name))
  {
    match k
    case PackageInit =>
    case PackageModule =>
      assert Filename(k, name) == name + ".py";
    case PackageMixin =>
      assert Filename(k, name) == name + "_mixins.py.skeleton";
  }

  /**
   * With plain names, the file of a task lies in the folder of the package:
   * splitting its path on `/` gives the package names from the root down,
   * followed by the task's file name.
   */
  lemma RelativePathSegments(k: TaskKind, m: Model, p: PackageId)
    requires ParentsValid(m) && p in m.packages && PlainChain(m, p)
    ensures Split(RelativePath(k, m, p), '/') == NameChain(m, p) + [Filename(k, m.packages[p].name)]
  {
    var chain := NameChain(m, p);
    var file := Filename(k, m.packages[p].name);
    FolderPathJoinsNames(m, p);
    assert PlainName(chain[|chain| - 1]);
    FilenamePlain(k, m.packages[p].name);
    var prefix := JoinEndsWithLast("/", chain);
    var a := FolderPath(m, p);
    assert a == prefix + chain[|chain| - 1];
    assert a != "" && a[|a| - 1] != '/';
    assert file[0] != '/' by { assert file[0] in file; }
    JoinAppend("/", chain, file);
    var parts := chain + [file];
    assert forall i :: 0 <= i < |parts| ==> '/' !in parts[i] by {
      forall i | 0 <= i < |parts|
        ensures '/' !in parts[i]
      {
        if i < |chain| {
          assert PlainName(chain[i]);
        }
      }
    }
    SplitJoin(parts, '/');
  }

  /**
   * Two different tasks write different files for the same package, except
   * that the package init file and the module of a package named `__init__`
   * coincide.
   */
  lemma FilenamesDiffer(k1: TaskKind, k2: TaskKind, name: string)
    requires k1 != k2
    ensures Filename(k1, name) == Filename(k2, name) <==> {k1, k2} == {PackageInit, PackageModule} && name == "__init__"
  {
    if {k1, k2} == {PackageInit, PackageModule} && name == "__init__" {
      assert Filename(PackageModule, name) == "__init__.py";
    } else if {k1, k2} == {PackageInit, PackageModule} {
      var f := Filename(PackageModule, name);
      assert f[..|name|] == name;
    } else if {k1, k2} == {PackageModule, PackageMixin} {
      assert |Filename(PackageModule, name)| != |Filename(PackageMixin, name)|;
    } else {
      assert {k1, k2} == {PackageInit, PackageMixin} by {
        assert k1 in {PackageInit, PackageMixin} || k2 in {PackageInit, PackageMixin};
      }
      assert |Filename(PackageInit, name)| != |Filename(PackageMixin, name)|;
    }
  }

  /** The hierarchy of the path tests: `pkg3` inside `pkg2` inside `pkg1`. */
  function HierarchyExample(): Model {
    Model(
      map[1 := Package("pkg1", None, 0, []),
          2 := Package("pkg2", Some(1), 1, []),
          3 := Package("pkg3", Some(2), 2, [])],
      map[], 0)
  }

  lemma PathExamples()
    ensures ParentsValid(HierarchyExample())
    ensures RelativePath(PackageInit, HierarchyExample(), 3) == "pkg1/pkg2/pkg3/__init__.py"
    ensures RelativePath(PackageModule, HierarchyExample(), 3) == "pkg1/pkg2/pkg3/pkg3.py"
  {
    var m := HierarchyExample();
    assert FolderPath(m, 1) == "pkg1";
    assert FolderPath(m, 2) == "pkg1/pkg2";
    assert FolderPath(m, 3) == "pkg1/pkg2/pkg3";
  }

  /** The package that owns classifier `c` (`c.ePackage`), the key it is imported under. */
  function Owner(m: Model, c: ClassifierId): Option<PackageId>
    requires c in m.classifiers
  {
    m.classifiers[c].ePackage
  }

  /** `isinstance(c, EClass)` for a loaded classifier. */
  predicate IsEClass(m: Model, c: ClassifierId)
    requires c in m.classifiers
  {
    IsKindOf(m.classifiers[c].metaclass, EClass)
  }

  /**
   * `d` groups the classifiers of `s` by owning package: each one sits in the
   * group of its own package and in no other, and every group is non-empty.
   */
  ghost predicate GroupedByOwner(m: Model, s: set<ClassifierId>, d: map<Option<PackageId>, set<ClassifierId>>) {
    && (forall k :: k in d ==> d[k] != {})
    && (forall k, c :: k in d && c in d[k] ==> c in m.classifiers && Owner(m, c) == k)
    && (forall c :: c in m.classifiers ==> (c in s <==> Owner(m, c) in d && c in d[Owner(m, c)]))
  }

  /** The loop `imported_dict.setdefault(classifier.ePackage, set()).add(classifier)` over `imported`. */
  method GroupByOwner(m: Model, imported: set<ClassifierId>) returns (d: map<Option<PackageId>, set<ClassifierId>>)
    requires forall c :: c in imported ==> c in m.classifiers
    ensures GroupedByOwner(m, imported, d)
  {
    d := map[];
    var rest := imported;
    while rest != {}
      invariant rest <= imported
      invariant GroupedByOwner(m, imported - rest, d)
      decreases rest
    {
      var c :| c in rest;
      var k := Owner(m, c);
      var group := if k in d then d[k] else {};
      d := d[k := group + {c}];
      rest := rest - {c};
    }
  }

  /** The classifiers of `p` that are classes, as a set. */
  function ClassesOf(m: Model, p: PackageId): set<ClassifierId>
    requires p in m.packages
  {
    set c | c in m.packages[p].eClassifiers && c in m.classifiers && IsEClass(m, c)
  }

  /**
   * A package's `__init__.py` imports the type of every reference of its
   * classes (inherited ones included) that another package, or no package, owns.
   */
  ghost predicate InitImport(m: Model, p: PackageId, t: ClassifierId)
    requires p in m.packages
  {
    && t in m.classifiers
    && Owner(m, t) != Some(p)
    && exists c, r :: c in ClassesOf(m, p) && r in m.classifiers[c].eAllReferences && r.eType == t
  }

  /** The reference types of the classes of `p` that `p` does not own. */
  function ReferenceImports(m: Model, p: PackageId): (r: set<ClassifierId>)
    requires p in m.packages
    ensures forall t :: t in r ==> t in m.classifiers && Owner(m, t) != Some(p)
  {
    set c, x | c in ClassesOf(m, p) && x in m.classifiers[c].eAllReferences && x.eType in m.classifiers && Owner(m, x.eType) != Some(p) :: x.eType
  }

  lemma ReferenceImportsMeaning(m: Model, p: PackageId, t: ClassifierId)
    requires p in m.packages
    ensures t in ReferenceImports(m, p) <==> t in m.classifiers && InitImport(m, p, t)
  {
    if t in m.classifiers && InitImport(m, p, t) {
      var c, x :| c in ClassesOf(m, p) && x in m.classifiers[c].eAllReferences && x.eType == t;
    }
  }

  /** What a package's `__init__.py` must import. */
  ghost function InitImports(m: Model, p: PackageId): set<ClassifierId>
    requires p in m.packages
  {
    set t | t in m.classifiers && InitImport(m, p, t)
  }

  lemma InitImportsComputed(m: Model, p: PackageId)
    requires p in m.packages
    ensures ReferenceImports(m, p) == InitImports(m, p)
  {
    forall t
      ensures t in ReferenceImports(m, p) <==> t in InitImports(m, p)
    {
      ReferenceImportsMeaning(m, p, t);
    }
  }

  /** `imported_classifiers_package`: the `__init__.py` imports, grouped by owning package. */
  method ImportedClassifiersPackage(m: Model, p: PackageId) returns (d: map<Option<PackageId>, set<ClassifierId>>)
    requires p in m.packages
    ensures GroupedByOwner(m, InitImports(m, p), d)
    ensures Some(p) !in d
  {
    var imported := ReferenceImports(m, p);
    InitImportsComputed(m, p);
    d := GroupByOwner(m, imported);
    NoOwnGroup(m, p, imported, d);
  }

  /** A package never imports from itself: no group is keyed by the package when none of its members is owned by it. */
  lemma NoOwnGroup(m: Model, p: PackageId, s: set<ClassifierId>, d: map<Option<PackageId>, set<ClassifierId>>)
    requires GroupedByOwner(m, s, d)
    requires forall c :: c in s ==> c in m.classifiers && Owner(m, c) != Some(p)
    ensures Some(p) !in d
  {
    forall k | k in d
      ensures k != Some(p)
    {
      var c :| c in d[k];
      assert c in s;
    }
  }

  /** A package module imports every supertype (direct or inherited) of its classes that another package, or no package, owns. */
  ghost predicate SuperTypeImport(m: Model, p: PackageId, t: ClassifierId)
    requires p in m.packages
  {
    && t in m.classifiers
    && Owner(m, t) != Some(p)
    && exists c :: c in ClassesOf(m, p) && t in m.classifiers[c].eAllSuperTypes
  }

  /**
   * It also imports the type of every attribute its classes declare, when a
   * package other than this one and Ecore's own owns that type.
   */
  ghost predicate AttributeTypeImport(m: Model, p: PackageId, t: ClassifierId)
    requires p in m.packages
  {
    && t in m.classifiers
    && Owner(m, t) !in {Some(p), Some(m.ecorePackage), None}
    && exists c, a :: c in ClassesOf(m, p) && a in m.classifiers[c].eAttributes && a.eType == t
  }

  /** The supertypes of the classes of `p` that `p` does not own. */
  function SuperTypeImports(m: Model, p: PackageId): (r: set<ClassifierId>)
    requires p in m.packages
    ensures forall t :: t in r ==> t in m.classifiers && Owner(m, t) != Some(p)
  {
    set c, t | c in ClassesOf(m, p) && t in m.classifiers[c].eAllSuperTypes && t in m.classifiers && Owner(m, t) != Some(p) :: t
  }

  lemma SuperTypeImportsMeaning(m: Model, p: PackageId, t: ClassifierId)
    requires p in m.packages
    ensures t in SuperTypeImports(m, p) <==> t in m.classifiers && SuperTypeImport(m, p, t)
  {
    if t in m.classifiers && SuperTypeImport(m, p, t) {
      var c :| c in ClassesOf(m, p) && t in m.classifiers[c].eAllSuperTypes;
    }
  }

  /** The attribute types of the classes of `p` owned by neither `p`, Ecore, nor no package. */
  function AttributeTypeImports(m: Model, p: PackageId): (r: set<ClassifierId>)
    requires p in m.packages
    ensures forall t :: t in r ==> t in m.classifiers && Owner(m, t) !in {Some(p), Some(m.ecorePackage), None}
  {
    set c, a | c in ClassesOf(m, p) && a in m.classifiers[c].eAttributes && a.eType in m.classifiers && Owner(m, a.eType) !in {Some(p), Some(m.ecorePackage), None} :: a.eType
  }

  lemma AttributeTypeImportsMeaning(m: Model, p: PackageId, t: ClassifierId)
    requires p in m.packages
    ensures t in AttributeTypeImports(m, p) <==> t in m.classifiers && AttributeTypeImport(m, p, t)
  {
    if t in m.classifiers && AttributeTypeImport(m, p, t) {
      var c, a :| c in ClassesOf(m, p) && a in m.classifiers[c].eAttributes && a.eType == t;
    }
  }

  /** What a package module must import. */
  ghost function ModuleImports(m: Model, p: PackageId): set<ClassifierId>
    requires p in m.packages
  {
    set t | t in m.classifiers && (SuperTypeImport(m, p, t) || AttributeTypeImport(m, p, t))
  }

  lemma ModuleImportsComputed(m: Model, p: PackageId)
    requires p in m.packages
    ensures SuperTypeImports(m, p) + AttributeTypeImports(m, p) == ModuleImports(m, p)
  {
    forall t
      ensures t in SuperTypeImports(m, p) + AttributeTypeImports(m, p) <==> t in ModuleImports(m, p)
    {
      SuperTypeImportsMeaning(m, p, t);
      AttributeTypeImportsMeaning(m, p, t);
    }
  }

  /** `imported_classifiers`: the module imports, grouped by owning package. */
  method ImportedClassifiers(m: Model, p: PackageId) returns (d: map<Option<PackageId>, set<ClassifierId>>)
    requires p in m.packages
    ensures GroupedByOwner(m, ModuleImports(m, p), d)
    ensures Some(p) !in d
  {
    var imported := SuperTypeImports(m, p);
    imported := imported + AttributeTypeImports(m, p);
    ModuleImportsComputed(m, p);
    d := GroupByOwner(m, imported);
    NoOwnGroup(m, p, imported, d);
  }

  /** The classes among `cs`, in their order (`isinstance(c, EClass)` for each classifier of a package). */
  function EClassesIn(m: Model, cs: seq<ClassifierId>): (r: seq<ClassifierId>)
    requires forall c :: c in cs ==> c in m.classifiers
    ensures forall c :: c in r <==> c in cs && IsEClass(m, c)
  {
    if cs == [] then []
    else
      assert cs == [cs[0]] + cs[1..];
      (if IsEClass(m, cs[0]) then [cs[0]] else []) + EClassesIn(m, cs[1..])
  }

  /** The sort key: `len(set(c.eAllSuperTypes()))`. */
  function SuperTypeCount(m: Model, c: ClassifierId): (r: nat)
    ensures c in m.classifiers ==> (r == 0 <==> m.classifiers[c].eAllSuperTypes == [])
  {
    if c in m.classifiers then
      var s := set t | t in m.classifiers[c].eAllSuperTypes;
      assert m.classifiers[c].eAllSuperTypes != [] ==> m.classifiers[c].eAllSuperTypes[0] in s;
      |s|
    else 0
  }

  ghost predicate SortedByKey(m: Model, s: seq<ClassifierId>) {
    forall i, j :: 0 <= i < j < |s| ==> SuperTypeCount(m, s[i]) <= SuperTypeCount(m, s[j])
  }

  /** The members of `s` whose key is `k`, in their order in `s`. */
  function WithKey(m: Model, s: seq<ClassifierId>, k: nat): seq<ClassifierId> {
    if s == [] then []
    else (if SuperTypeCount(m, s[0]) == k then [s[0]] else []) + WithKey(m, s[1..], k)
  }

  /** Puts `x` before the first member of `s` whose key is not smaller. */
  function Insert(m: Model, x: ClassifierId, s: seq<ClassifierId>): (r: seq<ClassifierId>)
    ensures multiset(r) == multiset{x} + multiset(s)
  {
    if s == [] || SuperTypeCount(m, x) <= SuperTypeCount(m, s[0]) then [x] + s
    else
      assert s == [s[0]] + s[1..];
      [s[0]] + Insert(m, x, s[1..])
  }

  /** Inserting into a sorted sequence keeps it sorted. */
  lemma {:induction false} InsertSorted(m: Model, x: ClassifierId, s: seq<ClassifierId>)
    requires SortedByKey(m, s)
    ensures SortedByKey(m, Insert(m, x, s))
  {
    if s == [] || SuperTypeCount(m, x) <= SuperTypeCount(m, s[0]) {
      PrependSorted(m, x, s);
    } else {
      var rest := Insert(m, x, s[1..]);
      InsertSorted(m, x, s[1..]);
      InsertLowerBound(m, x, s[1..], SuperTypeCount(m, s[0]));
      var r := [s[0]] + rest;
      assert Insert(m, x, s) == r;
      forall i, j | 0 <= i < j < |r|
        ensures SuperTypeCount(m, r[i]) <= SuperTypeCount(m, r[j])
      {
        if i == 0 {
          assert r[j] in rest;
        } else {
          assert r[i] == rest[i - 1] && r[j] == rest[j - 1];
        }
      }
    }
  }

  lemma PrependSorted(m: Model, x: ClassifierId, s: seq<ClassifierId>)
    requires SortedByKey(m, s) && (s == [] || SuperTypeCount(m, x) <= SuperTypeCount(m, s[0]))
    ensures SortedByKey(m, [x] + s)
  {
    var r := [x] + s;
    forall i, j | 0 <= i < j < |r|
      ensures SuperTypeCount(m, r[i]) <= SuperTypeCount(m, r[j])
    {
      if i == 0 {
        assert r[j] == s[j - 1];
        assert SuperTypeCount(m, s[0]) <= SuperTypeCount(m, s[j - 1]) || j == 1;
      } else {
        assert r[i] == s[i - 1] && r[j] == s[j - 1];
      }
    }
  }

  /** A lower bound of `x` and of every member of `s` bounds every member of the result. */
  lemma InsertLowerBound(m: Model, x: ClassifierId, s: seq<ClassifierId>, lo: nat)
    requires lo <= SuperTypeCount(m, x)
    requires forall c :: c in s ==> lo <= SuperTypeCount(m, c)
    ensures forall c :: c in Insert(m, x, s) ==> lo <= SuperTypeCount(m, c)
  {
    forall c | c in Insert(m, x, s)
      ensures lo <= SuperTypeCount(m, c)
    {
      assert multiset(Insert(m, x, s))[c] > 0;
      if c != x {
        assert multiset(s)[c] > 0;
      }
    }
  }

  /** Inserting `x` adds it in front of the members with its key and leaves the other keys alone. */
  lemma {:induction false} InsertWithKey(m: Model, x: ClassifierId, s: seq<ClassifierId>, k: nat)
    ensures WithKey(m, Insert(m, x, s), k) == (if SuperTypeCount(m, x) == k then [x] else []) + WithKey(m, s, k)
  {
    if s == [] || SuperTypeCount(m, x) <= SuperTypeCount(m, s[0]) {
      assert ([x] + s)[1..] == s;
    } else {
      var r := [s[0]] + Insert(m, x, s[1..]);
      InsertWithKey(m, x, s[1..], k);
      assert r[1..] == Insert(m, x, s[1..]);
    }
  }

  /**
   * `sorted(cs, key=...)`: an insertion sort, which, like Python's sort, is
   * stable.
   */
  function SortBySuperTypeCount(m: Model, s: seq<ClassifierId>): (r: seq<ClassifierId>)
    ensures multiset(r) == multiset(s)
  {
    if s == [] then []
    else
      assert s == [s[0]] + s[1..];
      Insert(m, s[0], SortBySuperTypeCount(m, s[1..]))
  }

  /** The result is ordered by key. */
  lemma {:induction false} SortIsSorted(m: Model, s: seq<ClassifierId>)
    ensures SortedByKey(m, SortBySuperTypeCount(m, s))
  {
    if s != [] {
      SortIsSorted(m, s[1..]);
      InsertSorted(m, s[0], SortBySuperTypeCount(m, s[1..]));
    }
  }

  /** The sort is stable: the classes of each key keep their original order. */
  lemma {:induction false} SortIsStable(m: Model, s: seq<ClassifierId>, k: nat)
    ensures WithKey(m, SortBySuperTypeCount(m, s), k) == WithKey(m, s, k)
  {
    if s != [] {
      SortIsStable(m, s[1..], k);
      InsertWithKey(m, s[0], SortBySuperTypeCount(m, s[1..]), k);
    }
  }

  /** `classes`: the classes of package `p`, fewest supertypes first. */
  function Classes(m: Model, p: PackageId): (r: seq<ClassifierId>)
    requires p in m.packages && ClassifiersLoaded(m, p)
    ensures forall c :: c in r <==> c in m.packages[p].eClassifiers && IsEClass(m, c)
    ensures SortedByKey(m, r)
  {
    var cs := EClassesIn(m, m.packages[p].eClassifiers);
    var r := SortBySuperTypeCount(m, cs);
    SortIsSorted(m, cs);
    assert forall c :: c in r <==> c in cs by {
      forall c ensures c in r <==> c in cs {
        assert c in r <==> multiset(r)[c] > 0;
        assert c in cs <==> multiset(cs)[c] > 0;
      }
    }
    r
  }

  /** Each class of `cs` is kept as often as it occurs there, and nothing else is kept. */
  lemma {:induction false} EClassesInCounts(m: Model, cs: seq<ClassifierId>, c: ClassifierId)
    requires forall t :: t in cs ==> t in m.classifiers
    ensures multiset(EClassesIn(m, cs))[c] == if c in m.classifiers && IsEClass(m, c) then multiset(cs)[c] else 0
  {
    if cs != [] {
      var d: ClassifierId, rest: seq<ClassifierId> := cs[0], cs[1..];
      var head: seq<ClassifierId> := if IsEClass(m, d) then [d] else [];
      EClassesInCounts(m, rest, c);
      assert cs == [d] + rest;
      assert EClassesIn(m, cs) == head + EClassesIn(m, rest);
      assert multiset(EClassesIn(m, cs))[c] == multiset(head)[c] + multiset(EClassesIn(m, rest))[c];
      assert multiset(cs)[c] == multiset([d])[c] + multiset(rest)[c];
      if c != d {
        assert multiset(head)[c] == 0 && multiset([d])[c] == 0;
      }
    }
  }

  /**
   * `classes(p)` holds the classes of `p` as often as `p` lists them, and
   * classes with the same number of supertypes keep their order in `p`.
   */
  lemma ClassesSortedStably(m: Model, p: PackageId, k: nat)
    requires p in m.packages && ClassifiersLoaded(m, p)
    ensures var cs := m.packages[p].eClassifiers;
      forall c :: multiset(Classes(m, p))[c] == if c in m.classifiers && IsEClass(m, c) then multiset(cs)[c] else 0
    ensures WithKey(m, Classes(m, p), k) == WithKey(m, EClassesIn(m, m.packages[p].eClassifiers), k)
  {
    var cs := m.packages[p].eClassifiers;
    SortIsStable(m, EClassesIn(m, cs), k);
    forall c
      ensures multiset(Classes(m, p))[c] == if c in m.classifiers && IsEClass(m, c) then multiset(cs)[c] else 0
    {
      EClassesInCounts(m, cs, c);
    }
  }

  /** A proper supertype has fewer supertypes of its own. */
  lemma SuperTypeHasSmallerKey(m: Model, a: ClassifierId, b: ClassifierId)
    requires SuperTypesClosed(m)
    requires a in m.classifiers && b in m.classifiers && a in m.classifiers[b].eAllSuperTypes
    ensures SuperTypeCount(m, a) < SuperTypeCount(m, b)
  {
    var sa := set t | t in m.classifiers[a].eAllSuperTypes;
    var sb := set t | t in m.classifiers[b].eAllSuperTypes;
    assert sa <= sb;
    assert a in sb && a !in sa;
    assert sb == sa + (sb - sa);
    assert |sb - sa| >= 1 by { assert a in sb - sa; }
  }

  /** In a sequence sorted by the key, each loaded class comes after all of its supertypes. */
  lemma SortedPutsSuperTypesFirst(m: Model, r: seq<ClassifierId>)
    requires SuperTypesClosed(m) && SortedByKey(m, r)
    requires forall c :: c in r ==> c in m.classifiers
    ensures forall i, j :: 0 <= i < |r| && 0 <= j < |r| && r[i] in m.classifiers[r[j]].eAllSuperTypes ==> i < j
  {
    forall i, j | 0 <= i < |r| && 0 <= j < |r| && r[i] in m.classifiers[r[j]].eAllSuperTypes
      ensures i < j
    {
      SuperTypeHasSmallerKey(m, r[i], r[j]);
    }
  }

  /**
   * In `classes`, every class comes after all of its supertypes from the same
   * package, so each base is defined before the class that derives from it.
   */
  lemma SuperTypesComeFirst(m: Model, p: PackageId)
    requires p in m.packages && ClassifiersLoaded(m, p) && SuperTypesClosed(m)
    ensures var r := Classes(m, p);
      forall i, j :: 0 <= i < |r| && 0 <= j < |r| && r[i] in m.classifiers[r[j]].eAllSuperTypes ==> i < j
  {
    var r := Classes(m, p);
    SortedPutsSuperTypesFirst(m, r);
  }
}
