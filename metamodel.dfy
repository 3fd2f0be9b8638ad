/**
 * The part of pyecore's object graph the generator reads: the metaclass of
 * every object (for `isinstance` and `__class__` tests), packages with their
 * parent package and classifiers, and classifiers with their package, their
 * supertypes, references and attributes. Names are the values a read of
 * `name` returns at the time of the read (see module Adapter).
 */
module Metamodel {
  import opened Wrappers

  /** The Ecore metaclasses, as pyecore implements them as Python classes. */
  datatype MetaClass =
    | EObject | EModelElement | ENamedElement | EPackage
    | EClassifier | EClass | EDataType | EEnum | EEnumLiteral
    | ETypedElement | EStructuralFeature | EAttribute | EReference
    | EOperation | EParameter

  /** How many base classes lie between `m` and `EObject`. */
  function Depth(m: MetaClass): nat {
    match m
    case EObject => 0
    case EModelElement => 1
    case ENamedElement => 2
    case EPackage | EClassifier | EEnumLiteral | ETypedElement => 3
    case EClass | EDataType | EStructuralFeature | EOperation | EParameter => 4
    case EEnum | EAttribute | EReference => 5
  }

  /** The direct base class of each metaclass; `EObject` is the root. */
  function Base(m: MetaClass): (r: Option<MetaClass>)
    ensures r.None? <==> m == EObject
    ensures r.Some? ==> Depth(r.value) + 1 == Depth(m)
  {
    match m
    case EObject => None
    case EModelElement => Some(EObject)
    case ENamedElement => Some(EModelElement)
    case EPackage | EClassifier | EEnumLiteral | ETypedElement => Some(ENamedElement)
    case EClass | EDataType => Some(EClassifier)
    case EEnum => Some(EDataType)
    case EStructuralFeature | EOperation | EParameter => Some(ETypedElement)
    case EAttribute | EReference => Some(EStructuralFeature)
  }

  /** The Ecore part of `m.__mro__`: the metaclass followed by its Ecore base classes, nearest first, down to `EObject`. */
  function Mro(m: MetaClass): (r: seq<MetaClass>)
    ensures |r| == Depth(m) + 1 && r[0] == m && r[|r| - 1] == EObject
    decreases Depth(m)
  {
    match Base(m)
    case None => [m]
    case Some(b) => [m] + Mro(b)
  }

  /** `isinstance(x, t)` for an object `x` whose class is `m`: `t` is `m` or one of its bases. */
  predicate IsKindOf(m: MetaClass, t: MetaClass)
    decreases Depth(m)
  {
    match Base(m)
    case None => m == t
    case Some(b) => m == t || IsKindOf(b, t)
  }

  /** Walking the bases finds exactly the classes of the method resolution order. */
  lemma {:induction false} IsKindOfMro(m: MetaClass, t: MetaClass)
    ensures IsKindOf(m, t) <==> t in Mro(m)
    decreases Depth(m)
  {
    if Base(m).Some? {
      IsKindOfMro(Base(m).value, t);
    }
  }

  /** An instance of a class is an instance of each of that class's bases. */
  lemma {:induction false} IsKindOfTransitive(a: MetaClass, b: MetaClass, c: MetaClass)
    requires IsKindOf(a, b) && IsKindOf(b, c)
    ensures IsKindOf(a, c)
    decreases Depth(a)
  {
    if a != b {
      IsKindOfTransitive(Base(a).value, b, c);
    }
  }

  /**
   * No class is an instance of another class that is at least as far from
   * `EObject` as itself: the bases only get nearer.
   */
  lemma {:induction false} NotKindOfDeeper(m: MetaClass, t: MetaClass)
    requires m != t && Depth(m) <= Depth(t)
    ensures !IsKindOf(m, t)
    decreases Depth(m)
  {
    if Base(m).Some? {
      NotKindOfDeeper(Base(m).value, t);
    }
  }

  /** Any object of the model, seen through its class. */
  datatype Element = Element(id: nat, metaclass: MetaClass)

  type PackageId = nat
  type ClassifierId = nat

  /**
   * An `EPackage`: its name, its containing package (`eContainer()`), the
   * number of packages above it, and its classifiers in declaration order.
   */
  datatype Package = Package(
    name: string,
    eSuperPackage: Option<PackageId>,
    depth: nat,
    eClassifiers: seq<ClassifierId>)

  /** An `EReference` with the flags the generator renders. */
  datatype Reference = Reference(
    id: nat,
    name: string,
    eType: ClassifierId,
    ordered: bool,
    unique: bool,
    containment: bool,
    many: bool,
    eOpposite: Option<nat>)

  /** An `EAttribute` with the flags the generator renders. */
  datatype Attribute = Attribute(
    name: string,
    eType: ClassifierId,
    derived: bool,
    changeable: bool,
    iD: bool,
    many: bool,
    defaultValueLiteral: Option<string>)

  /**
   * An `EClassifier`: `eSuperTypes` are the direct supertypes, `eAllSuperTypes`
   * what pyecore's `eAllSuperTypes()` returns, `eAllReferences` what
   * `eAllReferences()` returns and `eAttributes` the attributes it declares.
   */
  datatype Classifier = Classifier(
    name: string,
    metaclass: MetaClass,
    ePackage: Option<PackageId>,
    eSuperTypes: seq<ClassifierId>,
    eAllSuperTypes: seq<ClassifierId>,
    eAllReferences: seq<Reference>,
    eAttributes: seq<Attribute>)

  /** The loaded packages and classifiers; `ecorePackage` is Ecore's own package (`ecore.eClass`). */
  datatype Model = Model(
    packages: map<PackageId, Package>,
    classifiers: map<ClassifierId, Classifier>,
    ecorePackage: PackageId)

  /** `p.eContainer()`: the package that contains `p`, if any. */
  function Parent(m: Model, p: PackageId): Option<PackageId>
    requires p in m.packages
  {
    m.packages[p].eSuperPackage
  }

  /** Parent links form a forest: a root has depth 0, every other package is one deeper than its parent. */
  ghost predicate ParentsValid(m: Model) {
    forall p {:trigger Parent(m, p)} :: p in m.packages ==>
      match Parent(m, p)
      case None => m.packages[p].depth == 0
      case Some(q) => q in m.packages && m.packages[p].depth == m.packages[q].depth + 1
  }

  /** Every classifier package `p` lists is loaded. */
  ghost predicate ClassifiersLoaded(m: Model, p: PackageId)
    requires p in m.packages
  {
    forall c :: c in m.packages[p].eClassifiers ==> c in m.classifiers
  }

  /**
   * `eAllSuperTypes()` is what it promises in an acyclic hierarchy: it holds
   * the supertypes of each of its members and never the classifier itself.
   */
  ghost predicate SuperTypesClosed(m: Model) {
    forall c :: c in m.classifiers ==>
      && c !in m.classifiers[c].eAllSuperTypes
      && forall t, u :: t in m.classifiers[c].eAllSuperTypes && t in m.classifiers && u in m.classifiers[t].eAllSuperTypes ==>
           u in m.classifiers[c].eAllSuperTypes
  }

  /** The names of the packages from the root down to `p`. */
  function NameChain(m: Model, p: PackageId): (r: seq<string>)
    requires ParentsValid(m) && p in m.packages
    ensures |r| == m.packages[p].depth + 1
    ensures r[|r| - 1] == m.packages[p].name
    decreases m.packages[p].depth
  {
    match Parent(m, p)
    case None => [m.packages[p].name]
    case Some(q) => NameChain(m, q) + [m.packages[p].name]
  }
}
