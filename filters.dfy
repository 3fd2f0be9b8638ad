/**
 * The Jinja tests and filters that `EcoreGenerator` registers for its
 * templates: exact-type and kind tests, the opposite-before-self test, the
 * docstring, supertype, quoting and qualifier strings, the rendering of
 * attribute default values, and dotted fully qualified package names.
 */
module Filters {
  import opened Wrappers
  import opened Text
  import opened Metamodel
  import Adapter

  /** `test_type`: the object's class is exactly `t`. */
  predicate TestType(e: Element, t: MetaClass)
    ensures TestType(e, t) ==> TestKind(e, t)
  {
    e.metaclass == t
  }

  /** `test_kind`: `isinstance(e, t)`, that is, `t` is in the method resolution order of the object's class. */
  predicate TestKind(e: Element, t: MetaClass)
    ensures TestKind(e, t) <==> t in Mro(e.metaclass)
  {
    IsKindOfMro(e.metaclass, t);
    IsKindOf(e.metaclass, t)
  }

  /** An object of exactly type `t` is of kind `t`, and so of kind of every base of `t`. */
  lemma TypeIsKind(e: Element, t: MetaClass, base: MetaClass)
    requires TestType(e, t) && IsKindOf(t, base)
    ensures TestKind(e, t) && TestKind(e, base)
  {
  }

  /** An enum is of kind data type, but not of type data type. */
  lemma TypeAndKindDiffer(e: Element)
    requires e.metaclass == EEnum
    ensures TestKind(e, EDataType) && !TestType(e, EDataType)
  {
  }

  /** `s.index(x)`: the first position of `x` in `s`; `None` stands for the ValueError when it is missing. */
  function IndexOf<T(==)>(s: seq<T>, x: T): (r: Option<nat>)
    ensures r.None? <==> x !in s
    ensures r.Some? ==> r.value < |s| && s[r.value] == x && x !in s[..r.value]
    ensures forall k :: 0 <= k < |s| && s[k] == x ==> r.Some? && r.value <= k
  {
    if s == [] then None
    else if s[0] == x then Some(0)
    else
      match IndexOf(s[1..], x)
      case None => None
      case Some(i) =>
        assert s[..i + 1] == [s[0]] + s[1..][..i];
        Some(i + 1)
  }

  /**
   * `test_opposite_before_self` for a reference `self` whose opposite is
   * `opposite`, over a list of references given by identity. A missing
   * opposite, or either reference missing from the list, makes `index` raise,
   * and the test is then false.
   */
  function OppositeBeforeSelf(self: nat, opposite: Option<nat>, references: seq<nat>): (r: bool)
    ensures r ==> opposite.Some? && opposite.value in references && self in references && opposite.value != self
  {
    if opposite.None? then false
    else
      match (IndexOf(references, opposite.value), IndexOf(references, self))
      case (Some(i), Some(j)) => i < j
      case _ => false
  }

  /**
   * The test holds exactly when the opposite occurs somewhere in the list
   * with no occurrence of `self` up to and including it, and `self` occurs later.
   */
  lemma OppositeBeforeSelfMeaning(self: nat, opposite: Option<nat>, references: seq<nat>)
    ensures OppositeBeforeSelf(self, opposite, references) <==>
      opposite.Some? &&
      exists i :: 0 <= i < |references| && references[i] == opposite.value &&
        self !in references[..i + 1] && self in references[i + 1..]
  {
    if opposite.Some? {
      var o := opposite.value;
      if OppositeBeforeSelf(self, opposite, references) {
        var i := IndexOf(references, o).value;
        var j := IndexOf(references, self).value;
        assert references[..j][i] == o;
        assert self !in references[..i + 1] by {
          assert references[..i + 1] == references[..j][..i + 1];
        }
        assert references[i + 1..][j - i - 1] == self;
      }
      if exists i :: 0 <= i < |references| && references[i] == o &&
           self !in references[..i + 1] && self in references[i + 1..] {
        var i :| 0 <= i < |references| && references[i] == o &&
           self !in references[..i + 1] && self in references[i + 1..];
        var k :| 0 <= k < |references[i + 1..]| && references[i + 1..][k] == self;
        assert references[i + 1 + k] == self;
        var j := IndexOf(references, self).value;
        assert forall jj :: 0 <= jj <= i ==> references[..i + 1][jj] == references[jj];
        assert j > i;
      }
    }
  }

  /** The cases of the opposite-before-self test, with `self` as 1 and its opposite as 2. */
  lemma OppositeBeforeSelfExamples()
    ensures !OppositeBeforeSelf(1, Some(2), [1, 2])
    ensures OppositeBeforeSelf(1, Some(2), [2, 1])
    ensures !OppositeBeforeSelf(1, Some(2), [1])
    ensures !OppositeBeforeSelf(1, Some(2), [2])
  {
    assert [1, 2][1..] == [2];
    assert [2, 1][1..] == [1];
  }

  /** An `EAnnotation`: its source URI and its details. */
  datatype Annotation = Annotation(source: string, details: map<string, string>)

  const GenModelUri: string := "http://www.eclipse.org/emf/2002/GenModel"

  /** `getEAnnotation(source)`: the first annotation with that source, if any. */
  function GetEAnnotation(annotations: seq<Annotation>, source: string): (r: Option<Annotation>)
    ensures r.None? <==> forall a :: a in annotations ==> a.source != source
    ensures r.Some? ==> r.value.source == source && r.value in annotations
    ensures r.Some? ==> exists i :: 0 <= i < |annotations| && annotations[i] == r.value &&
                                  forall j :: 0 <= j < i ==> annotations[j].source != source
  {
    if annotations == [] then None
    else if annotations[0].source == source then Some(annotations[0])
    else
      assert forall a :: a in annotations ==> a == annotations[0] || a in annotations[1..];
      GetEAnnotation(annotations[1..], source)
  }

  /** The documentation text the GenModel annotation gives, `None` when there is no such annotation. */
  function Documentation(annotations: seq<Annotation>): Option<string> {
    match GetEAnnotation(annotations, GenModelUri)
    case None => None
    case Some(a) => Some(if "documentation" in a.details then a.details["documentation"] else "")
  }

  const TripleQuote: string := "\"\"\""

  /**
   * `filter_docstringline`: empty exactly when there is no documentation or
   * it is empty, and otherwise the documentation between triple quotes.
   */
  function Docstringline(annotations: seq<Annotation>): (r: string)
    ensures var doc := Documentation(annotations);
      && (r == "" <==> doc.None? || doc.value == "")
      && (r != "" ==> |r| >= 6 && r[..3] == TripleQuote && r[|r| - 3..] == TripleQuote && r[3..|r| - 3] == doc.value)
  {
    var doc := Documentation(annotations);
    if doc.Some? && doc.value != "" then TripleQuote + doc.value + TripleQuote else ""
  }

  /** An element whose first GenModel annotation documents it, with a later one ignored. */
  lemma DocstringlineExample()
    ensures Docstringline([Annotation("other", map[]), Annotation(GenModelUri, map["documentation" := "Doc."]),
                           Annotation(GenModelUri, map["documentation" := "Later."])]) == "\"\"\"Doc.\"\"\""
    ensures Docstringline([Annotation(GenModelUri, map[])]) == ""
  {
    var anns := [Annotation("other", map[]), Annotation(GenModelUri, map["documentation" := "Doc."]),
                 Annotation(GenModelUri, map["documentation" := "Later."])];
    assert GetEAnnotation(anns, GenModelUri) == Some(anns[1]) by {
      assert anns[1..][0] == anns[1];
      assert "other" != GenModelUri;
    }
    assert TripleQuote + "Doc." + TripleQuote == "\"\"\"Doc.\"\"\"";
  }

  /** The names of the classifiers `ids`, in order. */
  function Names(m: Model, ids: seq<ClassifierId>): (r: seq<string>)
    requires forall t :: t in ids ==> t in m.classifiers
    ensures |r| == |ids| && forall i :: 0 <= i < |ids| ==> r[i] == m.classifiers[ids[i]].name
  {
    if ids == [] then [] else [m.classifiers[ids[0]].name] + Names(m, ids[1..])
  }

  const DefaultBases: string := "EObject, metaclass=MetaEClass"

  /**
   * `filter_supertypes` for class `c`: the names of its direct supertypes
   * joined by commas, or the bases of a class without supertypes.
   */
  function FilterSupertypes(m: Model, c: ClassifierId): (r: string)
    requires c in m.classifiers
    requires forall t :: t in m.classifiers[c].eSuperTypes ==> t in m.classifiers
    ensures m.classifiers[c].eSuperTypes == [] ==> r == DefaultBases
  {
    var joined := Join(", ", Names(m, m.classifiers[c].eSuperTypes));
    if joined != "" then joined else DefaultBases
  }

  /**
   * When the supertypes' names are neither empty nor hold a comma, they read
   * back from the base list one by one and in order.
   */
  lemma SupertypesMeaning(m: Model, c: ClassifierId)
    requires c in m.classifiers
    requires forall t :: t in m.classifiers[c].eSuperTypes ==> t in m.classifiers
    requires forall t :: t in m.classifiers[c].eSuperTypes ==> m.classifiers[t].name != "" && ',' !in m.classifiers[t].name
    ensures var sup := m.classifiers[c].eSuperTypes;
      sup != [] ==> var names := ReadCommaList(FilterSupertypes(m, c));
        |names| == |sup| && forall i :: 0 <= i < |sup| ==> names[i] == m.classifiers[sup[i]].name
  {
    var sup := m.classifiers[c].eSuperTypes;
    var names := Names(m, sup);
    if sup != [] {
      assert forall i :: 0 <= i < |names| ==> names[i] != "" && ',' !in names[i] by {
        forall i | 0 <= i < |names|
          ensures names[i] != "" && ',' !in names[i]
        {
          assert sup[i] in sup;
        }
      }
      JoinIsEmpty(", ", names);
      CommaListRoundTrip(names);
    }
  }

  /**
   * `filter_pyquotesingle`: the value in single quotes; only `None` becomes the
   * empty string, and any string can be taken out of its quotes again.
   */
  function PyQuoteSingle(value: Option<string>): (r: string)
    ensures r == "" <==> value.None?
    ensures value.Some? ==> |r| >= 2 && r[0] == '\'' && r[|r| - 1] == '\'' && r[1..|r| - 1] == value.value
  {
    if value.Some? then "'" + value.value + "'" else ""
  }

  /** One `key=value` entry of a qualifier dictionary, in insertion order. */
  datatype Qualifier = Qualifier(key: string, value: string)

  function Entries(qs: seq<Qualifier>): (r: seq<string>)
    ensures |r| == |qs| && forall i :: 0 <= i < |qs| ==> r[i] == qs[i].key + "=" + qs[i].value
  {
    if qs == [] then [] else [qs[0].key + "=" + qs[0].value] + Entries(qs[1..])
  }

  /** `', '.join('{}={}'.format(k, v) for k, v in qualifiers.items())`. */
  function RenderQualifiers(qs: seq<Qualifier>): string {
    Join(", ", Entries(qs))
  }

  /** Reads one entry back, splitting it at its first `=`. */
  function ReadEntry(e: string): Option<Qualifier> {
    match IndexOf(e, '=')
    case None => None
    case Some(i) => Some(Qualifier(e[..i], e[i + 1..]))
  }

  function ReadEntries(es: seq<string>): Option<seq<Qualifier>> {
    if es == [] then Some([])
    else
      match (ReadEntry(es[0]), ReadEntries(es[1..]))
      case (Some(q), Some(qs)) => Some([q] + qs)
      case _ => None
  }

  /** Reads a rendered qualifier list back into its entries. */
  function ReadQualifiers(s: string): Option<seq<Qualifier>> {
    ReadEntries(ReadCommaList(s))
  }

  /** Keys hold neither `=` nor `,`, and values hold no `,`. */
  predicate Readable(q: Qualifier) {
    '=' !in q.key && ',' !in q.key && ',' !in q.value
  }

  lemma ReadEntryBack(q: Qualifier)
    requires '=' !in q.key
    ensures ReadEntry(q.key + "=" + q.value) == Some(q)
  {
    var e := q.key + "=" + q.value;
    assert e[|q.key|] == '=';
    assert e[..|q.key|] == q.key;
    assert e[|q.key| + 1..] == q.value;
  }

  lemma {:induction false} ReadEntriesBack(qs: seq<Qualifier>)
    requires forall i :: 0 <= i < |qs| ==> '=' !in qs[i].key
    ensures ReadEntries(Entries(qs)) == Some(qs)
  {
    if qs != [] {
      ReadEntryBack(qs[0]);
      ReadEntriesBack(qs[1..]);
      assert Entries(qs)[1..] == Entries(qs[1..]);
      assert [qs[0]] + qs[1..] == qs;
    }
  }

  lemma NoCommaInEntry(q: Qualifier)
    requires Readable(q)
    ensures ',' !in q.key + "=" + q.value
  {
    var e := q.key + "=" + q.value;
    assert forall i :: 0 <= i < |e| ==> e[i] == (if i < |q.key| then q.key[i] else if i == |q.key| then '=' else q.value[i - |q.key| - 1]);
  }

  ghost predicate AllReadable(qs: seq<Qualifier>) {
    forall i :: 0 <= i < |qs| ==> Readable(qs[i])
  }

  lemma ReadableConcat(a: seq<Qualifier>, b: seq<Qualifier>)
    requires AllReadable(a) && AllReadable(b)
    ensures AllReadable(a + b)
  {
    assert forall i :: |a| <= i < |a + b| ==> (a + b)[i] == b[i - |a|];
  }

  /** The flag entries `key=True` or `key=False` for the keys the filters write. */
  lemma FlagReadable(key: string, b: bool)
    requires key in ["ordered", "unique", "containment", "derived", "changeable", "iD"]
    ensures Readable(Qualifier(key, BoolText(b)))
  {
    assert ',' !in BoolText(b);
    assert '=' !in key && ',' !in key;
  }

  /** A non-empty qualifier list with readable entries reads back from its rendering, entry by entry and in order. */
  lemma QualifiersRoundTrip(qs: seq<Qualifier>)
    requires |qs| >= 1
    requires forall i :: 0 <= i < |qs| ==> Readable(qs[i])
    ensures ReadQualifiers(RenderQualifiers(qs)) == Some(qs)
  {
    var es := Entries(qs);
    forall i | 0 <= i < |es|
      ensures ',' !in es[i]
    {
      NoCommaInEntry(qs[i]);
    }
    CommaListRoundTrip(es);
    ReadEntriesBack(qs);
  }

  /** The qualifier dictionary of `filter_refqualifiers`. */
  function RefQualifiers(r: Reference): (qs: seq<Qualifier>)
    ensures |qs| == (if r.many then 4 else 3)
    ensures qs[..3] == [Qualifier("ordered", BoolText(r.ordered)),
                        Qualifier("unique", BoolText(r.unique)),
                        Qualifier("containment", BoolText(r.containment))]
    ensures r.many ==> qs[3] == Qualifier("upper", "-1")
    ensures forall i :: 0 <= i < |qs| ==> Readable(qs[i])
  {
    FlagReadable("ordered", r.ordered);
    FlagReadable("unique", r.unique);
    FlagReadable("containment", r.containment);
    assert Readable(Qualifier("upper", "-1"));
    [Qualifier("ordered", BoolText(r.ordered)),
     Qualifier("unique", BoolText(r.unique)),
     Qualifier("containment", BoolText(r.containment))] +
    (if r.many then [Qualifier("upper", "-1")] else [])
  }

  /**
   * `filter_refqualifiers`: the rendered qualifiers read back as `ordered`,
   * `unique` and `containment` with the reference's flags, then `upper=-1`
   * exactly for a many-valued reference.
   */
  function FilterRefqualifiers(r: Reference): (s: string)
    ensures ReadQualifiers(s) == Some(RefQualifiers(r))
  {
    QualifiersRoundTrip(RefQualifiers(r));
    RenderQualifiers(RefQualifiers(r))
  }

  /**
   * What `eType.from_string(literal)` returns: an enum literal, a string, or
   * any other object, given by the text `str` makes of it.
   */
  datatype Parsed = EnumLiteral(enumName: string, literalName: string) | PyString(s: string) | PyObject(text: string)

  /** What `manage_default_value` returns: Python source text, or the parsed object itself. */
  datatype DefaultValue = Source(text: string) | Unchanged(obj: Parsed)

  /**
   * `manage_default_value` for a literal of an attribute whose type is `eType`:
   * an enum type's literal is sanitized before `from_string` (so `None` finds
   * the literal `None_`); an enum literal renders as `<enum>.<literal>`, a
   * string as its `repr`, and any other object is returned as it is.
   */
  function ManageDefaultValue(literal: string, eType: Classifier, fromString: string -> Parsed): (r: DefaultValue)
    ensures r.Unchanged? ==> r.obj.PyObject?
    ensures r.Unchanged? ==> r.obj == fromString(if IsKindOf(eType.metaclass, EEnum) then Adapter.Sanitize(literal) else literal)
  {
    var value := if IsKindOf(eType.metaclass, EEnum) then Adapter.Sanitize(literal) else literal;
    match fromString(value)
    case EnumLiteral(e, l) => Source(e + "." + l)
    case PyString(s) => Source(PyRepr(s))
    case PyObject(t) => Unchanged(PyObject(t))
  }

  /** An enum's literal is sanitized exactly once: sanitizing it beforehand changes nothing. */
  lemma EnumDefaultSanitizedOnce(literal: string, eType: Classifier, fromString: string -> Parsed)
    requires IsKindOf(eType.metaclass, EEnum)
    ensures ManageDefaultValue(Adapter.Sanitize(literal), eType, fromString) == ManageDefaultValue(literal, eType, fromString)
  {
    Adapter.SanitizeIdempotent(literal);
  }

  /** A type that is not an enum gets the literal exactly as written. */
  lemma OtherDefaultsNotSanitized(literal: string, eType: Classifier, fromString: string -> Parsed)
    requires !IsKindOf(eType.metaclass, EEnum) && fromString(literal).PyString?
    ensures ManageDefaultValue(literal, eType, fromString) == Source(PyRepr(fromString(literal).s))
  {
  }

  /** A string default renders as Python source that reads back as that string. */
  lemma StringDefaultRoundTrip(literal: string, eType: Classifier, fromString: string -> Parsed)
    requires var v := if IsKindOf(eType.metaclass, EEnum) then Adapter.Sanitize(literal) else literal;
      fromString(v).PyString?
    ensures var r := ManageDefaultValue(literal, eType, fromString);
      var v := if IsKindOf(eType.metaclass, EEnum) then Adapter.Sanitize(literal) else literal;
      r.Source? && Unrepr(r.text) == Some(fromString(v).s)
  {
    var v := if IsKindOf(eType.metaclass, EEnum) then Adapter.Sanitize(literal) else literal;
    ReprRoundTrip(fromString(v).s);
  }

  /** An enum literal default splits at its dot into the enum's and the literal's names, when neither holds a dot. */
  lemma EnumDefaultSplits(literal: string, eType: Classifier, fromString: string -> Parsed)
    requires var v := if IsKindOf(eType.metaclass, EEnum) then Adapter.Sanitize(literal) else literal;
      var p := fromString(v);
      p.EnumLiteral? && '.' !in p.enumName && '.' !in p.literalName
    ensures var r := ManageDefaultValue(literal, eType, fromString);
      var v := if IsKindOf(eType.metaclass, EEnum) then Adapter.Sanitize(literal) else literal;
      r.Source? && Split(r.text, '.') == [fromString(v).enumName, fromString(v).literalName]
  {
    var v := if IsKindOf(eType.metaclass, EEnum) then Adapter.Sanitize(literal) else literal;
    var p := fromString(v);
    SplitJoin([p.enumName, p.literalName], '.');
    assert Join(".", [p.enumName, p.literalName]) == p.enumName + "." + p.literalName;
  }

  /**
   * Exactly an object that is neither an enum literal nor a string comes back
   * unchanged, and it is then what `from_string` returned.
   */
  lemma DefaultUnchangedExactlyForObjects(literal: string, eType: Classifier, fromString: string -> Parsed)
    ensures var v := if IsKindOf(eType.metaclass, EEnum) then Adapter.Sanitize(literal) else literal;
      var r := ManageDefaultValue(literal, eType, fromString);
      && (r.Unchanged? <==> fromString(v).PyObject?)
      && (r.Unchanged? ==> r.obj == fromString(v))
  {
  }

  /** `MyEnum` of the default-value tests, with literals `None_`, `A` and `B`. */
  function MyEnum(): Classifier {
    Classifier("MyEnum", EEnum, None, [], [], [], [])
  }

  /** `from_string` of `MyEnum`: the literal of that name. */
  function MyEnumFromString(v: string): Parsed {
    if v in ["None_", "A", "B"] then EnumLiteral("MyEnum", v) else PyObject(v)
  }

  /** The enum cases of the default-value tests. */
  lemma EnumDefaultExamples()
    ensures ManageDefaultValue("A", MyEnum(), MyEnumFromString) == Source("MyEnum.A")
    ensures ManageDefaultValue("None_", MyEnum(), MyEnumFromString) == Source("MyEnum.None_")
    ensures ManageDefaultValue("None", MyEnum(), MyEnumFromString) == Source("MyEnum.None_")
  {
    assert !Adapter.IsKeyword("A") && !Adapter.IsKeyword("None_");
    EnumLiteralDefault("A", "A");
    EnumLiteralDefault("None_", "None_");
    Adapter.KeywordGetsOneUnderscore("None");
    assert "None" + "_" == "None_";
    EnumLiteralDefault("None", "None_");
  }

  lemma EnumLiteralDefault(literal: string, name: string)
    requires Adapter.Sanitize(literal) == name && name in ["None_", "A", "B"]
    ensures ManageDefaultValue(literal, MyEnum(), MyEnumFromString) == Source("MyEnum." + name)
  {
    assert "MyEnum" + "." + name == "MyEnum." + name;
  }

  /** A character `repr` writes as it is inside single quotes. */
  predicate PlainChar(c: char) {
    c != '\'' && c != '"' && c != '\\' && ' ' <= c && c as int != 0x7f
  }

  lemma {:induction false} EscapePlain(s: string, q: char)
    requires q == '\'' && forall i :: 0 <= i < |s| ==> PlainChar(s[i])
    ensures EscapeAll(s, q) == s
  {
    if s != [] {
      EscapePlain(s[1..], q);
      assert [s[0]] + s[1..] == s;
    }
  }

  /** A string of plain characters is written between single quotes unchanged. */
  lemma ReprPlain(s: string)
    requires forall i :: 0 <= i < |s| ==> PlainChar(s[i])
    ensures PyRepr(s) == "'" + s + "'"
  {
    assert '\'' !in s by {
      assert forall i :: 0 <= i < |s| ==> s[i] != '\'';
    }
    EscapePlain(s, '\'');
  }

  /** `from_string` of `EString` returns the literal itself; that of `EInt` a number printed as the literal. */
  function EStringFromString(v: string): Parsed {
    PyString(v)
  }

  function EIntFromString(v: string): Parsed {
    PyObject(v)
  }

  lemma ReprExample()
    ensures PyRepr("str_val") == "'str_val'"
  {
    var s := "str_val";
    assert forall i :: 0 <= i < |s| ==> PlainChar(s[i]);
    ReprPlain(s);
  }

  /** An `EString` default `str_val` renders as the quoted `'str_val'`. */
  lemma StringDefaultExample()
    ensures ManageDefaultValue("str_val", Classifier("EString", EDataType, None, [], [], [], []), EStringFromString)
      == Source("'str_val'")
  {
    ReprExample();
    NotKindOfDeeper(EDataType, EEnum);
    OtherDefaultsNotSanitized("str_val", Classifier("EString", EDataType, None, [], [], [], []), EStringFromString);
  }

  /** An `EInt` default `123456` comes back as the number itself. */
  lemma IntDefaultExample()
    ensures ManageDefaultValue("123456", Classifier("EInt", EDataType, None, [], [], [], []), EIntFromString)
      == Unchanged(PyObject("123456"))
  {
    NotKindOfDeeper(EDataType, EEnum);
  }

  /** `str(v)` of what `manage_default_value` returns, as `'{}'.format` writes it into a qualifier. */
  function DefaultText(d: DefaultValue): string
    requires d.Unchanged? ==> d.obj.PyObject?
  {
    match d
    case Source(t) => t
    case Unchanged(o) => o.text
  }

  /** `qualifiers.update(...)` under a condition: the entry when `present`, nothing otherwise. */
  function Optional(present: bool, q: Qualifier): seq<Qualifier> {
    if present then [q] else []
  }

  /** `if value.defaultValueLiteral:` -- a default literal that is neither `None` nor empty. */
  predicate HasDefault(a: Attribute) {
    a.defaultValueLiteral.Some? && a.defaultValueLiteral.value != ""
  }

  /**
   * The qualifier dictionary of `filter_attrqualifiers` for attribute `a`,
   * whose type is named `typeName`; `default` is `manage_default_value` of it.
   */
  function AttrQualifiers(a: Attribute, typeName: string, default: DefaultValue): (qs: seq<Qualifier>)
    requires default.Unchanged? ==> default.obj.PyObject?
    ensures |qs| >= 3
    ensures qs[..3] == [Qualifier("eType", typeName),
                        Qualifier("derived", BoolText(a.derived)),
                        Qualifier("changeable", BoolText(a.changeable))]
  {
    [Qualifier("eType", typeName),
     Qualifier("derived", BoolText(a.derived)),
     Qualifier("changeable", BoolText(a.changeable))] +
    Optional(a.iD, Qualifier("iD", BoolText(a.iD))) +
    Optional(a.many, Qualifier("upper", "-1")) +
    Optional(a.derived, Qualifier("name", PyRepr(a.name))) +
    Optional(HasDefault(a), Qualifier("default_value", DefaultText(default)))
  }

  /** The keys of a qualifier list, in order. */
  function Keys(qs: seq<Qualifier>): seq<string> {
    if qs == [] then [] else [qs[0].key] + Keys(qs[1..])
  }

  lemma {:induction false} KeysConcat(a: seq<Qualifier>, b: seq<Qualifier>)
    ensures Keys(a + b) == Keys(a) + Keys(b)
  {
    if a == [] {
      assert a + b == b;
    } else {
      assert (a + b)[1..] == a[1..] + b;
      KeysConcat(a[1..], b);
    }
  }

  lemma KeysOptional(present: bool, q: Qualifier)
    ensures Keys(Optional(present, q)) == if present then [q.key] else []
  {
    assert [q][1..] == [];
  }

  lemma OptionalReadable(present: bool, q: Qualifier)
    requires Readable(q)
    ensures AllReadable(Optional(present, q))
  {
  }

  /**
   * Past the first three entries come `iD`, `upper`, `name` and
   * `default_value`, in that order, each exactly when the attribute is an id,
   * many-valued, derived and has a default literal.
   */
  lemma AttrQualifiersKeys(a: Attribute, typeName: string, default: DefaultValue)
    requires default.Unchanged? ==> default.obj.PyObject?
    ensures Keys(AttrQualifiers(a, typeName, default)) ==
      ["eType", "derived", "changeable"] + (if a.iD then ["iD"] else []) + (if a.many then ["upper"] else []) +
      (if a.derived then ["name"] else []) + (if HasDefault(a) then ["default_value"] else [])
  {
    var base := [Qualifier("eType", typeName),
                 Qualifier("derived", BoolText(a.derived)),
                 Qualifier("changeable", BoolText(a.changeable))];
    var id := Optional(a.iD, Qualifier("iD", BoolText(a.iD)));
    var upper := Optional(a.many, Qualifier("upper", "-1"));
    var name := Optional(a.derived, Qualifier("name", PyRepr(a.name)));
    var dv := Optional(HasDefault(a), Qualifier("default_value", DefaultText(default)));
    assert Keys(base) == ["eType", "derived", "changeable"] by {
      assert base[1..] == base[1..2] + base[2..];
      KeysOptional(true, base[1]);
      KeysOptional(true, base[2]);
      KeysConcat(base[1..2], base[2..]);
    }
    KeysOptional(a.iD, Qualifier("iD", BoolText(a.iD)));
    KeysOptional(a.many, Qualifier("upper", "-1"));
    KeysOptional(a.derived, Qualifier("name", PyRepr(a.name)));
    KeysOptional(HasDefault(a), Qualifier("default_value", DefaultText(default)));
    KeysConcat(base, id);
    KeysConcat(base + id, upper);
    KeysConcat(base + id + upper, name);
    KeysConcat(base + id + upper + name, dv);
  }

  /** Each optional entry that is present carries the value `filter_attrqualifiers` writes. */
  lemma AttrQualifiersValues(a: Attribute, typeName: string, default: DefaultValue)
    requires default.Unchanged? ==> default.obj.PyObject?
    ensures var qs := AttrQualifiers(a, typeName, default);
      && (a.iD ==> Qualifier("iD", "True") in qs)
      && (a.many ==> Qualifier("upper", "-1") in qs)
      && (a.derived ==> Qualifier("name", PyRepr(a.name)) in qs)
      && (HasDefault(a) ==> Qualifier("default_value", DefaultText(default)) in qs)
  {
  }

  /**
   * The rendered attribute qualifiers read back as the dictionary, entry by
   * entry and in order, when no name or value written holds a comma and the
   * type name holds no `=`.
   */
  lemma AttrQualifiersReadBack(a: Attribute, typeName: string, default: DefaultValue)
    requires default.Unchanged? ==> default.obj.PyObject?
    ensures '=' !in typeName && ',' !in typeName && ',' !in PyRepr(a.name) && ',' !in DefaultText(default) ==>
      ReadQualifiers(RenderQualifiers(AttrQualifiers(a, typeName, default))) == Some(AttrQualifiers(a, typeName, default))
  {
    if '=' !in typeName && ',' !in typeName && ',' !in PyRepr(a.name) && ',' !in DefaultText(default) {
      var base := [Qualifier("eType", typeName),
                   Qualifier("derived", BoolText(a.derived)),
                   Qualifier("changeable", BoolText(a.changeable))];
      FlagReadable("derived", a.derived);
      FlagReadable("changeable", a.changeable);
      FlagReadable("iD", a.iD);
      assert AllReadable(base) by {
        assert Readable(base[0]);
      }
      var id := Optional(a.iD, Qualifier("iD", BoolText(a.iD)));
      var upper := Optional(a.many, Qualifier("upper", "-1"));
      var name := Optional(a.derived, Qualifier("name", PyRepr(a.name)));
      var dv := Optional(HasDefault(a), Qualifier("default_value", DefaultText(default)));
      OptionalReadable(a.iD, Qualifier("iD", BoolText(a.iD)));
      OptionalReadable(a.many, Qualifier("upper", "-1"));
      OptionalReadable(a.derived, Qualifier("name", PyRepr(a.name)));
      assert '=' !in "default_value" && ',' !in "default_value";
      OptionalReadable(HasDefault(a), Qualifier("default_value", DefaultText(default)));
      ReadableConcat(base, id);
      ReadableConcat(base + id, upper);
      ReadableConcat(base + id + upper, name);
      ReadableConcat(base + id + upper + name, dv);
      QualifiersRoundTrip(AttrQualifiers(a, typeName, default));
    }
  }

  /**
   * `filter_attrqualifiers` for attribute `a` of model `m`: when no name or
   * value written holds a comma and the type's name holds no `=`, it reads
   * back as the attribute's qualifier dictionary.
   */
  function FilterAttrqualifiers(m: Model, a: Attribute, fromString: string -> Parsed): (r: string)
    requires a.eType in m.classifiers
    ensures var t := m.classifiers[a.eType];
      var default := if a.defaultValueLiteral.Some? then ManageDefaultValue(a.defaultValueLiteral.value, t, fromString) else Source("");
      '=' !in t.name && ',' !in t.name && ',' !in PyRepr(a.name) && ',' !in DefaultText(default) ==>
        ReadQualifiers(r) == Some(AttrQualifiers(a, t.name, default))
  {
    var t := m.classifiers[a.eType];
    var default := if a.defaultValueLiteral.Some? then ManageDefaultValue(a.defaultValueLiteral.value, t, fromString) else Source("");
    AttrQualifiersReadBack(a, t.name, default);
    RenderQualifiers(AttrQualifiers(a, t.name, default))
  }

  /** `module_path_map`: Ecore's own package lives in pyecore. */
  const ModulePathMap: map<string, string> := map["ecore" := "pyecore.ecore"]

  function MapModulePath(fqn: string): (r: string)
    ensures fqn == "ecore" ==> r == "pyecore.ecore"
    ensures fqn != "ecore" ==> r == fqn
  {
    if fqn in ModulePathMap then ModulePathMap[fqn] else fqn
  }

  const RangeError: string := "relative_to not in range of number of packages"

  /**
   * `filter_pyfqn` for a package whose names from the root down are `names`:
   * the names from index `relativeTo` on, joined by dots, with a leading dot
   * when `relativeTo` is positive, and mapped through the module path map; a
   * `relativeTo` outside `0..|names|` is a ValueError.
   */
  function Pyfqn(names: seq<string>, relativeTo: int): (r: Result<string, string>)
    ensures r.Failure? <==> relativeTo < 0 || relativeTo > |names|
    ensures r.Failure? ==> r.error == RangeError
  {
    if relativeTo < 0 || relativeTo > |names| then Failure(RangeError)
    else
      var fqn := Join(".", names[relativeTo..]);
      Success(MapModulePath(if relativeTo != 0 then "." + fqn else fqn))
  }

  /** `collect_packages`: appends the names from the root down to `p` to `packages`. */
  method CollectPackages(m: Model, p: PackageId, packages: seq<string>) returns (r: seq<string>)
    requires ParentsValid(m) && p in m.packages
    ensures r == packages + NameChain(m, p)
    decreases m.packages[p].depth
  {
    r := packages;
    var parent := Parent(m, p);
    if parent.Some? {
      r := CollectPackages(m, parent.value, r);
    }
    r := r + [m.packages[p].name];
  }

  /** `filter_pyfqn(p, relative_to)`. */
  method FilterPyfqn(m: Model, p: PackageId, relativeTo: int) returns (r: Result<string, string>)
    requires ParentsValid(m) && p in m.packages
    ensures r == Pyfqn(NameChain(m, p), relativeTo)
  {
    var packages := CollectPackages(m, p, []);
    assert packages == NameChain(m, p);
    if relativeTo < 0 || relativeTo > |packages| {
      return Failure(RangeError);
    }
    var fqn := Join(".", packages[relativeTo..]);
    if relativeTo != 0 {
      fqn := "." + fqn;
    }
    r := Success(MapModulePath(fqn));
  }

  /** A package name that is one segment of a dotted module path. */
  predicate ModuleName(s: string) {
    s != "" && '.' !in s
  }

  /**
   * The absolute name of a package that is not Ecore's own root splits at its
   * dots into the package names from the root down.
   */
  lemma PyfqnAbsoluteSplits(names: seq<string>)
    requires |names| >= 1 && names != ["ecore"]
    requires forall i :: 0 <= i < |names| ==> ModuleName(names[i])
    ensures var r := Pyfqn(names, 0);
      r.Success? && Split(r.value, '.') == names
  {
    assert names[0..] == names;
    var fqn := Join(".", names);
    if |names| >= 2 {
      JoinOfSeveralHasDot(names);
      assert '.' !in "ecore";
    }
    assert fqn != "ecore";
    SplitJoin(names, '.');
  }

  /** A join of two or more names holds the separator. */
  lemma JoinOfSeveralHasDot(names: seq<string>)
    requires |names| >= 2
    ensures '.' in Join(".", names)
  {
    var j := Join(".", names);
    assert j[|names[0]|] == '.';
  }

  /**
   * A name relative to the first `n` packages is a dot followed by the
   * remaining names split at dots; relative to all of them it is `.` alone.
   */
  lemma PyfqnRelativeSplits(names: seq<string>, n: int)
    requires 0 < n <= |names|
    requires forall i :: 0 <= i < |names| ==> ModuleName(names[i])
    ensures var r := Pyfqn(names, n);
      && r.Success? && |r.value| >= 1 && r.value[0] == '.'
      && (n == |names| ==> r.value == ".")
      && (n < |names| ==> Split(r.value[1..], '.') == names[n..])
  {
    var fqn := "." + Join(".", names[n..]);
    assert fqn != "ecore" by {
      assert fqn[0] == '.';
    }
    assert fqn[1..] == Join(".", names[n..]);
    if n < |names| {
      SplitJoin(names[n..], '.');
    }
  }

  /** Ecore's own root package is named by its pyecore module, and relative to itself by `.`. */
  lemma PyfqnEcoreExample()
    ensures Pyfqn(["ecore"], 0) == Success("pyecore.ecore")
    ensures Pyfqn(["ecore"], 1) == Success(".")
  {
    assert ["ecore"][0..] == ["ecore"];
    assert ["ecore"][1..] == [];
    assert "." + "" == ".";
    assert "." !in ModulePathMap;
  }

  /** The dotted names of `pkg3` inside `pkg2` inside `pkg1`, as the tests take them. */
  lemma PyfqnExamples()
    ensures Pyfqn(["pkg1", "pkg2", "pkg3"], 0) == Success("pkg1.pkg2.pkg3")
    ensures Pyfqn(["pkg1", "pkg2", "pkg3"], 1) == Success(".pkg2.pkg3")
    ensures Pyfqn(["pkg1", "pkg2", "pkg3"], 2) == Success(".pkg3")
    ensures Pyfqn(["pkg1", "pkg2", "pkg3"], 3) == Success(".")
    ensures Pyfqn(["pkg1", "pkg2", "pkg3"], 4).Failure?
  {
    var names := ["pkg1", "pkg2", "pkg3"];
    assert names[0..] == names;
    assert names[1..] == ["pkg2", "pkg3"];
    assert names[2..] == ["pkg3"];
    assert names[3..] == [];
    assert Join(".", names) == "pkg1.pkg2.pkg3";
    assert Join(".", names[1..]) == "pkg2.pkg3";
    assert Join(".", names[2..]) == "pkg3";
    assert Join(".", names[3..]) == "";
    assert "." + "pkg2.pkg3" == ".pkg2.pkg3";
    assert "." + "pkg3" == ".pkg3";
    assert "." + "" == ".";
    assert "pkg1.pkg2.pkg3" !in ModulePathMap;
    assert ".pkg2.pkg3" !in ModulePathMap;
    assert ".pkg3" !in ModulePathMap;
    assert "." !in ModulePathMap;
  }
}
