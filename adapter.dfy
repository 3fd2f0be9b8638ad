/**
 * The identifier sanitizer and the `pythonic_names` scope of pyecoregen's
 * adapter: while the scope is active, every read of the `name` attribute of a
 * named model element yields the name with `_` appended for as long as it is a
 * Python keyword; all other reads are unaffected, and leaving the scope puts
 * the previous accessor back.
 */
module Adapter {
  import opened Wrappers

  /**
   * The reserved words of Python 3.7 and later (`keyword.kwlist`); `async`
   * and `await` are among them from 3.7 on.
   */
  const Keywords: set<string> := {
    "False", "None", "True", "and", "as", "assert", "async", "await",
    "break", "class", "continue", "def", "del", "elif", "else", "except",
    "finally", "for", "from", "global", "if", "import", "in", "is",
    "lambda", "nonlocal", "not", "or", "pass", "raise", "return", "try",
    "while", "with", "yield"
  }

  /** No keyword is longer than this ("continue", "nonlocal"). */
  const MaxKeywordLength: nat := 8

  /** `keyword.iskeyword(s)` for a string `s`. */
  predicate IsKeyword(s: string) {
    s in Keywords
  }

  lemma KeywordsAreShort(s: string)
    requires IsKeyword(s)
    ensures |s| <= MaxKeywordLength
  {
  }

  function Underscores(n: nat): (r: string)
    ensures |r| == n && forall i :: 0 <= i < n ==> r[i] == '_'
  {
    seq(n, _ => '_')
  }

  /**
   * The name with `_` appended while it is a keyword. It is never a keyword,
   * it extends its argument by underscores only, and a name that is not a
   * keyword comes back unchanged.
   */
  function Sanitize(s: string): (r: string)
    ensures !IsKeyword(r)
    ensures |s| <= |r| && r == s + Underscores(|r| - |s|)
    ensures !IsKeyword(s) ==> r == s
    decreases MaxKeywordLength - |s|
  {
    if IsKeyword(s) then Sanitize(s + "_") else s
  }

  /** Sanitize stops at the first candidate `s`, `s_`, `s__`, ... that is not a keyword. */
  lemma {:induction false} SanitizeAppendsFewestUnderscores(s: string, k: nat)
    requires k < |Sanitize(s)| - |s|
    ensures IsKeyword(s + Underscores(k))
    decreases k
  {
    if k == 0 {
      assert s + Underscores(0) == s;
    } else {
      var t := s + "_";
      assert Sanitize(s) == Sanitize(t) && |t| == |s| + 1;
      SanitizeAppendsFewestUnderscores(t, k - 1);
      assert t + Underscores(k - 1) == s + Underscores(k);
    }
  }

  /** Sanitizing a sanitized name changes nothing. */
  lemma SanitizeIdempotent(s: string)
    ensures Sanitize(Sanitize(s)) == Sanitize(s)
  {
  }

  /** With Python's keyword list one underscore always suffices: no keyword ends in `_`. */
  lemma SanitizeAppendsAtMostOne(s: string)
    ensures Sanitize(s) == s || Sanitize(s) == s + "_"
  {
    if IsKeyword(s) {
      var t := s + "_";
      assert t[|t| - 1] == '_';
      assert !IsKeyword(t);
    }
  }

  /** `pass` and `else` gain one underscore; `MyClass` and `att` are kept. */
  lemma SanitizeExamples()
    ensures Sanitize("pass") == "pass_" && Sanitize("else") == "else_"
    ensures Sanitize("MyClass") == "MyClass" && Sanitize("att") == "att"
  {
    KeywordGetsOneUnderscore("pass");
    assert "pass" + "_" == "pass_";
    KeywordGetsOneUnderscore("else");
    assert "else" + "_" == "else_";
    assert !IsKeyword("MyClass") && !IsKeyword("att");
  }

  lemma KeywordGetsOneUnderscore(s: string)
    requires IsKeyword(s)
    ensures Sanitize(s) == s + "_"
  {
    SanitizeAppendsAtMostOne(s);
  }

  /** The loop `while keyword.iskeyword(value): value += '_'`. */
  method FixNameClash(name: string) returns (value: string)
    ensures value == Sanitize(name)
  {
    value := name;
    while IsKeyword(value)
      invariant Sanitize(value) == Sanitize(name)
      decreases MaxKeywordLength - |value|
    {
      KeywordsAreShort(value);
      value := value + "_";
    }
  }

  /** An attribute value as `__getattribute__` returns it: a string or some other object. */
  datatype Value = Str(s: string) | Object(id: nat)

  /** A named model element, seen through its attribute values. */
  datatype NamedElement = NamedElement(attributes: map<string, Value>)

  /**
   * A function installed as `ENamedElement.__getattribute__`: the one in place
   * before any scope, or the `get_attribute` closure of a `pythonic_names`
   * scope around the accessor that scope saved.
   */
  datatype Accessor = Original | PythonicNames(saved: Accessor)

  /** `keyword.iskeyword` is false for anything that is not a string. */
  function SanitizeValue(v: Value): Value {
    if v.Str? then Str(Sanitize(v.s)) else v
  }

  /** What `acc(e, attr)` returns; `None` stands for the AttributeError of a missing attribute. */
  function Read(acc: Accessor, e: NamedElement, attr: string): (r: Option<Value>)
    ensures r.None? <==> attr !in e.attributes
    ensures r.Some? && attr != "name" ==> r.value == e.attributes[attr]
    ensures acc.PythonicNames? && attr == "name" && r.Some? && r.value.Str? ==> !IsKeyword(r.value.s)
  {
    match acc
    case Original => if attr in e.attributes then Some(e.attributes[attr]) else None
    case PythonicNames(saved) =>
      var v := Read(saved, e, attr);
      if attr == "name" && v.Some? then Some(SanitizeValue(v.value)) else v
  }

  /**
   * Through a scope, a `name` read is the inner read with its string sanitized:
   * a keyword gets its trailing underscores, any other name is returned as it is,
   * and a non-string value or a missing name passes through.
   */
  lemma ScopedNameSanitized(acc: Accessor, e: NamedElement)
    ensures var inner := Read(acc, e, "name");
      inner.Some? && inner.value.Str? ==> Read(PythonicNames(acc), e, "name") == Some(Str(Sanitize(inner.value.s)))
    ensures var inner := Read(acc, e, "name");
      inner.Some? && inner.value.Str? && !IsKeyword(inner.value.s) ==> Read(PythonicNames(acc), e, "name") == inner
    ensures var inner := Read(acc, e, "name");
      !(inner.Some? && inner.value.Str?) ==> Read(PythonicNames(acc), e, "name") == inner
  {
  }

  /** `n` nested `pythonic_names` scopes around `acc`. */
  function Wrap(acc: Accessor, n: nat): (r: Accessor)
    ensures n > 0 ==> r.PythonicNames? && Wraps(r, acc)
  {
    if n == 0 then acc else PythonicNames(Wrap(acc, n - 1))
  }

  /** Reads of any attribute other than `name` are untouched by any number of scopes. */
  lemma {:induction false} OtherAttributesUnaffected(acc: Accessor, n: nat, e: NamedElement, attr: string)
    requires attr != "name"
    ensures Read(Wrap(acc, n), e, attr) == Read(acc, e, attr)
  {
    if n > 0 {
      OtherAttributesUnaffected(acc, n - 1, e, attr);
    }
  }

  /**
   * Inside one or more scopes a `name` read is the sanitized original name,
   * the same as through a single scope, and a string result is never a keyword.
   */
  lemma {:induction false} NestedScopesReadAsOne(acc: Accessor, n: nat, e: NamedElement)
    requires n >= 1
    ensures Read(Wrap(acc, n), e, "name") == Read(PythonicNames(acc), e, "name")
    ensures var v := Read(Wrap(acc, n), e, "name"); v.Some? && v.value.Str? ==> !IsKeyword(v.value.s)
  {
    if n > 1 {
      NestedScopesReadAsOne(acc, n - 1, e);
      var v := Read(acc, e, "name");
      if v.Some? && v.value.Str? {
        SanitizeIdempotent(v.value.s);
      }
    }
  }

  /** `acc` is `base` inside one or more `pythonic_names` scopes. */
  predicate Wraps(acc: Accessor, base: Accessor) {
    acc.PythonicNames? && (acc.saved == base || Wraps(acc.saved, base))
  }

  /** Scopes opened inside a scope around `base` are scopes around `base`. */
  lemma {:induction false} WrapsInner(acc: Accessor, base: Accessor)
    requires Wraps(acc, PythonicNames(base))
    ensures Wraps(acc, base)
  {
    if acc.saved != PythonicNames(base) {
      WrapsInner(acc.saved, base);
    }
  }

  /** However many scopes surround `base`, every attribute reads as through a single one. */
  lemma {:induction false} WrappedReadsAsOne(acc: Accessor, base: Accessor, e: NamedElement, attr: string)
    requires Wraps(acc, base)
    ensures Read(acc, e, attr) == Read(PythonicNames(base), e, attr)
  {
    if acc.saved != base {
      WrappedReadsAsOne(acc.saved, base, e, attr);
      var v := Read(base, e, attr);
      if attr == "name" && v.Some? && v.value.Str? {
        SanitizeIdempotent(v.value.s);
      }
    }
  }

  /** Calls the accessor function `acc` for attribute `attr` of `e`. */
  method Invoke(acc: Accessor, e: NamedElement, attr: string) returns (v: Option<Value>)
    ensures v == Read(acc, e, attr)
  {
    match acc {
      case Original =>
        v := if attr in e.attributes then Some(e.attributes[attr]) else None;
      case PythonicNames(saved) =>
        v := Invoke(saved, e, attr);
        if attr == "name" && v.Some? && v.value.Str? {
          var s := FixNameClash(v.value.s);
          v := Some(Str(s));
        }
    }
  }

  /**
   * The class attribute `ENamedElement.__getattribute__`, together with the
   * `original_get_attribute` that each active `pythonic_names` scope saved,
   * outermost scope first.
   */
  class NameAccess {
    var getAttribute: Accessor
    var saved: seq<Accessor>

    /** The accessor that is installed again once every active scope has exited. */
    ghost function Restored(): Accessor
      reads this
    {
      if saved == [] then getAttribute else saved[0]
    }

    /** Every active scope wraps the accessor the next-outer scope installed. */
    ghost predicate Valid()
      reads this
    {
      && getAttribute == Wrap(Restored(), |saved|)
      && forall i :: 0 <= i < |saved| ==> saved[i] == Wrap(Restored(), i)
    }

    constructor (current: Accessor)
      ensures Valid() && getAttribute == current && saved == []
    {
      getAttribute := current;
      saved := [];
    }

    /** Entering `pythonic_names`: save the current accessor and install the sanitizing one. */
    method Enter()
      requires Valid()
      modifies this
      ensures Valid() && Restored() == old(Restored())
      ensures saved == old(saved) + [old(getAttribute)]
      ensures getAttribute == PythonicNames(old(getAttribute))
    {
      saved := saved + [getAttribute];
      getAttribute := PythonicNames(getAttribute);
    }

    /** Leaving `pythonic_names` normally: reinstate the accessor the innermost scope saved. */
    method Exit()
      requires Valid() && saved != []
      modifies this
      ensures Valid() && Restored() == old(Restored())
      ensures getAttribute == old(saved[|saved| - 1]) && saved == old(saved[..|saved| - 1])
      ensures saved == [] ==> getAttribute == old(Restored())
    {
      getAttribute := saved[|saved| - 1];
      saved := saved[..|saved| - 1];
    }

    /** `e.<attr>`: the read goes through the installed accessor. */
    method GetAttribute(e: NamedElement, attr: string) returns (v: Option<Value>)
      ensures v == Read(getAttribute, e, attr)
    {
      v := Invoke(getAttribute, e, attr);
    }
  }

  /**
   * A class named `pass` reads as `pass_` inside the scope and as `pass` before
   * and after it; an element named `MyClass` reads the same throughout.
   */
  method ScopeRoundTrip() returns (before: Option<Value>, inside: Option<Value>, after: Option<Value>, plain: Option<Value>)
    ensures before == Some(Str("pass")) && inside == Some(Str("pass_")) && after == before
    ensures plain == Some(Str("MyClass"))
  {
    var access := new NameAccess(Original);
    var c1 := NamedElement(map["name" := Str("MyClass")]);
    var c2 := NamedElement(map["name" := Str("pass")]);
    before := access.GetAttribute(c2, "name");
    SanitizeExamples();
    access.Enter();
    inside := access.GetAttribute(c2, "name");
    plain := access.GetAttribute(c1, "name");
    access.Exit();
    after := access.GetAttribute(c2, "name");
  }
}
