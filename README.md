# pyecoregen core, modelled in Dafny

pyecoregen generates static Python classes from Ecore metamodels loaded with
pyecore. This project models its two core files:

- `pyecoregen/ecore.py`. This covers several parts of the generator:
  - The generation tasks. This includes which elements a task iterates over and the path of the file it writes for a package.
  - The classifiers a package's `__init__.py` and module must import.
  - The order in which a module defines its classes.
  - The Jinja tests and filters `EcoreGenerator` registers: exact type and kind, opposite-before-self, docstring line, supertypes, single quoting, reference and attribute qualifiers, default values, and dotted package names.
  - The task list `EcoreGenerator.__init__` builds.
  - `generate`, which recurses into the other resources of a model's resource set and shares one `exclude` set across the nested calls.
- `pyecoregen/adapter.py`: the `pythonic_names` scope. While it is active, reading `name` of a named element gives the name with underscores appended until it is no Python keyword. The scope saves the accessor in effect on entry and reinstates it on exit.

Modules:

- `Wrappers`: Option and Result.
- `Text`: `str.join`, `str.split`, `posixpath.join` and Python's `repr` of a string, with a reader for each where the model needs one.
- `Metamodel`: the part of pyecore's object graph the generator reads. This is the metaclass of every object, packages with their parent and classifiers, and classifiers with their package, supertypes, references and attributes.
- `Adapter`: the keyword sanitizer, attribute accessors, and the class `NameAccess`. `NameAccess` holds the process-wide `ENamedElement.__getattribute__` slot and the accessors the active scopes saved.
- `Tasks`: `filtered_elements`, the path functions, the two import maps and `classes`.
- `Filters`: the Jinja tests and filters, `manage_default_value` and `filter_pyfqn`.
- `Generator`: the class `EcoreGenerator` with its task list and `generate`.

How some parts are represented:

- Emitting code (multigen's `generate`: running the tasks, rendering and writing files) is one entry appended to the generator's log. The entry records the model, the output folder, the tasks and the name accessor in effect.
- The loops of the source are methods with loop invariants:
  - the `setdefault(...).add(...)` grouping loop;
  - the sanitizer loop;
  - the loop over the dependency snapshot in `generate`.
- The recursive procedures that append to a list or recurse through `generate` are recursive methods: `collect_packages` and `generate` itself.
- Each of these methods is proved equal to a specification function, or to preserve a predicate. The properties are proved about those functions.

## Model

| member | source | states |
|---|---|---|
| Metamodel.Mro | pyecoregen/ecore.py:174-179 | the Ecore part of a metaclass's method resolution order starts with the class itself, reaches down to `EObject`, and has one entry per level of the hierarchy |
| Metamodel.IsKindOfMro | pyecoregen/ecore.py:174-179 | `isinstance` by walking base classes holds exactly when the type is in the class's method resolution order |
| Metamodel.IsKindOfTransitive | pyecoregen/ecore.py:174-179 | an instance of a class is an instance of each of that class's bases |
| Metamodel.NotKindOfDeeper | pyecoregen/ecore.py:174-179 | a class is never an instance of a different class at least as deep in the hierarchy |
| Filters.TestType | pyecoregen/ecore.py:169-172 | an object that passes the exact-type test for a type also passes the kind test for it |
| Filters.TestKind | pyecoregen/ecore.py:174-179 | the kind test holds exactly when the type is in the method resolution order of the object's class |
| Filters.TypeIsKind | pyecoregen/ecore.py:169-179 | an object whose class is exactly `t` passes the kind test for `t` and for every base of `t` |
| Filters.TypeAndKindDiffer | pyecoregen/ecore.py:169-179 | an `EEnum` is of kind `EDataType` but not of type `EDataType`, so the two tests differ |
| Tasks.Select | pyecoregen/ecore.py:27 | the selection of `eAllContents()` by type is no longer than its input, and every kept element is an instance of the type |
| Tasks.SelectCounts | pyecoregen/ecore.py:27 | each instance of the type is kept exactly as often as it occurs, and nothing else is kept |
| Tasks.SelectConcat | pyecoregen/ecore.py:27 | the selection keeps the input's order: selecting from a concatenation is the concatenation of the selections |
| Tasks.SelectSingle | pyecoregen/ecore.py:27 | a single element is kept exactly when it is an instance of the type |
| Tasks.SelectKeepsMembers | pyecoregen/ecore.py:27 | every element the selection keeps is one of the input elements and an instance of the type |
| Tasks.FilteredElementsKinds | pyecoregen/ecore.py:23-27 | at most one element more than the contents is yielded, and each is an instance of the type and is the root or one of its contents |
| Tasks.FilteredElementsExactlyOnce | pyecoregen/ecore.py:23-27 | with the root not among its distinct descendants, every instance of the type in the tree is yielded exactly once and nothing else is |
| Tasks.FilteredRootFirst | pyecoregen/ecore.py:25-26 | the root is yielded first exactly when it is an instance of the type |
| Tasks.FilteredPackagesExample | tests/test_ecore.py:31-32 | on the test tree, selecting `EPackage` yields the root package and `SubPackage` |
| Tasks.FilteredClassesExample | tests/test_ecore.py:34-35 | on the test tree, selecting `EClass` yields `Class1` and `Class2` |
| Tasks.FilteredEnumsExample | tests/test_ecore.py:37-38 | on the test tree, selecting `EEnum` yields `MyEnum` alone |
| Tasks.PathsEndWithNames | pyecoregen/ecore.py:30-45 | a package's folder ends with the package's name, and a task's path ends with the task's file name |
| Text.PathJoinParts | pyecoregen/ecore.py:34 | `os.path.join` ends with its second part; an absolute second part is the whole join, and a relative one comes after the first part |
| Tasks.FolderPathJoinsNames | pyecoregen/ecore.py:30-35 | with plain names, a package's folder is the package names from the root down joined by `/` |
| Tasks.FolderPathSegments | pyecoregen/ecore.py:30-35 | with plain names, splitting a package's folder at `/` gives back the package names from the root down |
| Tasks.Filename | pyecoregen/ecore.py:54-56 | the module and mixin file names start with the package name; the init and module files end in `.py` and the mixin file in `.skeleton` (also lines 110-112 and 126-128) |
| Tasks.FilenamePlain | pyecoregen/ecore.py:54-56 | the file name of every task is a plain path segment whenever the package name is |
| Tasks.RelativePathSegments | pyecoregen/ecore.py:42-45 | with plain names, a task's file path splits into the package names from the root down followed by the task's file name |
| Tasks.FilenamesDiffer | pyecoregen/ecore.py:54-56 | two different tasks write different files for one package, except the init file and the module of a package named `__init__` (also lines 110-112 and 126-128) |
| Tasks.PathExamples | tests/test_ecore.py:51-58 | `pkg3` in `pkg2` in `pkg1` gets `pkg1/pkg2/pkg3/__init__.py` and `pkg1/pkg2/pkg3/pkg3.py` |
| Tasks.GroupByOwner | pyecoregen/ecore.py:67-69 | the `setdefault(...).add(...)` loop puts each classifier in the group of its own package and in no other, and leaves no group empty |
| Tasks.ReferenceImports | pyecoregen/ecore.py:61-65 | every imported classifier is loaded and is not owned by the package itself |
| Tasks.ReferenceImportsMeaning | pyecoregen/ecore.py:61-65 | a classifier is imported into `__init__.py` exactly when it is the type of a reference (inherited ones included) of a class of the package and another package, or none, owns it |
| Tasks.InitImportsComputed | pyecoregen/ecore.py:61-65 | the computed reference imports equal the set the `__init__.py` must import |
| Tasks.ImportedClassifiersPackage | pyecoregen/ecore.py:58-71 | the result groups exactly the `__init__.py` imports by owning package and has no group keyed by the package itself |
| Tasks.NoOwnGroup | pyecoregen/ecore.py:65 | a grouping of classifiers that the package does not own has no group keyed by that package |
| Tasks.SuperTypeImports | pyecoregen/ecore.py:89-92 | every supertype import is loaded and is not owned by the package itself |
| Tasks.SuperTypeImportsMeaning | pyecoregen/ecore.py:89-92 | a classifier is a supertype import exactly when it is among the supertypes (direct or inherited) of a class of the package and another package, or none, owns it |
| Tasks.AttributeTypeImports | pyecoregen/ecore.py:94-96 | every attribute-type import is loaded and is owned by a package other than this one and Ecore's own |
| Tasks.AttributeTypeImportsMeaning | pyecoregen/ecore.py:94-96 | a classifier is an attribute-type import exactly when it types an attribute of a class of the package and is owned by a package other than this one and Ecore's own |
| Tasks.ModuleImportsComputed | pyecoregen/ecore.py:89-96 | the union of the computed supertype and attribute-type imports equals the set the module must import |
| Tasks.ImportedClassifiers | pyecoregen/ecore.py:86-102 | the result groups exactly the module's imports by owning package and has no group keyed by the package itself |
| Tasks.EClassesIn | pyecoregen/ecore.py:107 | a classifier is kept exactly when it is listed and is an `EClass` |
| Tasks.EClassesInCounts | pyecoregen/ecore.py:107 | each class is kept as often as it is listed, and nothing else is kept |
| Tasks.SuperTypeCount | pyecoregen/ecore.py:108 | the sort key of a class is zero exactly when the class has no supertypes |
| Tasks.Insert | pyecoregen/ecore.py:108 | inserting adds exactly the one element to the multiset |
| Tasks.InsertSorted | pyecoregen/ecore.py:108 | inserting into a sequence sorted by supertype count keeps it sorted |
| Tasks.PrependSorted | pyecoregen/ecore.py:108 | prepending an element whose key is at most the first key keeps a sorted sequence sorted |
| Tasks.InsertLowerBound | pyecoregen/ecore.py:108 | a lower bound on the key of the element and of every member bounds every member of the result |
| Tasks.InsertWithKey | pyecoregen/ecore.py:108 | insertion puts the element in front of the members with its key and leaves every other key's members as they were |
| Tasks.SortBySuperTypeCount | pyecoregen/ecore.py:108 | sorting is a permutation: the multiset of classes is unchanged |
| Tasks.SortIsSorted | pyecoregen/ecore.py:108 | the sorted result is non-decreasing in the number of distinct supertypes |
| Tasks.SortIsStable | pyecoregen/ecore.py:108 | the sort is stable: the classes with one key keep their original order |
| Tasks.Classes | pyecoregen/ecore.py:104-108 | `classes(p)` holds exactly the `EClass` classifiers of `p` and is sorted by supertype count |
| Tasks.ClassesSortedStably | pyecoregen/ecore.py:104-108 | `classes(p)` holds each class of `p` as often as `p` lists it, and classes with the same supertype count keep their order in `p` |
| Tasks.SuperTypeHasSmallerKey | pyecoregen/ecore.py:108 | in a hierarchy closed under supertypes, a proper supertype has fewer supertypes than its subclass |
| Tasks.SortedPutsSuperTypesFirst | pyecoregen/ecore.py:108 | in a sequence sorted by supertype count, every class comes after each of its supertypes |
| Tasks.SuperTypesComeFirst | pyecoregen/ecore.py:104-108 | in `classes(p)` each base from the same package is defined before every class that derives from it |
| Filters.IndexOf | pyecoregen/ecore.py:184 | `list.index`: none exactly when the item is missing, otherwise the first position holding it |
| Filters.OppositeBeforeSelf | pyecoregen/ecore.py:181-186 | the test holds only when the opposite exists, both it and the reference are in the list, and the two differ |
| Filters.OppositeBeforeSelfMeaning | pyecoregen/ecore.py:181-186 | the test holds exactly when the opposite exists and occurs, with no occurrence of the reference up to it and one after it; otherwise it is false |
| Filters.OppositeBeforeSelfExamples | tests/test_ecore.py:71-85 | the four cases of the test: self first, opposite first, opposite missing, self missing |
| Filters.GetEAnnotation | pyecoregen/ecore.py:190 | none exactly when no annotation has the source; otherwise an annotation with that source, with no annotation before it having that source |
| Filters.Docstringline | pyecoregen/ecore.py:188-192 | the line is empty exactly when there is no documentation or it is empty, and otherwise it is the documentation between triple quotes |
| Filters.DocstringlineExample | pyecoregen/ecore.py:188-192 | the first GenModel annotation's documentation is used, and a GenModel annotation without documentation gives an empty line |
| Filters.Names | pyecoregen/ecore.py:196 | the names of the supertypes, one per supertype, in order |
| Filters.FilterSupertypes | pyecoregen/ecore.py:194-197 | a class without supertypes derives from `EObject, metaclass=MetaEClass` |
| Filters.SupertypesMeaning | pyecoregen/ecore.py:194-197 | when no supertype name is empty or holds a comma, the names of the class's direct supertypes read back from the base list, in order |
| Filters.PyQuoteSingle | pyecoregen/ecore.py:199-201 | only `None` quotes to the empty string, and any string can be taken back out of its quotes |
| Filters.Entries | pyecoregen/ecore.py:213 | one `key=value` entry per qualifier, in insertion order |
| Filters.ReadEntriesBack | pyecoregen/ecore.py:213 | entries whose keys hold no `=` read back as the qualifiers |
| Filters.QualifiersRoundTrip | pyecoregen/ecore.py:213 | a qualifier list whose keys and values hold no comma and whose keys hold no `=` renders to a string that reads back as that list |
| Filters.RefQualifiers | pyecoregen/ecore.py:203-211 | the reference's dictionary is `ordered`, `unique` and `containment` with the reference's flags, then `upper=-1` exactly for a many-valued reference, every entry readable |
| Filters.FilterRefqualifiers | pyecoregen/ecore.py:203-213 | the rendered reference qualifiers read back as the reference's dictionary, entry by entry and in order |
| Filters.ManageDefaultValue | pyecoregen/ecore.py:233-243 | only a parsed object that is neither an enum literal nor a string comes back unchanged, and it is then what `from_string` returned for the (sanitized, for an enum) literal |
| Filters.EnumDefaultSanitizedOnce | pyecoregen/ecore.py:236-237 | for an enum type, sanitizing the literal beforehand changes nothing, because the sanitizer is idempotent |
| Filters.OtherDefaultsNotSanitized | pyecoregen/ecore.py:236-242 | for a type that is not an enum, the literal is parsed as written, and a string default renders as its `repr` |
| Filters.StringDefaultRoundTrip | pyecoregen/ecore.py:241-242 | a string default renders as Python source that reads back as that string |
| Filters.EnumDefaultSplits | pyecoregen/ecore.py:239-240 | an enum literal default splits at its dot into the enum's name and the literal's name |
| Filters.DefaultUnchangedExactlyForObjects | pyecoregen/ecore.py:238-243 | the value is returned unchanged exactly when `from_string` gives neither an enum literal nor a string, and it is then the object `from_string` gave |
| Filters.EnumDefaultExamples | tests/test_ecore.py:100-113 | `A` becomes `MyEnum.A`, `None_` becomes `MyEnum.None_`, and `None` is sanitized to `MyEnum.None_` |
| Filters.StringDefaultExample | tests/test_ecore.py:88-92 | an `EString` default `str_val` renders as `'str_val'` |
| Filters.IntDefaultExample | tests/test_ecore.py:94-97 | an `EInt` default `123456` comes back as the parsed number itself |
| Filters.AttrQualifiers | pyecoregen/ecore.py:217-221 | the first three entries are `eType` with the type's name, then `derived` and `changeable` with the attribute's flags |
| Filters.AttrQualifiersKeys | pyecoregen/ecore.py:215-229 | the keys are `eType`, `derived`, `changeable`, then `iD`, `upper`, `name` and `default_value` in that order, each exactly when the attribute is an id, many-valued, derived, or has a non-empty default literal |
| Filters.AttrQualifiersValues | pyecoregen/ecore.py:222-229 | each optional entry present has the value written: `iD=True`, `upper=-1`, the `repr` of the name, and the managed default value |
| Filters.AttrQualifiersReadBack | pyecoregen/ecore.py:215-231 | when no written name or value holds a comma and the type name holds no `=`, the rendered attribute qualifiers read back as the dictionary, entry by entry and in order |
| Filters.FilterAttrqualifiers | pyecoregen/ecore.py:215-231 | under the same condition, the filter's output reads back as the attribute's dictionary with its managed default value |
| Filters.MapModulePath | pyecoregen/ecore.py:276 | `ecore` maps to `pyecore.ecore` (the map of line 152), and every other name is kept |
| Filters.CollectPackages | pyecoregen/ecore.py:259-263 | `collect_packages` appends the names from the root down to the package |
| Filters.FilterPyfqn | pyecoregen/ecore.py:250-276 | the method computes the dotted name of the package's name chain, or the range error |
| Filters.Pyfqn | pyecoregen/ecore.py:265-276 | the ValueError is raised exactly for `relative_to` below zero or beyond the number of packages, with its message |
| Filters.PyfqnAbsoluteSplits | pyecoregen/ecore.py:271-276 | the absolute name of any package other than Ecore's root splits at its dots into the package names from the root down |
| Filters.PyfqnRelativeSplits | pyecoregen/ecore.py:271-276 | a relative name is a dot followed by the remaining names; relative to all of them it is `.` alone |
| Filters.PyfqnEcoreExample | pyecoregen/ecore.py:152 | Ecore's own root package maps to `pyecore.ecore`, and relative to itself it is `.` |
| Filters.PyfqnExamples | tests/test_ecore.py:61-68 | `pkg3` gives `pkg1.pkg2.pkg3`, `.pkg2.pkg3`, `.pkg3` and `.` for 0 to 3, and a failure for 4 |
| Text.SplitJoin | pyecoregen/ecore.py:271 | joining names that hold no separator, then splitting, gives the names back |
| Text.JoinSplit | pyecoregen/ecore.py:271 | splitting, then joining with the separator, gives the string back |
| Text.ReprDelimited | pyecoregen/ecore.py:242 | `repr` of a string is delimited by the same quote at both ends: a double quote exactly when the string holds a single quote and no double quote, otherwise a single quote |
| Text.ReprRoundTrip | pyecoregen/ecore.py:242 | reading back what `repr` writes for a string gives the string |
| Text.CommaListRoundTrip | pyecoregen/ecore.py:196 | a `', '`-joined list of items that hold no comma reads back as the items |
| Text.JoinIsEmpty | pyecoregen/ecore.py:197 | with a non-empty separator, a join is empty exactly when there is nothing to join or only one empty item |
| Adapter.Sanitize | pyecoregen/adapter.py:19-21 | the result is never a keyword, it is the input followed by underscores only, and a non-keyword is kept as it is |
| Adapter.KeywordsAreShort | pyecoregen/adapter.py:19 | no keyword is longer than eight characters, which bounds the loop |
| Adapter.SanitizeAppendsFewestUnderscores | pyecoregen/adapter.py:19-21 | every candidate with fewer underscores than the result is a keyword, so the loop stops at the first non-keyword |
| Adapter.SanitizeIdempotent | pyecoregen/adapter.py:19-21 | sanitizing a sanitized name changes nothing |
| Adapter.SanitizeAppendsAtMostOne | pyecoregen/adapter.py:19-21 | with Python's keyword list, at most one underscore is ever appended |
| Adapter.KeywordGetsOneUnderscore | pyecoregen/adapter.py:19-21 | a keyword gains exactly one underscore |
| Adapter.SanitizeExamples | tests/test_adapter.py:22-25 | `pass` and `else` gain an underscore, while `MyClass` and `att` are kept |
| Adapter.FixNameClash | pyecoregen/adapter.py:19-21 | the `while` loop computes the sanitized name (`fix_name_clash`, used at ecore.py:237) |
| Adapter.Read | pyecoregen/adapter.py:15-23 | a read fails exactly when the attribute is missing; a read of any attribute other than `name` returns the stored value; through a sanitizing accessor a string `name` is never a keyword |
| Adapter.ScopedNameSanitized | pyecoregen/adapter.py:19-23 | through a scope a string `name` reads as the inner read sanitized, a non-keyword name unchanged, and a non-string or missing name passes through |
| Adapter.Wrap | pyecoregen/adapter.py:13-25 | one or more nested scopes install a sanitizing accessor that wraps the accessor outside them |
| Adapter.OtherAttributesUnaffected | pyecoregen/adapter.py:15-23 | through any number of scopes, reads of an attribute other than `name` return what the original accessor returns |
| Adapter.NestedScopesReadAsOne | pyecoregen/adapter.py:15-23 | through nested scopes, `name` reads as through one scope and is never a keyword |
| Adapter.WrapsInner | pyecoregen/adapter.py:13-25 | scopes opened inside a scope around an accessor are scopes around that accessor |
| Adapter.WrappedReadsAsOne | pyecoregen/adapter.py:15-23 | however many scopes surround an accessor, every attribute reads as through a single scope |
| Adapter.Invoke | pyecoregen/adapter.py:16 | calling an accessor returns what it reads |
| Adapter.NameAccess.constructor | pyecoregen/adapter.py:13 | the slot starts with the given accessor and no active scopes |
| Adapter.NameAccess.Enter | pyecoregen/adapter.py:13-25 | entering saves the current accessor and installs the sanitizing accessor around it, keeping the accessor to be restored |
| Adapter.NameAccess.Exit | pyecoregen/adapter.py:27 | leaving reinstates the accessor the innermost scope saved, and leaving the outermost scope installs the accessor that was in place before any scope |
| Adapter.NameAccess.GetAttribute | pyecoregen/adapter.py:15-23 | an attribute read goes through the installed accessor |
| Adapter.ScopeRoundTrip | tests/test_adapter.py:18-28 | `pass` reads as `pass` before the scope, `pass_` inside it and `pass` after it, while `MyClass` is unchanged |
| Generator.TaskList | pyecoregen/ecore.py:160-165 | the init task comes first and the module task second; the mixin task is added last, exactly when a user module is given |
| Generator.TaskListMeaning | pyecoregen/ecore.py:160-165 | the init and module tasks always run, the mixin task runs exactly when a user module is given, no task runs twice, and two tasks write one file only for a package named `__init__` |
| Generator.EcoreGenerator.constructor | pyecoregen/ecore.py:154-165 | the generator keeps its options, builds the task list, and has emitted nothing |
| Generator.Visited.Add | pyecoregen/ecore.py:338 | `exclude.add` adds exactly the resource |
| Generator.ResourcesOfConcat | pyecoregen/ecore.py:341-342 | the resources emitted by two consecutive logs are the union of each log's resources |
| Generator.OnceConcat | pyecoregen/ecore.py:341-342 | two logs that each emit every resource once, and share no resource, together emit every resource once |
| Generator.RepeatFound | pyecoregen/ecore.py:340-342 | emitting a resource that is already in the log makes a repeat |
| Generator.ExcludeGrows | pyecoregen/ecore.py:338-342 | after a nested call, `exclude` holds what it held before the loop plus the whole snapshot, and the call emitted only snapshot resources |
| Generator.LoopStep | pyecoregen/ecore.py:341-342 | each turn of the loop as written extends the log inside the scope, and from the second turn on the log holds a repeat |
| Generator.AfterFirst | pyecoregen/ecore.py:330-342 | the emission of the model followed by the loop as written emits the model's resource and the loop's, with the loop's repeat |
| Generator.EcoreGenerator.GenerateAsWritten | pyecoregen/ecore.py:319-342 | names are restored on return; without dependencies one emission in the scope; with dependencies every resource not excluded on entry is emitted, `exclude` grows by the whole set, and two or more pending resources give a repeat |
| Generator.EcoreGenerator.InScopeAsWritten | pyecoregen/ecore.py:330-342 | the same, for the body of the `pythonic_names` block as written |
| Generator.EcoreGenerator.DependenciesAsWritten | pyecoregen/ecore.py:332-342 | the dependency part adds the model's resource and the whole set to `exclude`, and emits every pending resource |
| Generator.EcoreGenerator.EachAsWritten | pyecoregen/ecore.py:341-342 | the loop over the snapshot emits every snapshot resource inside the scope and repeats one when there are two or more |
| Generator.DuplicateEmissionExample | pyecoregen/ecore.py:340-342 | with three resources, each its own root, generating the first with dependencies emits some resource twice |
| Generator.ThreeResources | tests/test_dependencies_generation.py:12-19 | a resource set of three models, each the root of its own resource |
| Generator.AfterFirstOnce | pyecoregen/ecore.py:330-342 | with the skip, the model's emission and the loop's together emit each resource once |
| Generator.OnceStep | pyecoregen/ecore.py:341-342 | the first generating turn of the corrected loop emits the whole snapshot, each resource once |
| Generator.EcoreGenerator.Generate | pyecoregen/ecore.py:319-342 | names are restored on return; every resource not excluded on entry is emitted, and no resource twice |
| Generator.EcoreGenerator.GenerateInScope | pyecoregen/ecore.py:330-342 | the same, for the body of the `pythonic_names` block |
| Generator.EcoreGenerator.GenerateDependencies | pyecoregen/ecore.py:332-342 | `exclude` grows by the model's resource and the whole set, and every pending resource is emitted once |
| Generator.EcoreGenerator.GenerateEach | pyecoregen/ecore.py:341-342 | the loop generates a snapshot resource only while it is missing from `exclude`, and emits the snapshot once |
| Generator.ExactlyOnceExample | tests/test_dependencies_generation.py:12-19 | on the three-resource set, the first model is emitted first and every resource exactly once |

## Left out

- `pyecoregen/cli.py`, `setup.py` and `tests/user_provided/module.py` are not part of this model. They hold argument parsing, model loading, packaging and a test mixin.
- Jinja rendering, autopep8 formatting and file writing inside multigen's `generate` are left out. Each emission is one log entry.
- `create_template_context`, `create_global_context` and `create_environment` are left out. They only register values, tests and filters in Jinja dictionaries.
- The `re_sub` and `set` filters are thin wrappers over Python's `re.sub` and `set`.
- `filter_all_contents` is not modelled separately. It is the same type selection as `Tasks.Select` over `eAllContents()`.
- pyecore's own computations are given as data, not computed:
  - `eAllContents()`, `eAllSuperTypes()` and `eAllReferences()`;
  - `eContainer()` (the parent field of a package);
  - `getEAnnotation` over a given annotation list;
  - `EDataType.from_string`, which is a parameter of `Filters.ManageDefaultValue`.
- `isinstance` and `__class__` are modelled over pyecore's metaclass hierarchy (`Metamodel.Base`). User classes are not modelled.
- Iteration over a Python `set` (the classifier sets and the dependency snapshot) takes an arbitrary member at each step. Python's hash order is not modelled.
- The keyword list `Adapter.Keywords` is that of Python 3.7 and later, where `async` and `await` are keywords. setup.py:7-8 accepts Python 3.3 and later; on 3.3 to 3.6 a name `async` or `await` would be kept as it is.
- The qualifier entries are kept in the insertion order of a Python `dict`. Python guarantees that order only from 3.7 (CPython from 3.6); on earlier versions the qualifiers may be written in another order.
- Metamodel.Mro: pyecore's `__mro__` continues past `EObject` to `ENotifier` and `object`. These two are not modelled, because no filter or template test checks against them.
- Tasks.ReferenceImports, Tasks.SuperTypeImports and Tasks.AttributeTypeImports keep only types that are loaded in the model (`m.classifiers`). The source imports every `eType`, and an unresolvable type would raise in it; that error path is not modelled.
- `os.path.join` is modelled as `posixpath.join`. Windows paths are not modelled.
- Text.PyRepr: escapes the control characters below 0x20 and 0x7f. Python also escapes non-printable characters above 0x7f, which the model writes as they are.
- Adapter.NameAccess.Exit: only the normal exit of `pythonic_names` is modelled. The restore at adapter.py:27 is not in a `finally`, so an exception inside the block leaves the sanitizing accessor installed. Nothing is claimed for that path.
- The monkey-patching of `ENamedElement.__getattribute__` is modelled as one process-wide slot (`Adapter.NameAccess`). Concurrent use is not modelled.
- Element names in `Metamodel` are the values a read of `name` returns at the time of reading. The generator's emissions record the accessor in effect, and `Adapter.WrappedReadsAsOne` gives what any name reads as through it.
- Generator.EcoreGenerator.GenerateAsWritten: the recursion in `generate` is split into the four methods `GenerateAsWritten`, `InScopeAsWritten`, `DependenciesAsWritten` and `EachAsWritten`, one per nesting level of the Python method. The corrected `Generate` is split the same way.
- Generator.EcoreGenerator.GenerateAsWritten: requires every resource of the set to map to a root that lies in it, and the model's resource to be in a resource set. The same holds for `Generate` and the methods it is split into. This leaves out two exceptions the source raises with dependencies on. A model whose resource has no resource set raises AttributeError at ecore.py:340. An empty resource in the set raises IndexError at ecore.py:342 (`resource.contents[0]`).
- Tasks.Classes: requires every classifier the package lists to be loaded. This is a well-formedness condition of the model graph, not a demand of the source.
- Tasks.SuperTypesComeFirst: requires the supertype relation to be closed and acyclic (`Metamodel.SuperTypesClosed`). The ordering does not hold for a cyclic hierarchy.
- Filters.FilterPyfqn: requires the parent links to form a forest of known depths (`Metamodel.ParentsValid`). pyecore's containment tree guarantees this. The path lemmas of `Tasks` require the same.
- Filters.AttrQualifiersReadBack: the read-back holds only when no rendered value contains a comma and the type name contains no `=`. The Python output cannot be parsed back otherwise.
- Filters.PyfqnAbsoluteSplits: Ecore's root package is excluded, because it is mapped to `pyecore.ecore`, whose two segments are not the one package name.
- Adapter.FixNameClash: `fix_name_clash` is imported at ecore.py:10, but adapter.py does not define it. It is modelled as the sanitizing loop of adapter.py:19-21, which test_ecore.py:111-113 agrees with.
- Adapter.ScopeRoundTrip: the adapter test imports `adapt_name`, which adapter.py does not define. The example uses `pythonic_names`.

## Findings

| source | as written | input that shows it | evidently intended | confidence | as-written member | corrected member |
|---|---|---|---|---|---|---|
| pyecoregen/ecore.py:340-342 | the snapshot of resources not yet excluded is taken once, and each of them is generated even if an earlier sibling's recursion has meanwhile generated and excluded it | a resource set of three resources, each holding its own root; `with_dependencies=True`; generating the first resource's root. Both other resources are in the snapshot. The nested call for the first of them emits the other one too, and the loop then emits it again | each resource is generated once: skip a resource of the snapshot that is already in `exclude` | not executed | Generator.EcoreGenerator.GenerateAsWritten, Generator.DuplicateEmissionExample | Generator.EcoreGenerator.Generate, Generator.ExactlyOnceExample |
