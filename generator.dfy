/**
 * `EcoreGenerator`: the task list it builds, and `generate`, which emits code
 * for a model inside a `pythonic_names` scope and, when dependencies are
 * requested, recurses into the other resources of the model's resource set,
 * threading one shared `exclude` set through the nested calls.
 *
 * Emitting (multigen's own `generate`, which runs the tasks and writes the
 * files) is recorded as an entry of the generator's log.
 */
module Generator {
  import opened Wrappers
  import opened Tasks
  import opened Adapter

  type ResourceId = nat

  /** A model root (`resource.contents[0]`, or the model given by the caller) and the resource it was loaded from. */
  datatype Root = Root(id: nat, eResource: Option<ResourceId>)

  /** One emission: the model, the output folder, the tasks run and the name accessor in effect. */
  datatype Emission = Emission(root: Root, outfolder: string, tasks: seq<TaskKind>, accessor: Accessor)

  /** The resources whose roots the log emits. */
  function ResourcesOf(log: seq<Emission>): set<ResourceId> {
    set i | 0 <= i < |log| && log[i].root.eResource.Some? :: log[i].root.eResource.value
  }

  /** No resource is emitted twice. */
  ghost predicate EmittedOnce(log: seq<Emission>) {
    forall i, j :: 0 <= i < j < |log| && log[i].root.eResource.Some? ==> log[i].root.eResource != log[j].root.eResource
  }

  /** Some resource is emitted twice. */
  ghost predicate HasRepeat(log: seq<Emission>) {
    exists i, j :: 0 <= i < j < |log| && log[i].root.eResource.Some? && log[i].root.eResource == log[j].root.eResource
  }

  /** A resource set maps each resource to its first root, which belongs to it. */
  ghost predicate RootsOwnResources(rset: map<ResourceId, Root>) {
    forall x :: x in rset ==> rset[x].eResource == Some(x)
  }

  /** The resource of a model, as a set. */
  function Own(model: Root): set<ResourceId> {
    if model.eResource.Some? then {model.eResource.value} else {}
  }

  lemma ResourcesOfConcat(a: seq<Emission>, b: seq<Emission>)
    ensures ResourcesOf(a + b) == ResourcesOf(a) + ResourcesOf(b)
  {
    var ab := a + b;
    forall x | x in ResourcesOf(a + b)
      ensures x in ResourcesOf(a) + ResourcesOf(b)
    {
      var i :| 0 <= i < |ab| && ab[i].root.eResource == Some(x);
      if i >= |a| {
        assert b[i - |a|] == ab[i];
      }
    }
    forall x | x in ResourcesOf(b)
      ensures x in ResourcesOf(a + b)
    {
      var i :| 0 <= i < |b| && b[i].root.eResource == Some(x);
      assert ab[|a| + i] == b[i];
    }
    forall x | x in ResourcesOf(a)
      ensures x in ResourcesOf(a + b)
    {
      var i :| 0 <= i < |a| && a[i].root.eResource == Some(x);
      assert ab[i] == a[i];
    }
  }

  lemma ResourcesOfOne(e: Emission)
    ensures ResourcesOf([e]) == Own(e.root)
  {
    if e.root.eResource.Some? {
      assert [e][0].root.eResource.value in ResourcesOf([e]);
    }
  }

  lemma OnceConcat(a: seq<Emission>, b: seq<Emission>)
    requires EmittedOnce(a) && EmittedOnce(b)
    requires ResourcesOf(a) !! ResourcesOf(b)
    ensures EmittedOnce(a + b)
  {
    var ab := a + b;
    forall i, j | 0 <= i < j < |ab| && ab[i].root.eResource.Some?
      ensures ab[i].root.eResource != ab[j].root.eResource
    {
      if i < |a| && j >= |a| {
        assert ab[i] == a[i] && ab[j] == b[j - |a|];
        assert ab[i].root.eResource.value in ResourcesOf(a);
        if b[j - |a|].root.eResource.Some? {
          assert b[j - |a|].root.eResource.value in ResourcesOf(b);
        }
      } else if i >= |a| {
        assert ab[i] == b[i - |a|] && ab[j] == b[j - |a|];
      } else {
        assert ab[i] == a[i] && ab[j] == a[j];
      }
    }
  }

  lemma RepeatPersists(a: seq<Emission>, b: seq<Emission>)
    requires HasRepeat(a)
    ensures HasRepeat(a + b)
  {
    var i, j :| 0 <= i < j < |a| && a[i].root.eResource.Some? && a[i].root.eResource == a[j].root.eResource;
    assert (a + b)[i] == a[i] && (a + b)[j] == a[j];
  }

  lemma RepeatAfter(a: seq<Emission>, b: seq<Emission>)
    requires HasRepeat(b)
    ensures HasRepeat(a + b)
  {
    var i, j :| 0 <= i < j < |b| && b[i].root.eResource.Some? && b[i].root.eResource == b[j].root.eResource;
    assert (a + b)[|a| + i] == b[i] && (a + b)[|a| + j] == b[j];
  }

  /** A resource already in the log and emitted again by `b` is a repeat. */
  lemma RepeatFound(a: seq<Emission>, b: seq<Emission>, x: ResourceId)
    requires x in ResourcesOf(a) && b != [] && b[0].root.eResource == Some(x)
    ensures HasRepeat(a + b)
  {
    var i :| 0 <= i < |a| && a[i].root.eResource == Some(x);
    assert (a + b)[i] == a[i] && (a + b)[|a|] == b[0];
  }

  lemma ProperSubsetSmaller(a: set<ResourceId>, b: set<ResourceId>)
    requires a < b
    ensures |a| < |b|
  {
    var x :| x in b - a;
    assert b == a + (b - a);
    assert |b - a| >= 1 by { assert x in b - a; }
  }

  /**
   * The log `log` extends `old0` by `first` and further emissions, all made
   * inside scopes around `orig`, which together emit exactly `resources`.
   */
  ghost predicate Emits(old0: seq<Emission>, log: seq<Emission>, first: Emission, orig: Accessor, resources: set<ResourceId>) {
    && |old0| < |log| && log[..|old0|] == old0 && log[|old0|] == first
    && (forall i :: |old0| <= i < |log| ==> Wraps(log[i].accessor, orig))
    && ResourcesOf(log[|old0|..]) == resources
  }

  /** A single emission inside a scope around `orig` emits its root's resource. */
  lemma EmitsOne(old0: seq<Emission>, first: Emission, orig: Accessor)
    requires first.accessor == PythonicNames(orig)
    ensures Emits(old0, old0 + [first], first, orig, Own(first.root))
    ensures EmittedOnce((old0 + [first])[|old0|..])
  {
    assert (old0 + [first])[|old0|..] == [first];
    ResourcesOfOne(first);
  }

  /**
   * The log `log` extends `old0` by emissions all made inside scopes around
   * `orig`, which together emit exactly the resources `done`.
   */
  ghost predicate Extends(old0: seq<Emission>, log: seq<Emission>, orig: Accessor, done: set<ResourceId>) {
    && |old0| <= |log| && log[..|old0|] == old0
    && (forall i :: |old0| <= i < |log| ==> Wraps(log[i].accessor, orig))
    && ResourcesOf(log[|old0|..]) == done
  }

  /** The log of the loop as written: after two or more turns some resource is emitted twice. */
  ghost predicate LoopLog(old0: seq<Emission>, log: seq<Emission>, orig: Accessor, done: set<ResourceId>, turns: nat) {
    Extends(old0, log, orig, done) && (turns >= 2 ==> HasRepeat(log[|old0|..]))
  }

  /** The log of the corrected loop: no resource is emitted twice. */
  ghost predicate OnceLog(old0: seq<Emission>, log: seq<Emission>, orig: Accessor, done: set<ResourceId>) {
    Extends(old0, log, orig, done) && EmittedOnce(log[|old0|..])
  }

  /**
   * One turn of the loop over the snapshot `direct`: the log was `before` and
   * the nested call for `x` extended it to `all`, emitting `x` first and then
   * only resources of the snapshot, and all of them on the first turn. From
   * the second turn on the log holds a repeat, because an earlier sibling
   * already emitted `x`.
   */
  lemma LoopStep(old0: seq<Emission>, before: seq<Emission>, all: seq<Emission>, e: Emission, orig: Accessor,
                 x: ResourceId, r: set<ResourceId>, direct: set<ResourceId>, turns: nat)
    requires LoopLog(old0, before, orig, if turns == 0 then {} else direct, turns)
    requires Emits(before, all, e, orig, r) && e.root.eResource == Some(x) && x in direct
    requires r <= direct && (turns == 0 ==> r == direct)
    ensures LoopLog(old0, all, orig, direct, turns + 1)
  {
    var start := |old0|;
    var a := before[start..];
    var b := all[|before|..];
    assert all[start..] == a + b;
    assert all[..start] == all[..|before|][..start];
    ResourcesOfConcat(a, b);
    forall i | start <= i < |before|
      ensures Wraps(all[i].accessor, orig)
    {
      assert all[i] == all[..|before|][i];
    }
    if turns >= 2 {
      RepeatPersists(a, b);
    } else if turns == 1 {
      RepeatFound(a, b, x);
    }
  }

  /**
   * `generate` emitted `first` onto `old0` and then the loop extended the log to
   * `all`: the part from the first emission on holds the first emission's
   * resource and those of the loop, and a repeat of the loop's part.
   */
  lemma AfterFirst(old0: seq<Emission>, first: Emission, all: seq<Emission>, orig: Accessor, done: set<ResourceId>, turns: nat,
                   resources: set<ResourceId>)
    requires LoopLog(old0 + [first], all, PythonicNames(orig), done, turns)
    requires first.accessor == PythonicNames(orig) && resources == Own(first.root) + done
    ensures Emits(old0, all, first, orig, resources)
    ensures turns >= 2 ==> HasRepeat(all[|old0|..])
  {
    var mid := old0 + [first];
    var rest := all[|mid|..];
    assert all[|old0|] == all[..|mid|][|old0|];
    assert all[..|old0|] == all[..|mid|][..|old0|];
    assert all[|old0|..] == [first] + rest;
    ResourcesOfOne(first);
    ResourcesOfConcat([first], rest);
    forall i | |old0| <= i < |all|
      ensures Wraps(all[i].accessor, orig)
    {
      if i > |old0| {
        WrapsInner(all[i].accessor, orig);
      }
    }
    if turns >= 2 {
      RepeatAfter([first], rest);
    }
  }

  /**
   * The corrected `generate` emitted `first` onto `old0` and then its loop
   * extended the log, emitting each resource once and never the first
   * emission's own: no resource is emitted twice from `first` on.
   */
  lemma AfterFirstOnce(old0: seq<Emission>, first: Emission, all: seq<Emission>, orig: Accessor, done: set<ResourceId>,
                       resources: set<ResourceId>)
    requires OnceLog(old0 + [first], all, PythonicNames(orig), done)
    requires first.accessor == PythonicNames(orig) && resources == Own(first.root) + done && Own(first.root) !! done
    ensures Emits(old0, all, first, orig, resources)
    ensures EmittedOnce(all[|old0|..])
  {
    AfterFirst(old0, first, all, orig, done, 0, resources);
    var rest := all[|old0| + 1..];
    assert all[|old0|..] == [first] + rest by {
      assert all[|old0|] == all[..|old0| + 1][|old0|];
    }
    ResourcesOfOne(first);
    OnceConcat([first], rest);
  }

  /**
   * The one turn of the corrected loop that generates: the nested call for
   * the first resource of the snapshot emits the whole snapshot, each once.
   */
  lemma OnceStep(old0: seq<Emission>, all: seq<Emission>, e: Emission, orig: Accessor, direct: set<ResourceId>)
    requires Emits(old0, all, e, orig, direct) && EmittedOnce(all[|old0|..])
    ensures OnceLog(old0, all, orig, direct)
  {
  }

  /**
   * After a nested call for `x`, the shared `exclude` set holds everything it
   * held before the loop and the whole snapshot, and the call emitted `x` and
   * nothing outside the snapshot.
   */
  lemma ExcludeGrows(now: set<ResourceId>, before: set<ResourceId>, e0: set<ResourceId>, child: Root, keys: set<ResourceId>, direct: set<ResourceId>)
    requires direct == keys - e0
    requires now == before + Own(child) + keys
    requires child.eResource.Some? && child.eResource.value in direct
    requires before == e0 || before == e0 + direct
    ensures now == e0 + direct
    ensures Own(child) + (keys - before) <= direct
    ensures before == e0 ==> Own(child) + (keys - before) == direct
  {
  }

  /** The snapshot leaves out what was excluded and the model's own resource. */
  lemma SnapshotParts(keys: set<ResourceId>, e0: set<ResourceId>, own: set<ResourceId>)
    ensures own + (keys - e0) == own + (keys - (e0 + own))
    ensures keys - e0 - own == keys - (e0 + own)
  {
  }

  /** The `exclude` set shared by the nested calls of `generate`. */
  class Visited {
    var elems: set<ResourceId>

    constructor ()
      ensures elems == {}
    {
      elems := {};
    }

    /** `exclude.add(x)`. */
    method Add(x: ResourceId)
      modifies this
      ensures elems == old(elems) + {x}
    {
      elems := elems + {x};
    }
  }

  /** The resources an `exclude` argument holds; a missing one holds none. */
  ghost function Excluded(v: Visited?): set<ResourceId>
    reads v
  {
    if v == null then {} else v.elems
  }

  /** `if self.user_module:` for an optional module name. */
  predicate UserModuleGiven(userModule: Option<string>) {
    userModule.Some? && userModule.value != ""
  }

  /**
   * The task list `EcoreGenerator.__init__` builds: the init task, then the
   * module task, then the mixin task exactly when a user module is given.
   */
  function TaskList(userModule: Option<string>): (r: seq<TaskKind>)
    ensures |r| >= 2 && r[0] == PackageInit && r[1] == PackageModule
    ensures PackageMixin in r <==> UserModuleGiven(userModule)
    ensures |r| == 3 ==> r[2] == PackageMixin
  {
    [PackageInit, PackageModule] + (if UserModuleGiven(userModule) then [PackageMixin] else [])
  }

  /**
   * The init and module tasks always run and the mixin task runs exactly when a
   * user module is given; each task runs once, and two of them write the same
   * file for a package only when it is named `__init__`.
   */
  lemma TaskListMeaning(userModule: Option<string>, name: string)
    ensures var ts := TaskList(userModule);
      && PackageInit in ts && PackageModule in ts
      && (PackageMixin in ts <==> UserModuleGiven(userModule))
      && (forall i, j :: 0 <= i < j < |ts| ==> ts[i] != ts[j])
      && (forall i, j :: 0 <= i < j < |ts| && Filename(ts[i], name) == Filename(ts[j], name) ==> name == "__init__")
  {
    var ts := TaskList(userModule);
    forall i, j | 0 <= i < j < |ts| && Filename(ts[i], name) == Filename(ts[j], name)
      ensures name == "__init__"
    {
      FilenamesDiffer(ts[i], ts[j], name);
    }
  }

  class EcoreGenerator {
    const userModule: Option<string>
    const autoRegisterPackage: bool
    const withDependencies: bool
    const tasks: seq<TaskKind>
    /** What multigen's `generate` has emitted so far. */
    var emitted: seq<Emission>
    /** The process-wide `ENamedElement.__getattribute__` slot. */
    const names: NameAccess

    /** `__init__`: the init and module tasks, then the mixin task when a user module is given. */
    constructor (userModule: Option<string>, autoRegisterPackage: bool, withDependencies: bool, names: NameAccess)
      ensures this.userModule == userModule && this.autoRegisterPackage == autoRegisterPackage
      ensures this.withDependencies == withDependencies && this.names == names
      ensures tasks == TaskList(userModule) && emitted == []
    {
      this.userModule := userModule;
      this.autoRegisterPackage := autoRegisterPackage;
      this.withDependencies := withDependencies;
      this.names := names;
      tasks := [PackageInit, PackageModule];
      if userModule.Some? && userModule.value != "" {
        tasks := tasks + [PackageMixin];
      }
      emitted := [];
    }
  
    /**
     * `generate` as written: inside a `pythonic_names` scope, emit the model;
     * then, with dependencies requested and the model in a resource, add that
     * resource to `exclude`, take a snapshot of the resources of its set not
     * yet excluded, and generate each of them in turn. The snapshot is not
     * consulted again, so a resource that an earlier sibling's recursion
     * already emitted is emitted again: whenever the snapshot holds two or more
     * resources, some resource is emitted twice.
     */
    method GenerateAsWritten(model: Root, outfolder: string, rset: map<ResourceId, Root>, exclude: Visited?)
      requires names.Valid() && RootsOwnResources(rset)
      requires model.eResource.Some? ==> model.eResource.value in rset
      modifies this`emitted, names, exclude
      ensures names.Valid() && names.getAttribute == old(names.getAttribute) && names.saved == old(names.saved)
      ensures !(withDependencies && model.eResource.Some?) ==>
        && emitted == old(emitted) + [Emission(model, outfolder, tasks, PythonicNames(old(names.getAttribute)))]
        && Emits(old(emitted), emitted, Emission(model, outfolder, tasks, PythonicNames(old(names.getAttribute))), old(names.getAttribute), Own(model))
        && (exclude != null ==> exclude.elems == old(exclude.elems))
      ensures withDependencies && model.eResource.Some? ==>
        && Emits(old(emitted), emitted, Emission(model, outfolder, tasks, PythonicNames(old(names.getAttribute))), old(names.getAttribute),
             Own(model) + (rset.Keys - old(Excluded(exclude))))
        && (exclude != null ==> exclude.elems == old(exclude.elems) + Own(model) + rset.Keys)
        && (|rset.Keys - (old(Excluded(exclude)) + Own(model))| >= 2 ==> HasRepeat(emitted[|old(emitted)|..]))
      decreases |rset.Keys - (Excluded(exclude) + Own(model))|, 3
    {
      ghost var orig := names.getAttribute;
      names.Enter();
      InScopeAsWritten(model, outfolder, rset, exclude, orig);
      names.Exit();
    }

    /** The body of the `with pythonic_names()` block of `generate`, as written; `orig` is the accessor the block saved. */
    method InScopeAsWritten(model: Root, outfolder: string, rset: map<ResourceId, Root>, exclude: Visited?, ghost orig: Accessor)
      requires names.Valid() && names.getAttribute == PythonicNames(orig) && RootsOwnResources(rset)
      requires model.eResource.Some? ==> model.eResource.value in rset
      modifies this`emitted, names, exclude
      ensures names.Valid() && names.getAttribute == old(names.getAttribute) && names.saved == old(names.saved)
      ensures !(withDependencies && model.eResource.Some?) ==>
        && emitted == old(emitted) + [Emission(model, outfolder, tasks, old(names.getAttribute))]
        && Emits(old(emitted), emitted, Emission(model, outfolder, tasks, old(names.getAttribute)), orig, Own(model))
        && (exclude != null ==> exclude.elems == old(exclude.elems))
      ensures withDependencies && model.eResource.Some? ==>
        && Emits(old(emitted), emitted, Emission(model, outfolder, tasks, old(names.getAttribute)), orig,
             Own(model) + (rset.Keys - old(Excluded(exclude))))
        && (exclude != null ==> exclude.elems == old(exclude.elems) + Own(model) + rset.Keys)
        && (|rset.Keys - (old(Excluded(exclude)) + Own(model))| >= 2 ==> HasRepeat(emitted[|old(emitted)|..]))
      decreases |rset.Keys - (Excluded(exclude) + Own(model))|, 2
    {
      ghost var e0 := Excluded(exclude);
      var first := Emission(model, outfolder, tasks, names.getAttribute);
      emitted := emitted + [first];
      if withDependencies && model.eResource.Some? {
        DependenciesAsWritten(model, outfolder, rset, exclude);
        SnapshotParts(rset.Keys, e0, Own(model));
        AfterFirst(old(emitted), first, emitted, orig, rset.Keys - (e0 + Own(model)), |rset.Keys - (e0 + Own(model))|,
          Own(model) + (rset.Keys - e0));
      } else {
        EmitsOne(old(emitted), first, orig);
      }
    }

    /**
     * The dependency part of `generate`: add the model's resource to `exclude`
     * (a new set when none is given), take the snapshot of the resources of
     * the set not yet excluded, and generate each of them.
     */
    method DependenciesAsWritten(model: Root, outfolder: string, rset: map<ResourceId, Root>, exclude: Visited?)
      requires withDependencies && model.eResource.Some? && model.eResource.value in rset
      requires names.Valid() && RootsOwnResources(rset)
      modifies this`emitted, names, exclude
      ensures names.Valid() && names.getAttribute == old(names.getAttribute) && names.saved == old(names.saved)
      ensures exclude != null ==> exclude.elems == old(exclude.elems) + Own(model) + rset.Keys
      ensures LoopLog(old(emitted), emitted, old(names.getAttribute), rset.Keys - (old(Excluded(exclude)) + Own(model)),
        |rset.Keys - (old(Excluded(exclude)) + Own(model))|)
      decreases |rset.Keys - (Excluded(exclude) + Own(model))|, 1
    {
      var ex := exclude;
      if ex == null {
        ex := new Visited();
      }
      var resource := model.eResource.value;
      ex.Add(resource);
      var direct := set x | x in rset && x !in ex.elems;
      assert direct == rset.Keys - (old(Excluded(exclude)) + Own(model));
      EachAsWritten(direct, outfolder, rset, ex);
    }

    /**
     * The loop of `generate` over the snapshot `direct` of the resources not
     * yet excluded, one nested `generate` per resource, all sharing `ex`. The
     * first nested call already excludes every resource of the set.
     */
    method EachAsWritten(direct: set<ResourceId>, outfolder: string, rset: map<ResourceId, Root>, ex: Visited)
      requires withDependencies && names.Valid() && RootsOwnResources(rset)
      requires direct == rset.Keys - ex.elems
      modifies this`emitted, names, ex
      ensures names.Valid() && names.getAttribute == old(names.getAttribute) && names.saved == old(names.saved)
      ensures ex.elems == old(ex.elems) + direct
      ensures LoopLog(old(emitted), emitted, old(names.getAttribute), direct, |direct|)
      decreases |direct|, 0
    {
      ghost var e0 := ex.elems;
      ghost var turns: nat := 0;
      var todo := direct;
      assert emitted[|emitted|..] == [];
      while todo != {}
        invariant todo <= direct && |todo| + turns == |direct| && (turns == 0 ==> todo == direct)
        invariant names.Valid() && names.getAttribute == old(names.getAttribute) && names.saved == old(names.saved)
        invariant ex.elems == e0 + (if turns == 0 then {} else direct)
        invariant LoopLog(old(emitted), emitted, old(names.getAttribute), if turns == 0 then {} else direct, turns)
        decreases todo
      {
        var x :| x in todo;
        ghost var before := emitted;
        ghost var exBefore := ex.elems;
        assert rset[x].eResource == Some(x);
        todo := todo - {x};
        assert rset.Keys - (ex.elems + {x}) < direct by {
          assert x in direct;
        }
        ProperSubsetSmaller(rset.Keys - (ex.elems + {x}), direct);
        GenerateAsWritten(rset[x], outfolder, rset, ex);
        ExcludeGrows(ex.elems, exBefore, e0, rset[x], rset.Keys, direct);
        LoopStep(old(emitted), before, emitted, Emission(rset[x], outfolder, tasks, PythonicNames(old(names.getAttribute))),
          old(names.getAttribute), x, Own(rset[x]) + (rset.Keys - exBefore), direct, turns);
        turns := turns + 1;
      }
    }

    /**
     * `generate` as evidently intended: the loop over the snapshot skips a
     * resource that an earlier sibling's recursion has meanwhile excluded.
     * Every resource of the set not excluded on entry is then emitted, and no
     * resource twice.
     */
    method Generate(model: Root, outfolder: string, rset: map<ResourceId, Root>, exclude: Visited?)
      requires names.Valid() && RootsOwnResources(rset)
      requires model.eResource.Some? ==> model.eResource.value in rset
      modifies this`emitted, names, exclude
      ensures names.Valid() && names.getAttribute == old(names.getAttribute) && names.saved == old(names.saved)
      ensures !(withDependencies && model.eResource.Some?) ==>
        && emitted == old(emitted) + [Emission(model, outfolder, tasks, PythonicNames(old(names.getAttribute)))]
        && Emits(old(emitted), emitted, Emission(model, outfolder, tasks, PythonicNames(old(names.getAttribute))), old(names.getAttribute), Own(model))
        && (exclude != null ==> exclude.elems == old(exclude.elems))
      ensures withDependencies && model.eResource.Some? ==>
        && Emits(old(emitted), emitted, Emission(model, outfolder, tasks, PythonicNames(old(names.getAttribute))), old(names.getAttribute),
             Own(model) + (rset.Keys - old(Excluded(exclude))))
        && (exclude != null ==> exclude.elems == old(exclude.elems) + Own(model) + rset.Keys)
      ensures EmittedOnce(emitted[|old(emitted)|..])
      decreases |rset.Keys - (Excluded(exclude) + Own(model))|, 3
    {
      ghost var orig := names.getAttribute;
      names.Enter();
      GenerateInScope(model, outfolder, rset, exclude, orig);
      names.Exit();
    }

    /** The body of the `with pythonic_names()` block of the corrected `generate`. */
    method GenerateInScope(model: Root, outfolder: string, rset: map<ResourceId, Root>, exclude: Visited?, ghost orig: Accessor)
      requires names.Valid() && names.getAttribute == PythonicNames(orig) && RootsOwnResources(rset)
      requires model.eResource.Some? ==> model.eResource.value in rset
      modifies this`emitted, names, exclude
      ensures names.Valid() && names.getAttribute == old(names.getAttribute) && names.saved == old(names.saved)
      ensures !(withDependencies && model.eResource.Some?) ==>
        && emitted == old(emitted) + [Emission(model, outfolder, tasks, old(names.getAttribute))]
        && Emits(old(emitted), emitted, Emission(model, outfolder, tasks, old(names.getAttribute)), orig, Own(model))
        && (exclude != null ==> exclude.elems == old(exclude.elems))
      ensures withDependencies && model.eResource.Some? ==>
        && Emits(old(emitted), emitted, Emission(model, outfolder, tasks, old(names.getAttribute)), orig,
             Own(model) + (rset.Keys - old(Excluded(exclude))))
        && (exclude != null ==> exclude.elems == old(exclude.elems) + Own(model) + rset.Keys)
      ensures EmittedOnce(emitted[|old(emitted)|..])
      decreases |rset.Keys - (Excluded(exclude) + Own(model))|, 2
    {
      ghost var e0 := Excluded(exclude);
      var first := Emission(model, outfolder, tasks, names.getAttribute);
      emitted := emitted + [first];
      if withDependencies && model.eResource.Some? {
        GenerateDependencies(model, outfolder, rset, exclude);
        SnapshotParts(rset.Keys, e0, Own(model));
        AfterFirstOnce(old(emitted), first, emitted, orig, rset.Keys - (e0 + Own(model)), Own(model) + (rset.Keys - e0));
      } else {
        EmitsOne(old(emitted), first, orig);
      }
    }

    /** The dependency part of the corrected `generate`. */
    method GenerateDependencies(model: Root, outfolder: string, rset: map<ResourceId, Root>, exclude: Visited?)
      requires withDependencies && model.eResource.Some? && model.eResource.value in rset
      requires names.Valid() && RootsOwnResources(rset)
      modifies this`emitted, names, exclude
      ensures names.Valid() && names.getAttribute == old(names.getAttribute) && names.saved == old(names.saved)
      ensures exclude != null ==> exclude.elems == old(exclude.elems) + Own(model) + rset.Keys
      ensures OnceLog(old(emitted), emitted, old(names.getAttribute), rset.Keys - (old(Excluded(exclude)) + Own(model)))
      decreases |rset.Keys - (Excluded(exclude) + Own(model))|, 1
    {
      var ex := exclude;
      if ex == null {
        ex := new Visited();
      }
      var resource := model.eResource.value;
      ex.Add(resource);
      var direct := set x | x in rset && x !in ex.elems;
      assert direct == rset.Keys - (old(Excluded(exclude)) + Own(model));
      GenerateEach(direct, outfolder, rset, ex);
    }

    /**
     * The corrected loop over the snapshot `direct`: a resource is generated
     * only while it is still missing from `ex`. The first one is; its nested
     * call excludes the whole set, so every later one is skipped.
     */
    method GenerateEach(direct: set<ResourceId>, outfolder: string, rset: map<ResourceId, Root>, ex: Visited)
      requires withDependencies && names.Valid() && RootsOwnResources(rset)
      requires direct == rset.Keys - ex.elems
      modifies this`emitted, names, ex
      ensures names.Valid() && names.getAttribute == old(names.getAttribute) && names.saved == old(names.saved)
      ensures ex.elems == old(ex.elems) + direct
      ensures OnceLog(old(emitted), emitted, old(names.getAttribute), direct)
      decreases |direct|, 0
    {
      ghost var e0 := ex.elems;
      ghost var ran := false;
      var todo := direct;
      assert emitted[|emitted|..] == [];
      while todo != {}
        invariant todo <= direct && (!ran ==> todo == direct)
        invariant names.Valid() && names.getAttribute == old(names.getAttribute) && names.saved == old(names.saved)
        invariant ex.elems == e0 + (if ran then direct else {})
        invariant !ran ==> emitted == old(emitted)
        invariant ran ==> OnceLog(old(emitted), emitted, old(names.getAttribute), direct)
        decreases todo
      {
        var x :| x in todo;
        todo := todo - {x};
        if x !in ex.elems {
          assert rset[x].eResource == Some(x);
          assert rset.Keys - (ex.elems + {x}) < direct by {
            assert x in direct;
          }
          ProperSubsetSmaller(rset.Keys - (ex.elems + {x}), direct);
          Generate(rset[x], outfolder, rset, ex);
          ExcludeGrows(ex.elems, e0, e0, rset[x], rset.Keys, direct);
          OnceStep(old(emitted), emitted, Emission(rset[x], outfolder, tasks, PythonicNames(old(names.getAttribute))),
            old(names.getAttribute), direct);
          ran := true;
        }
      }
    }
  }

  /** A resource set of three models, each the root of its own resource. */
  function ThreeResources(): (rset: map<ResourceId, Root>)
    ensures RootsOwnResources(rset) && rset.Keys == {1, 2, 3}
  {
    map[1 := Root(10, Some(1)), 2 := Root(20, Some(2)), 3 := Root(30, Some(3))]
  }

  /**
   * Generating the first model of `ThreeResources` with dependencies, as
   * written: the other two resources are both pending, so some resource is
   * emitted twice.
   */
  method DuplicateEmissionExample() returns (log: seq<Emission>)
    ensures HasRepeat(log)
  {
    var names := new NameAccess(Original);
    var g := new EcoreGenerator(None, false, true, names);
    var rset := ThreeResources();
    g.GenerateAsWritten(rset[1], "out", rset, null);
    log := g.emitted;
    assert rset.Keys - ({} + Own(rset[1])) == {2, 3};
    assert log[0..] == log;
  }

  /**
   * The corrected `generate` on the same input emits the first model first
   * and every resource of the set exactly once.
   */
  method ExactlyOnceExample() returns (log: seq<Emission>)
    ensures EmittedOnce(log) && ResourcesOf(log) == {1, 2, 3}
    ensures |log| > 0 && log[0].root == Root(10, Some(1))
  {
    var names := new NameAccess(Original);
    var g := new EcoreGenerator(None, false, true, names);
    var rset := ThreeResources();
    g.Generate(rset[1], "out", rset, null);
    log := g.emitted;
    assert log[0..] == log;
  }
}
