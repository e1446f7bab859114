/**
 * The injector of `src/watoki/factory/Injector.php`: it fills constructor
 * parameters from an argument bag, defaults and the factory, and injects
 * annotated properties into an existing object.
 *
 * Reflection is replaced by data (`Param`, `ClassInfo`, `PropertyDecl`,
 * `Annotation`); the factory's `getInstance`, the class resolver, the filter
 * callback and object instantiation are functions the caller passes in.
 */
module Injection {
  import opened Values
  import opened Names

  /** `$this->factory->getInstance($class)` with no arguments. */
  type GetInstance = string -> Result<Value>

  /** `ClassResolver::resolve($name)`: a fully qualified class name, or false. */
  type Resolve = string -> Option<string>

  /** `newInstanceArgs`: runs a class's constructor on an argument array; the body may throw. */
  type Instantiate = (string, seq<Entry>) -> Result<Value>

  /** A constructor parameter as reflection reports it. */
  datatype Param = Param(name: string, default: Option<Value>, cls: Option<string>)

  /** One element of the name-keyed argument array handed to the constructor. */
  datatype Entry = Entry(name: string, value: Value)

  /**
   * A class as reflection reports it: its name and, if it has a constructor
   * (its own or an inherited one), that constructor's parameters.
   */
  datatype ClassInfo = ClassInfo(name: string, ctor: Option<seq<Param>>)

  // ---------------------------------------------------------------------------
  // injectMethodArguments

  /** The value of parameter `p` at position `i`: by name, by position, by default, from the factory, or an error. */
  function ResolveParam(p: Param, i: nat, args: Args, getInstance: GetInstance): (r: Result<Value>)
    ensures p.cls.None? ==> (r.Ok? <==> Named(p.name) in args || Position(i) in args || p.default.Some?)
    ensures r.Err? ==> Named(p.name) !in args && Position(i) !in args && p.default.None?
    ensures r.Err? && p.cls.None? ==> r.error == MissingArgument(p.name, args.Keys)
  {
    if Named(p.name) in args then Ok(args[Named(p.name)])
    else if Position(i) in args then Ok(args[Position(i)])
    else if p.default.Some? then Ok(p.default.value)
    else if p.cls.Some? then getInstance(p.cls.value)
    else Err(MissingArgument(p.name, args.Keys))
  }

  /** The order of precedence: name key, position key, default value, the factory, else an error. */
  lemma ResolveParamPrecedence(p: Param, i: nat, args: Args, getInstance: GetInstance)
    ensures Named(p.name) in args ==>
      ResolveParam(p, i, args, getInstance) == Ok(args[Named(p.name)])
    ensures Named(p.name) !in args && Position(i) in args ==>
      ResolveParam(p, i, args, getInstance) == Ok(args[Position(i)])
    ensures Named(p.name) !in args && Position(i) !in args && p.default.Some? ==>
      ResolveParam(p, i, args, getInstance) == Ok(p.default.value)
    ensures Named(p.name) !in args && Position(i) !in args && p.default.None? && p.cls.Some? ==>
      ResolveParam(p, i, args, getInstance) == getInstance(p.cls.value)
    ensures Named(p.name) !in args && Position(i) !in args && p.default.None? && p.cls.None? ==>
      ResolveParam(p, i, args, getInstance) == Err(MissingArgument(p.name, args.Keys))
  {
  }

  /**
   * The factory is consulted only for a parameter with no name key, no
   * position key and no default but with a class: otherwise any two factories
   * give the same value (an explicit null included).
   */
  lemma FactoryOnlyForMissingTypedParams(p: Param, i: nat, args: Args, g1: GetInstance, g2: GetInstance)
    ensures ResolveParam(p, i, args, g1) != ResolveParam(p, i, args, g2) ==>
      Named(p.name) !in args && Position(i) !in args && p.default.None? && p.cls.Some?
  {
  }

  /** `$array[$k] = $v` on an ordered PHP array: a new key is appended, an existing one is overwritten in place. */
  function Put(entries: seq<Entry>, k: string, v: Value): (r: seq<Entry>)
    ensures |r| == |entries| || |r| == |entries| + 1
    ensures (forall j :: 0 <= j < |entries| ==> entries[j].name != k) ==> r == entries + [Entry(k, v)]
  {
    if entries == [] then [Entry(k, v)]
    else if entries[0].name == k then [Entry(k, v)] + entries[1..]
    else [entries[0]] + Put(entries[1..], k, v)
  }

  /** Assigning to a key the array already holds replaces the first entry with that key and keeps the order. */
  lemma {:induction false} PutReplaces(entries: seq<Entry>, k: string, v: Value, j: nat)
    requires j < |entries| && entries[j].name == k
    requires forall i :: 0 <= i < j ==> entries[i].name != k
    ensures Put(entries, k, v) == entries[j := Entry(k, v)]
  {
    if j > 0 {
      PutReplaces(entries[1..], k, v, j - 1);
    }
  }

  /** The argument array for the parameters `ps`, built left to right; the first failure aborts it. */
  function ResolveAll(ps: seq<Param>, args: Args, getInstance: GetInstance): (r: Result<seq<Entry>>)
    ensures ps == [] ==> r.Ok?
    ensures r.Ok? ==> |r.value| <= |ps|
    decreases |ps|
  {
    if ps == [] then Ok([])
    else
      var n := |ps| - 1;
      match ResolveAll(ps[..n], args, getInstance)
      case Err(e) => Err(e)
      case Ok(prefix) =>
        match ResolveParam(ps[n], n, args, getInstance)
        case Err(e) => Err(e)
        case Ok(v) => Ok(Put(prefix, ps[n].name, v))
  }

  /** No two parameters of a PHP function share a name. */
  predicate DistinctNames(ps: seq<Param>)
  {
    forall i, j :: 0 <= i < j < |ps| ==> ps[i].name != ps[j].name
  }

  /** The argument array is built exactly when every parameter resolves. */
  lemma {:induction false} ResolveAllSucceeds(ps: seq<Param>, args: Args, getInstance: GetInstance)
    ensures ResolveAll(ps, args, getInstance).Ok? <==>
      forall i :: 0 <= i < |ps| ==> ResolveParam(ps[i], i, args, getInstance).Ok?
    decreases |ps|
  {
    if ps != [] {
      var n := |ps| - 1;
      var init := ps[..n];
      ResolveAllSucceeds(init, args, getInstance);
      assert forall i :: 0 <= i < n ==> init[i] == ps[i];
      var last := ResolveParam(ps[n], n, args, getInstance);
      assert ResolveAll(ps, args, getInstance).Ok? <==> ResolveAll(init, args, getInstance).Ok? && last.Ok?;
    }
  }

  /** A successful argument array is the array for all but the last parameter, with the last one put in. */
  lemma ResolveAllLast(ps: seq<Param>, args: Args, getInstance: GetInstance)
    requires ps != [] && ResolveAll(ps, args, getInstance).Ok?
    ensures var n := |ps| - 1;
      && ResolveAll(ps[..n], args, getInstance).Ok?
      && ResolveParam(ps[n], n, args, getInstance).Ok?
      && ResolveAll(ps, args, getInstance).value ==
           Put(ResolveAll(ps[..n], args, getInstance).value, ps[n].name, ResolveParam(ps[n], n, args, getInstance).value)
  {
  }

  /** `entries` holds, in order, one entry per parameter of `ps`, keyed by its name and holding its resolved value. */
  predicate EntriesFor(ps: seq<Param>, entries: seq<Entry>, args: Args, getInstance: GetInstance)
  {
    && |entries| == |ps|
    && forall i :: 0 <= i < |ps| ==>
         ResolveParam(ps[i], i, args, getInstance).Ok? &&
         entries[i] == Entry(ps[i].name, ResolveParam(ps[i], i, args, getInstance).value)
  }

  lemma EntriesForSnoc(ps: seq<Param>, prefix: seq<Entry>, v: Value, args: Args, getInstance: GetInstance)
    requires ps != [] && EntriesFor(ps[..|ps| - 1], prefix, args, getInstance)
    requires ResolveParam(ps[|ps| - 1], |ps| - 1, args, getInstance) == Ok(v)
    ensures EntriesFor(ps, prefix + [Entry(ps[|ps| - 1].name, v)], args, getInstance)
  {
    var n := |ps| - 1;
    var all := prefix + [Entry(ps[n].name, v)];
    forall i | 0 <= i < |ps|
      ensures ResolveParam(ps[i], i, args, getInstance).Ok?
      ensures all[i] == Entry(ps[i].name, ResolveParam(ps[i], i, args, getInstance).value)
    {
      if i < n {
        assert ps[..n][i] == ps[i];
      }
    }
  }

  /** One entry per parameter, keyed by its name, in declaration order. */
  lemma {:induction false} ResolveAllEntries(ps: seq<Param>, args: Args, getInstance: GetInstance)
    requires DistinctNames(ps)
    requires ResolveAll(ps, args, getInstance).Ok?
    ensures EntriesFor(ps, ResolveAll(ps, args, getInstance).value, args, getInstance)
    decreases |ps|
  {
    if ps != [] {
      var n := |ps| - 1;
      var init := ps[..n];
      assert forall i :: 0 <= i < n ==> init[i] == ps[i];
      assert DistinctNames(init);
      ResolveAllLast(ps, args, getInstance);
      ResolveAllEntries(init, args, getInstance);
      var prefix := ResolveAll(init, args, getInstance).value;
      var last := ResolveParam(ps[n], n, args, getInstance);
      assert forall j :: 0 <= j < n ==> prefix[j].name != ps[n].name;
      assert ResolveAll(ps, args, getInstance).value == prefix + [Entry(ps[n].name, last.value)];
      EntriesForSnoc(ps, prefix, last.value, args, getInstance);
    }
  }

  /** Once a prefix of the parameters fails, the whole list fails with the same error. */
  lemma {:induction false} ResolveAllPrefixFails(ps: seq<Param>, k: nat, args: Args, getInstance: GetInstance)
    requires k <= |ps|
    requires ResolveAll(ps[..k], args, getInstance).Err?
    ensures ResolveAll(ps, args, getInstance) == ResolveAll(ps[..k], args, getInstance)
    decreases |ps| - k
  {
    if k < |ps| {
      assert ps[..k + 1][..k] == ps[..k];
      ResolveAllPrefixFails(ps, k + 1, args, getInstance);
    } else {
      assert ps[..k] == ps;
    }
  }

  /** A failure is the error of the first parameter that cannot be resolved; nothing partial is returned. */
  lemma ResolveAllFirstFailure(ps: seq<Param>, k: nat, args: Args, getInstance: GetInstance)
    requires k < |ps|
    requires forall j :: 0 <= j < k ==> ResolveParam(ps[j], j, args, getInstance).Ok?
    requires ResolveParam(ps[k], k, args, getInstance).Err?
    ensures ResolveAll(ps, args, getInstance) == Err(ResolveParam(ps[k], k, args, getInstance).error)
  {
    var init := ps[..k];
    assert forall j :: 0 <= j < k ==> init[j] == ps[j];
    ResolveAllSucceeds(init, args, getInstance);
    assert ps[..k + 1][..k] == init;
    ResolveAllPrefixFails(ps, k + 1, args, getInstance);
  }

  /** `injectMethodArguments`: fills each parameter in order, stopping at the first one that fails. */
  method InjectMethodArguments(params: seq<Param>, args: Args, getInstance: GetInstance)
    returns (r: Result<seq<Entry>>)
    ensures r == ResolveAll(params, args, getInstance)
  {
    var argArray: seq<Entry> := [];
    var i := 0;
    while i < |params|
      invariant 0 <= i <= |params|
      invariant ResolveAll(params[..i], args, getInstance) == Ok(argArray)
    {
      var param := params[i];
      assert params[..i + 1][..i] == params[..i];
      var arg: Value;
      if Named(param.name) in args {
        arg := args[Named(param.name)];
      } else if Position(i) in args {
        arg := args[Position(i)];
      } else if param.default.Some? {
        arg := param.default.value;
      } else if param.cls.Some? {
        var got := getInstance(param.cls.value);
        if got.Err? {
          ResolveAllPrefixFails(params, i + 1, args, getInstance);
          return Err(got.error);
        }
        arg := got.value;
      } else {
        ResolveAllPrefixFails(params, i + 1, args, getInstance);
        return Err(MissingArgument(param.name, args.Keys));
      }
      argArray := Put(argArray, param.name, arg);
      i := i + 1;
    }
    assert params[..i] == params;
    return Ok(argArray);
  }

  // ---------------------------------------------------------------------------
  // injectConstructor

  /**
   * `injectConstructor`: a class with no constructor, declared or inherited,
   * is instantiated with no arguments whatever `args` holds, and what that
   * throws is not caught.
   * Otherwise an exception raised while filling the parameters or running
   * the constructor is rethrown prefixed with the class name, while a PHP
   * `\Error` passes through unchanged. `info` is `None` when reflection
   * cannot find the class.
   */
  method InjectConstructor(cls: string, info: Option<ClassInfo>, args: Args,
                           getInstance: GetInstance, instantiate: Instantiate)
    returns (r: Result<Value>)
    ensures info.None? ==> r == Err(UnknownClass(cls))
    ensures info.Some? && info.value.ctor.None? ==> r == instantiate(info.value.name, [])
    ensures info.Some? && info.value.ctor.Some? ==>
      var name := info.value.name;
      var resolved := ResolveAll(info.value.ctor.value, args, getInstance);
      var outcome := if resolved.Err? then Err(resolved.error) else instantiate(name, resolved.value);
      && (r.Ok? <==> outcome.Ok?)
      && (outcome.Ok? ==> r == outcome)
      && (outcome.Err? && IsException(outcome.error) ==> r == Err(ConstructorFailed(name, outcome.error)))
      && (outcome.Err? && !IsException(outcome.error) ==> r == outcome)
  {
    if info.None? {
      return Err(UnknownClass(cls));
    }
    var reflection := info.value;
    if reflection.ctor.None? {
      return instantiate(reflection.name, []);
    }
    var argArray := InjectMethodArguments(reflection.ctor.value, args, getInstance);
    if argArray.Err? {
      if !IsException(argArray.error) {
        return Err(argArray.error);
      }
      return Err(ConstructorFailed(reflection.name, argArray.error));
    }
    var built := instantiate(reflection.name, argArray.value);
    if built.Err? && IsException(built.error) {
      return Err(ConstructorFailed(reflection.name, built.error));
    }
    return built;
  }

  // ---------------------------------------------------------------------------
  // injectProperty, injectProperties, injectPropertyAnnotations

  /** The short name of a class: what follows its last namespace separator. */
  function ShortName(name: string): (short: string)
    ensures |short| <= |name| && short == name[|name| - |short|..]
    ensures Backslash !in short
    ensures |short| < |name| ==> name[|name| - |short| - 1] == Backslash
    decreases |name|
  {
    if name == [] || name[|name| - 1] == Backslash then []
    else ShortName(name[..|name| - 1]) + [name[|name| - 1]]
  }

  /** The properties of an object: those its class declares and those added dynamically. */
  datatype Slots = Slots(declared: map<string, Value>, dynamic: map<string, Value>)
  {
    predicate Valid()
    {
      declared.Keys !! dynamic.Keys
    }

    /** Assigns a property: the declared one if the class has it, else a dynamic one. */
    function Assign(property: string, v: Value): Slots
    {
      if property in declared then this.(declared := declared[property := v])
      else this.(dynamic := dynamic[property := v])
    }

    /** Property `k` is the same in both objects. */
    predicate SameAt(other: Slots, k: string)
    {
      && (k in declared <==> k in other.declared)
      && (k in declared ==> declared[k] == other.declared[k])
      && (k in dynamic <==> k in other.dynamic)
      && (k in dynamic ==> dynamic[k] == other.dynamic[k])
    }
  }

  /** The object properties are injected into. */
  class Instance {
    const className: string
    var declared: map<string, Value>
    var dynamic: map<string, Value>

    constructor (className: string, declared: map<string, Value>)
      ensures this.className == className
      ensures State() == Slots(declared, map[]) && State().Valid()
    {
      this.className := className;
      this.declared := declared;
      this.dynamic := map[];
    }

    function State(): Slots
      reads this
    {
      Slots(declared, dynamic)
    }
  }

  /**
   * What `injectProperty` does to an object of class `owner`: an error naming
   * the property and the class if the resolver finds no class, the factory's
   * error if it throws, else the object with the property assigned.
   */
  function PropertyStep(s: Slots, owner: string, property: string, typeName: string,
                        resolve: Resolve, getInstance: GetInstance): (r: Result<Slots>)
    ensures r.Ok? <==> Truthy(resolve(typeName)) && getInstance(resolve(typeName).value).Ok?
    ensures r.Ok? ==> r.value.declared.Keys == s.declared.Keys && (s.Valid() ==> r.value.Valid())
  {
    var c := resolve(typeName);
    if !Truthy(c) then Err(UnresolvedClass(property, ShortName(owner), typeName))
    else
      match getInstance(c.value)
      case Err(e) => Err(e)
      case Ok(v) => Ok(s.Assign(property, v))
  }

  /** The decision of `injectProperty`, and that it touches no other property. */
  lemma PropertyStepSpec(s: Slots, owner: string, property: string, typeName: string,
                         resolve: Resolve, getInstance: GetInstance)
    requires s.Valid()
    ensures var r := PropertyStep(s, owner, property, typeName, resolve, getInstance);
      && (!Truthy(resolve(typeName)) ==> r == Err(UnresolvedClass(property, ShortName(owner), typeName)))
      && (Truthy(resolve(typeName)) ==>
            (r.Ok? <==> getInstance(resolve(typeName).value).Ok?)
            && (r.Err? ==> r == Err(getInstance(resolve(typeName).value).error)))
      && (r.Ok? ==>
            var v := getInstance(resolve(typeName).value).value;
            && r.value.Valid()
            && r.value.declared.Keys == s.declared.Keys
            && (property in s.declared ==> r.value.declared[property] == v && r.value.dynamic == s.dynamic)
            && (property !in s.declared ==> r.value.dynamic[property] == v && r.value.declared == s.declared)
            && forall k :: k != property ==> r.value.SameAt(s, k))
  {
  }

  /** `injectProperty`: assigns the factory's instance of the resolved class, or reports why it cannot. */
  method InjectProperty(property: string, obj: Instance, resolve: Resolve, typeName: string,
                        getInstance: GetInstance)
    returns (failure: Option<Error>)
    modifies obj
    ensures match PropertyStep(old(obj.State()), obj.className, property, typeName, resolve, getInstance)
      case Ok(s) => failure.None? && obj.State() == s
      case Err(e) => failure == Some(e) && obj.State() == old(obj.State())
  {
    var c := resolve(typeName);
    if !Truthy(c) {
      return Some(UnresolvedClass(property, ShortName(obj.className), typeName));
    }
    var got := getInstance(c.value);
    if got.Err? {
      return Some(got.error);
    }
    if property in obj.declared {
      obj.declared := obj.declared[property := got.value];
    } else {
      obj.dynamic := obj.dynamic[property := got.value];
    }
    return None;
  }

  /** A property to inject and the class name written in its annotation. */
  datatype Job = Job(property: string, typeName: string)

  /** The object after a run of injections, and the error that stopped it, if any. */
  datatype Run = Run(state: Slots, failure: Option<Error>)

  /** Injects the jobs in order; the first failure stops the run and keeps what was done before it. */
  function RunJobs(s: Slots, owner: string, jobs: seq<Job>, resolve: Resolve, getInstance: GetInstance): (r: Run)
    ensures r.state.declared.Keys == s.declared.Keys
    ensures s.Valid() ==> r.state.Valid()
    decreases |jobs|
  {
    if jobs == [] then Run(s, None)
    else
      var before := RunJobs(s, owner, jobs[..|jobs| - 1], resolve, getInstance);
      var job := jobs[|jobs| - 1];
      if before.failure.Some? then before
      else
        match PropertyStep(before.state, owner, job.property, job.typeName, resolve, getInstance)
        case Err(e) => Run(before.state, Some(e))
        case Ok(t) => Run(t, None)
  }

  lemma RunJobsSnoc(s: Slots, owner: string, jobs: seq<Job>, job: Job, resolve: Resolve, getInstance: GetInstance)
    ensures RunJobs(s, owner, jobs + [job], resolve, getInstance) ==
      var before := RunJobs(s, owner, jobs, resolve, getInstance);
      if before.failure.Some? then before
      else
        match PropertyStep(before.state, owner, job.property, job.typeName, resolve, getInstance)
        case Err(e) => Run(before.state, Some(e))
        case Ok(t) => Run(t, None)
  {
    assert (jobs + [job])[..|jobs|] == jobs;
  }

  /** After a failure, later jobs change nothing. */
  lemma {:induction false} RunJobsStops(s: Slots, owner: string, done: seq<Job>, later: seq<Job>,
                                        resolve: Resolve, getInstance: GetInstance)
    requires RunJobs(s, owner, done, resolve, getInstance).failure.Some?
    ensures RunJobs(s, owner, done + later, resolve, getInstance) == RunJobs(s, owner, done, resolve, getInstance)
    decreases |later|
  {
    if later == [] {
      assert done + later == done;
    } else {
      var n := |later| - 1;
      RunJobsStops(s, owner, done, later[..n], resolve, getInstance);
      assert (done + later)[..|done + later| - 1] == done + later[..n];
    }
  }

  /** A run keeps the object's invariant and its declared properties, and touches only the jobs' properties. */
  lemma {:induction false} RunJobsFrame(s: Slots, owner: string, jobs: seq<Job>,
                                        resolve: Resolve, getInstance: GetInstance, k: string)
    requires s.Valid()
    requires forall j :: 0 <= j < |jobs| ==> jobs[j].property != k
    ensures RunJobs(s, owner, jobs, resolve, getInstance).state.Valid()
    ensures RunJobs(s, owner, jobs, resolve, getInstance).state.declared.Keys == s.declared.Keys
    ensures RunJobs(s, owner, jobs, resolve, getInstance).state.SameAt(s, k)
    decreases |jobs|
  {
    if jobs != [] {
      var n := |jobs| - 1;
      RunJobsFrame(s, owner, jobs[..n], resolve, getInstance, k);
      var before := RunJobs(s, owner, jobs[..n], resolve, getInstance);
      PropertyStepSpec(before.state, owner, jobs[n].property, jobs[n].typeName, resolve, getInstance);
    }
  }

  /** Whether an injection succeeds: the resolver finds a class and the factory builds it, whatever the object holds. */
  predicate JobSucceeds(job: Job, resolve: Resolve, getInstance: GetInstance)
  {
    Truthy(resolve(job.typeName)) && getInstance(resolve(job.typeName).value).Ok?
  }

  /** A run completes exactly when every one of its injections succeeds. */
  lemma {:induction false} RunJobsSucceeds(s: Slots, owner: string, jobs: seq<Job>,
                                           resolve: Resolve, getInstance: GetInstance)
    ensures RunJobs(s, owner, jobs, resolve, getInstance).failure.None? <==>
      forall i :: 0 <= i < |jobs| ==> JobSucceeds(jobs[i], resolve, getInstance)
    decreases |jobs|
  {
    if jobs != [] {
      var n := |jobs| - 1;
      var init := jobs[..n];
      RunJobsSucceeds(s, owner, init, resolve, getInstance);
      assert forall i :: 0 <= i < n ==> init[i] == jobs[i];
      var before := RunJobs(s, owner, init, resolve, getInstance);
      assert RunJobs(s, owner, jobs, resolve, getInstance).failure.None? <==>
        before.failure.None? && JobSucceeds(jobs[n], resolve, getInstance);
    }
  }

  /**
   * A failed run reports the error of its first failing injection and leaves
   * the object as the injections before it left it.
   */
  lemma RunJobsFirstFailure(s: Slots, owner: string, jobs: seq<Job>, k: nat,
                            resolve: Resolve, getInstance: GetInstance)
    requires k < |jobs|
    requires forall i :: 0 <= i < k ==> JobSucceeds(jobs[i], resolve, getInstance)
    requires !JobSucceeds(jobs[k], resolve, getInstance)
    ensures var before := RunJobs(s, owner, jobs[..k], resolve, getInstance);
      && PropertyStep(before.state, owner, jobs[k].property, jobs[k].typeName, resolve, getInstance).Err?
      && RunJobs(s, owner, jobs, resolve, getInstance) ==
         Run(before.state, Some(PropertyStep(before.state, owner, jobs[k].property, jobs[k].typeName,
                                             resolve, getInstance).error))
  {
    var init := jobs[..k];
    assert forall i :: 0 <= i < k ==> init[i] == jobs[i];
    RunJobsSucceeds(s, owner, init, resolve, getInstance);
    var upTo := jobs[..k + 1];
    assert upTo[..k] == init;
    var later := jobs[k + 1..];
    assert upTo + later == jobs;
    RunJobsStops(s, owner, upTo, later, resolve, getInstance);
  }

  /**
   * After a run that completes, the property of an injection that no later
   * injection overwrites holds the factory's instance of the resolved class:
   * in the declared property if the class declares it, else in a dynamic one.
   */
  lemma {:induction false} RunJobsAssigns(s: Slots, owner: string, jobs: seq<Job>, j: nat,
                                          resolve: Resolve, getInstance: GetInstance)
    requires j < |jobs|
    requires RunJobs(s, owner, jobs, resolve, getInstance).failure.None?
    requires forall i :: j < i < |jobs| ==> jobs[i].property != jobs[j].property
    ensures JobSucceeds(jobs[j], resolve, getInstance)
    ensures var after := RunJobs(s, owner, jobs, resolve, getInstance).state;
      var p := jobs[j].property;
      var v := getInstance(resolve(jobs[j].typeName).value).value;
      && (p in s.declared ==> p in after.declared && after.declared[p] == v)
      && (p !in s.declared ==> p in after.dynamic && after.dynamic[p] == v)
    decreases |jobs|
  {
    var n := |jobs| - 1;
    var init := jobs[..n];
    RunJobsLast(s, owner, jobs, resolve, getInstance);
    var before := RunJobs(s, owner, init, resolve, getInstance);
    var v := getInstance(resolve(jobs[n].typeName).value).value;
    if j < n {
      assert forall i :: j < i < n ==> init[i] == jobs[i];
      RunJobsAssigns(s, owner, init, j, resolve, getInstance);
      AssignElsewhere(before.state, jobs[n].property, v, jobs[j].property);
    } else {
      AssignHere(before.state, jobs[n].property, v);
    }
  }

  /** A completed run is the completed run of all but its last job, followed by that job's assignment. */
  lemma RunJobsLast(s: Slots, owner: string, jobs: seq<Job>, resolve: Resolve, getInstance: GetInstance)
    requires jobs != [] && RunJobs(s, owner, jobs, resolve, getInstance).failure.None?
    ensures var n := |jobs| - 1;
      var before := RunJobs(s, owner, jobs[..n], resolve, getInstance);
      && before.failure.None?
      && JobSucceeds(jobs[n], resolve, getInstance)
      && RunJobs(s, owner, jobs, resolve, getInstance).state ==
         before.state.Assign(jobs[n].property, getInstance(resolve(jobs[n].typeName).value).value)
  {
  }

  /** Assigning a property puts the value in the declared slot if there is one, else in a dynamic one. */
  lemma AssignHere(t: Slots, property: string, v: Value)
    ensures property in t.declared ==> property in t.Assign(property, v).declared && t.Assign(property, v).declared[property] == v
    ensures property !in t.declared ==> property in t.Assign(property, v).dynamic && t.Assign(property, v).dynamic[property] == v
  {
  }

  /** Assigning one property leaves every other property as it was. */
  lemma AssignElsewhere(t: Slots, property: string, v: Value, k: string)
    requires k != property
    ensures t.Assign(property, v).SameAt(t, k)
  {
  }

  /** A declared property as reflection reports it: its name, its doc comment, and the `@var` type if any. */
  datatype PropertyDecl = PropertyDecl(name: string, docComment: string, varType: Option<string>)

  /** `injectProperties` takes a property only if it has a `@var` tag and the filter accepts its doc comment. */
  predicate VarEligible(d: PropertyDecl, filter: string -> bool)
  {
    d.varType.Some? && filter(d.docComment)
  }

  /** The injections `injectProperties` performs, in declaration order. */
  function VarJobs(decls: seq<PropertyDecl>, filter: string -> bool): seq<Job>
    decreases |decls|
  {
    if decls == [] then []
    else
      var d := decls[|decls| - 1];
      VarJobs(decls[..|decls| - 1], filter)
        + (if VarEligible(d, filter) then [Job(d.name, d.varType.value)] else [])
  }

  /** The jobs of `injectProperties` are exactly the eligible declarations. */
  lemma {:induction false} VarJobsSelect(decls: seq<PropertyDecl>, filter: string -> bool)
    ensures forall job :: job in VarJobs(decls, filter) ==>
      exists d :: d in decls && VarEligible(d, filter) && job == Job(d.name, d.varType.value)
    ensures forall d :: d in decls && VarEligible(d, filter) ==>
      Job(d.name, d.varType.value) in VarJobs(decls, filter)
    decreases |decls|
  {
    if decls != [] {
      var n := |decls| - 1;
      VarJobsSelect(decls[..n], filter);
      assert decls == decls[..n] + [decls[n]];
    }
  }

  lemma {:induction false} VarJobsAppend(a: seq<PropertyDecl>, b: seq<PropertyDecl>, filter: string -> bool)
    ensures VarJobs(a + b, filter) == VarJobs(a, filter) + VarJobs(b, filter)
    decreases |b|
  {
    if b == [] {
      assert a + b == a;
    } else {
      var n := |b| - 1;
      var ab := a + b;
      assert ab[..|ab| - 1] == a + b[..n];
      assert ab[|ab| - 1] == b[n];
      var last := if VarEligible(b[n], filter) then [Job(b[n].name, b[n].varType.value)] else [];
      assert VarJobs(ab, filter) == VarJobs(a + b[..n], filter) + last;
      assert VarJobs(b, filter) == VarJobs(b[..n], filter) + last;
      VarJobsAppend(a, b[..n], filter);
    }
  }

  lemma VarJobsSnoc(decls: seq<PropertyDecl>, i: nat, filter: string -> bool)
    requires i < |decls|
    ensures VarJobs(decls[..i + 1], filter) == VarJobs(decls[..i], filter) +
      (if VarEligible(decls[i], filter) then [Job(decls[i].name, decls[i].varType.value)] else [])
  {
    assert decls[..i + 1][..i] == decls[..i];
  }

  lemma {:induction false} VarJobsSplit(decls: seq<PropertyDecl>, k: nat, filter: string -> bool)
    requires k <= |decls|
    ensures VarJobs(decls, filter) == VarJobs(decls[..k], filter) + VarJobs(decls[k..], filter)
  {
    var a, b := decls[..k], decls[k..];
    assert a + b == decls;
    VarJobsAppend(a, b, filter);
  }

  lemma VarJobsPrefixFailure(s: Slots, owner: string, decls: seq<PropertyDecl>, k: nat, filter: string -> bool,
                             resolve: Resolve, getInstance: GetInstance)
    requires k <= |decls|
    requires RunJobs(s, owner, VarJobs(decls[..k], filter), resolve, getInstance).failure.Some?
    ensures RunJobs(s, owner, VarJobs(decls, filter), resolve, getInstance) ==
            RunJobs(s, owner, VarJobs(decls[..k], filter), resolve, getInstance)
  {
    var done, later := VarJobs(decls[..k], filter), VarJobs(decls[k..], filter);
    VarJobsSplit(decls, k, filter);
    RunJobsStops(s, owner, done, later, resolve, getInstance);
  }

  /** A property with no `@var` tag, or one the filter rejects, is left untouched by `injectProperties`. */
  lemma SkippedPropertiesUntouched(s: Slots, owner: string, decls: seq<PropertyDecl>, filter: string -> bool,
                                   resolve: Resolve, getInstance: GetInstance, k: string)
    requires s.Valid()
    requires forall d :: d in decls && d.name == k ==> !VarEligible(d, filter)
    ensures RunJobs(s, owner, VarJobs(decls, filter), resolve, getInstance).state.SameAt(s, k)
  {
    var jobs := VarJobs(decls, filter);
    VarJobsSelect(decls, filter);
    forall j | 0 <= j < |jobs|
      ensures jobs[j].property != k
    {
      assert jobs[j] in jobs;
    }
    RunJobsFrame(s, owner, jobs, resolve, getInstance, k);
  }

  /**
   * The injection of an eligible declaration sits in the job list after those
   * of the declarations before it, and no later job overwrites its property
   * unless a later eligible declaration has the same name.
   */
  lemma VarJobsAt(decls: seq<PropertyDecl>, i: nat, filter: string -> bool)
    requires i < |decls| && VarEligible(decls[i], filter)
    requires forall m :: i < m < |decls| && VarEligible(decls[m], filter) ==> decls[m].name != decls[i].name
    ensures var jobs, k := VarJobs(decls, filter), |VarJobs(decls[..i], filter)|;
      && k < |jobs| && jobs[k] == Job(decls[i].name, decls[i].varType.value)
      && forall m :: k < m < |jobs| ==> jobs[m].property != decls[i].name
  {
    var rest := decls[i + 1..];
    VarJobsSplit(decls, i + 1, filter);
    VarJobsSnoc(decls, i, filter);
    VarJobsSelect(rest, filter);
    var later := VarJobs(rest, filter);
    forall m | 0 <= m < |later|
      ensures later[m].property != decls[i].name
    {
      assert later[m] in later;
      var d :| d in rest && VarEligible(d, filter) && later[m] == Job(d.name, d.varType.value);
      var q :| 0 <= q < |rest| && rest[q] == d;
      assert decls[i + 1 + q] == d;
    }
  }

  /**
   * After `injectProperties` completes, a property with a `@var` tag that the
   * filter accepts holds the factory's instance of the class its tag names.
   */
  lemma EligiblePropertyInjected(s: Slots, owner: string, decls: seq<PropertyDecl>, i: nat,
                                 filter: string -> bool, resolve: Resolve, getInstance: GetInstance)
    requires i < |decls| && VarEligible(decls[i], filter)
    requires forall m :: i < m < |decls| && VarEligible(decls[m], filter) ==> decls[m].name != decls[i].name
    requires RunJobs(s, owner, VarJobs(decls, filter), resolve, getInstance).failure.None?
    ensures JobSucceeds(Job(decls[i].name, decls[i].varType.value), resolve, getInstance)
    ensures var after := RunJobs(s, owner, VarJobs(decls, filter), resolve, getInstance).state;
      var p := decls[i].name;
      var v := getInstance(resolve(decls[i].varType.value).value).value;
      && (p in s.declared ==> p in after.declared && after.declared[p] == v)
      && (p !in s.declared ==> p in after.dynamic && after.dynamic[p] == v)
  {
    VarJobsAt(decls, i, filter);
    RunJobsAssigns(s, owner, VarJobs(decls, filter), |VarJobs(decls[..i], filter)|, resolve, getInstance);
  }

  /**
   * `injectProperties`: for every declared property with a `@var` tag whose
   * doc comment the filter accepts, injects an instance of the named class;
   * stops at the first failure.
   */
  method InjectProperties(obj: Instance, decls: seq<PropertyDecl>, filter: string -> bool,
                          resolve: Resolve, getInstance: GetInstance)
    returns (failure: Option<Error>)
    modifies obj
    ensures Run(obj.State(), failure) ==
      RunJobs(old(obj.State()), obj.className, VarJobs(decls, filter), resolve, getInstance)
  {
    failure := None;
    var i := 0;
    while i < |decls|
      invariant 0 <= i <= |decls|
      invariant failure.None?
      invariant Run(obj.State(), None) ==
        RunJobs(old(obj.State()), obj.className, VarJobs(decls[..i], filter), resolve, getInstance)
    {
      var property := decls[i];
      VarJobsSnoc(decls, i, filter);
      if property.varType.None? || !filter(property.docComment) {
        assert VarJobs(decls[..i + 1], filter) == VarJobs(decls[..i], filter);
        i := i + 1;
        continue;
      }
      RunJobsSnoc(old(obj.State()), obj.className, VarJobs(decls[..i], filter),
                  Job(property.name, property.varType.value), resolve, getInstance);
      failure := InjectProperty(property.name, obj, resolve, property.varType.value, getInstance);
      if failure.Some? {
        VarJobsPrefixFailure(old(obj.State()), obj.className, decls, i + 1, filter, resolve, getInstance);
        return;
      }
      i := i + 1;
    }
    assert decls[..i] == decls;
  }

  /** A `@property <type> <name>` line of the class doc comment: the matched text and its two captures. */
  datatype Annotation = Annotation(text: string, typeName: string, property: string)

  /** `injectPropertyAnnotations` takes a line only if the filter accepts its trimmed text. */
  predicate AnnotationEligible(a: Annotation, filter: string -> bool)
  {
    filter(Trim(a.text, Whitespace))
  }

  /** The injections `injectPropertyAnnotations` performs, in the order of the doc comment. */
  function AnnotationJobs(anns: seq<Annotation>, filter: string -> bool): seq<Job>
    decreases |anns|
  {
    if anns == [] then []
    else
      var a := anns[|anns| - 1];
      AnnotationJobs(anns[..|anns| - 1], filter)
        + (if AnnotationEligible(a, filter) then [Job(a.property, a.typeName)] else [])
  }

  /** The jobs of `injectPropertyAnnotations` are exactly the lines the filter accepts. */
  lemma {:induction false} AnnotationJobsSelect(anns: seq<Annotation>, filter: string -> bool)
    ensures forall job :: job in AnnotationJobs(anns, filter) ==>
      exists a :: a in anns && AnnotationEligible(a, filter) && job == Job(a.property, a.typeName)
    ensures forall a :: a in anns && AnnotationEligible(a, filter) ==>
      Job(a.property, a.typeName) in AnnotationJobs(anns, filter)
    decreases |anns|
  {
    if anns != [] {
      var n := |anns| - 1;
      AnnotationJobsSelect(anns[..n], filter);
      assert anns == anns[..n] + [anns[n]];
    }
  }

  lemma {:induction false} AnnotationJobsAppend(a: seq<Annotation>, b: seq<Annotation>, filter: string -> bool)
    ensures AnnotationJobs(a + b, filter) == AnnotationJobs(a, filter) + AnnotationJobs(b, filter)
    decreases |b|
  {
    if b == [] {
      assert a + b == a;
    } else {
      var n := |b| - 1;
      var ab := a + b;
      assert ab[..|ab| - 1] == a + b[..n];
      assert ab[|ab| - 1] == b[n];
      var last := if AnnotationEligible(b[n], filter) then [Job(b[n].property, b[n].typeName)] else [];
      assert AnnotationJobs(ab, filter) == AnnotationJobs(a + b[..n], filter) + last;
      assert AnnotationJobs(b, filter) == AnnotationJobs(b[..n], filter) + last;
      AnnotationJobsAppend(a, b[..n], filter);
    }
  }

  lemma AnnotationJobsSnoc(anns: seq<Annotation>, i: nat, filter: string -> bool)
    requires i < |anns|
    ensures AnnotationJobs(anns[..i + 1], filter) == AnnotationJobs(anns[..i], filter) +
      (if AnnotationEligible(anns[i], filter) then [Job(anns[i].property, anns[i].typeName)] else [])
  {
    assert anns[..i + 1][..i] == anns[..i];
  }

  lemma {:induction false} AnnotationJobsSplit(anns: seq<Annotation>, k: nat, filter: string -> bool)
    requires k <= |anns|
    ensures AnnotationJobs(anns, filter) == AnnotationJobs(anns[..k], filter) + AnnotationJobs(anns[k..], filter)
  {
    var a, b := anns[..k], anns[k..];
    assert a + b == anns;
    AnnotationJobsAppend(a, b, filter);
  }

  lemma AnnotationJobsPrefixFailure(s: Slots, owner: string, anns: seq<Annotation>, k: nat, filter: string -> bool,
                                    resolve: Resolve, getInstance: GetInstance)
    requires k <= |anns|
    requires RunJobs(s, owner, AnnotationJobs(anns[..k], filter), resolve, getInstance).failure.Some?
    ensures RunJobs(s, owner, AnnotationJobs(anns, filter), resolve, getInstance) ==
            RunJobs(s, owner, AnnotationJobs(anns[..k], filter), resolve, getInstance)
  {
    var done, later := AnnotationJobs(anns[..k], filter), AnnotationJobs(anns[k..], filter);
    AnnotationJobsSplit(anns, k, filter);
    RunJobsStops(s, owner, done, later, resolve, getInstance);
  }

  /** A property no accepted `@property` line names is left untouched by `injectPropertyAnnotations`. */
  lemma RejectedAnnotationsUntouched(s: Slots, owner: string, anns: seq<Annotation>, filter: string -> bool,
                                     resolve: Resolve, getInstance: GetInstance, k: string)
    requires s.Valid()
    requires forall a :: a in anns && a.property == k ==> !AnnotationEligible(a, filter)
    ensures RunJobs(s, owner, AnnotationJobs(anns, filter), resolve, getInstance).state.SameAt(s, k)
  {
    var jobs := AnnotationJobs(anns, filter);
    AnnotationJobsSelect(anns, filter);
    forall j | 0 <= j < |jobs|
      ensures jobs[j].property != k
    {
      assert jobs[j] in jobs;
    }
    RunJobsFrame(s, owner, jobs, resolve, getInstance, k);
  }

  /**
   * The injection of an accepted line sits in the job list after those of the
   * lines before it, and no later job overwrites its property unless a later
   * accepted line names the same property.
   */
  lemma AnnotationJobsAt(anns: seq<Annotation>, i: nat, filter: string -> bool)
    requires i < |anns| && AnnotationEligible(anns[i], filter)
    requires forall m :: i < m < |anns| && AnnotationEligible(anns[m], filter) ==> anns[m].property != anns[i].property
    ensures var jobs, k := AnnotationJobs(anns, filter), |AnnotationJobs(anns[..i], filter)|;
      && k < |jobs| && jobs[k] == Job(anns[i].property, anns[i].typeName)
      && forall m :: k < m < |jobs| ==> jobs[m].property != anns[i].property
  {
    var rest := anns[i + 1..];
    AnnotationJobsSplit(anns, i + 1, filter);
    AnnotationJobsSnoc(anns, i, filter);
    AnnotationJobsSelect(rest, filter);
    var later := AnnotationJobs(rest, filter);
    forall m | 0 <= m < |later|
      ensures later[m].property != anns[i].property
    {
      assert later[m] in later;
      var a :| a in rest && AnnotationEligible(a, filter) && later[m] == Job(a.property, a.typeName);
      var q :| 0 <= q < |rest| && rest[q] == a;
      assert anns[i + 1 + q] == a;
    }
  }

  /**
   * After `injectPropertyAnnotations` completes, the property of an accepted
   * `@property` line that no later accepted line names holds the factory's
   * instance of the class the line names.
   */
  lemma AcceptedAnnotationInjected(s: Slots, owner: string, anns: seq<Annotation>, i: nat,
                                   filter: string -> bool, resolve: Resolve, getInstance: GetInstance)
    requires i < |anns| && AnnotationEligible(anns[i], filter)
    requires forall m :: i < m < |anns| && AnnotationEligible(anns[m], filter) ==> anns[m].property != anns[i].property
    requires RunJobs(s, owner, AnnotationJobs(anns, filter), resolve, getInstance).failure.None?
    ensures JobSucceeds(Job(anns[i].property, anns[i].typeName), resolve, getInstance)
    ensures var after := RunJobs(s, owner, AnnotationJobs(anns, filter), resolve, getInstance).state;
      var p := anns[i].property;
      var v := getInstance(resolve(anns[i].typeName).value).value;
      && (p in s.declared ==> p in after.declared && after.declared[p] == v)
      && (p !in s.declared ==> p in after.dynamic && after.dynamic[p] == v)
  {
    AnnotationJobsAt(anns, i, filter);
    RunJobsAssigns(s, owner, AnnotationJobs(anns, filter), |AnnotationJobs(anns[..i], filter)|, resolve, getInstance);
  }

  /**
   * `injectPropertyAnnotations`: for every `@property` line of the class doc
   * comment whose trimmed text the filter accepts, injects an instance of the
   * named class; stops at the first failure.
   */
  method InjectPropertyAnnotations(obj: Instance, anns: seq<Annotation>, filter: string -> bool,
                                   resolve: Resolve, getInstance: GetInstance)
    returns (failure: Option<Error>)
    modifies obj
    ensures Run(obj.State(), failure) ==
      RunJobs(old(obj.State()), obj.className, AnnotationJobs(anns, filter), resolve, getInstance)
  {
    failure := None;
    var i := 0;
    while i < |anns|
      invariant 0 <= i <= |anns|
      invariant failure.None?
      invariant Run(obj.State(), None) ==
        RunJobs(old(obj.State()), obj.className, AnnotationJobs(anns[..i], filter), resolve, getInstance)
    {
      var ann := anns[i];
      AnnotationJobsSnoc(anns, i, filter);
      if !filter(Trim(ann.text, Whitespace)) {
        assert AnnotationJobs(anns[..i + 1], filter) == AnnotationJobs(anns[..i], filter);
        i := i + 1;
        continue;
      }
      RunJobsSnoc(old(obj.State()), obj.className, AnnotationJobs(anns[..i], filter),
                  Job(ann.property, ann.typeName), resolve, getInstance);
      failure := InjectProperty(ann.property, obj, resolve, ann.typeName, getInstance);
      if failure.Some? {
        AnnotationJobsPrefixFailure(old(obj.State()), obj.className, anns, i + 1, filter, resolve, getInstance);
        return;
      }
      i := i + 1;
    }
    assert anns[..i] == anns;
  }
}
