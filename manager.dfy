/** HermesClassManager: holds the current implementation class with its constructor
    catalogue, the proxy type fixed by the probe, and the registry of live proxies
    with the arguments each was built from; update swaps the implementation and
    re-targets every registered proxy. */
module Hermes {
  import opened Reflect
  import opened Catalogue
  import Resolution
  import opened Capability

  /** A live proxy as the manager reaches it through its two hooks: the object that
      __getReloadTarget__ returns and __setReloadTarget__ replaces. */
  class Proxy {
    var target: Value
  }

  /** The steps of one sweep entry that can raise a caught exception. */
  datatype Step = GetTarget | Merge | SetTarget

  /** What the sweep did with one registry entry. */
  datatype EntryResult = Swapped(installed: Value) | Failed(step: Step, raised: Caught)

  /** How update ended: no proxy type so no sweep; a finished sweep with one result per
      registry entry; or a NullPointerException out of the sweep (a null hook handle). */
  datatype Sweep = NotReloadable | Swept(report: map<Proxy, EntryResult>) | Aborted(raised: Exception)

  /** One sweep step on proxy p whose target was oldTarget, with newObject built by
      createInstance: read the old target, merge, install; the first caught exception
      ends the entry and leaves the proxy as it was. */
  function EntryOutcome(rt: Runtime<Proxy>, p: Proxy, oldTarget: Value, newObject: Value): (r: EntryResult)
    ensures r.Swapped? <==>
              rt.getFault(p).None? && rt.merge(newObject, oldTarget).None? && rt.setFault(p, newObject).None?
    ensures r.Swapped? ==> r.installed == newObject
    ensures r.Failed? && r.step == GetTarget ==> Some(r.raised) == rt.getFault(p)
    ensures r.Failed? && r.step == Merge ==> Some(r.raised) == rt.merge(newObject, oldTarget)
    ensures r.Failed? && r.step == SetTarget ==> Some(r.raised) == rt.setFault(p, newObject)
    ensures r.Failed? && r.step != GetTarget ==> rt.getFault(p).None?
    ensures r.Failed? && r.step == SetTarget ==> rt.merge(newObject, oldTarget).None?
  {
    if rt.getFault(p).Some? then Failed(GetTarget, rt.getFault(p).value)
    else if rt.merge(newObject, oldTarget).Some? then Failed(Merge, rt.merge(newObject, oldTarget).value)
    else if rt.setFault(p, newObject).Some? then Failed(SetTarget, rt.setFault(p, newObject).value)
    else Swapped(newObject)
  }

  class ClassManager {
    const proxyClass: Option<Class>
    const constructorWithNoArgs: Option<Ctor>
    const constructorWithObject: Option<Ctor>
    const getTargetMethod: Option<MethodSig>
    const setTargetMethod: Option<MethodSig>
    var objectRefs: Option<map<Proxy, seq<Value>>>
    var implementClass: Option<Class>
    var implementConstructors: Option<Catalogue>

    /** The probe's outcome as it stands in the final fields. */
    function Setup(): (r: ProxySetup)
      reads this
    {
      ProxySetup(proxyClass, objectRefs.Some?, constructorWithNoArgs, constructorWithObject,
                 getTargetMethod, setTargetMethod)
    }

    /** The proxy fields come from the probe (or are all null), and the catalogue is
        always the one computed for the current implementation class. */
    ghost predicate Valid()
      reads this
    {
      (Setup() == NoProxy || (proxyClass.Some? && Setup() == Probe(proxyClass.value))) &&
      (implementClass.Some? <==> implementConstructors.Some?) &&
      (implementClass.Some? ==> IsCatalogueOf(implementConstructors.value, implementClass.value.ctors))
    }

    /** The proxies in the registry (none when there is no registry). */
    function Registered(): (r: set<Proxy>)
      reads this
    {
      if objectRefs.Some? then objectRefs.value.Keys else {}
    }

    /** HermesClassManager(): no proxy type, no registry, no implementation yet. */
    constructor ()
      ensures Valid()
      ensures Setup() == NoProxy && objectRefs.None?
      ensures implementClass.None?
    {
      proxyClass := None;
      objectRefs := None;
      constructorWithNoArgs := None;
      constructorWithObject := None;
      setTargetMethod := None;
      getTargetMethod := None;
      implementClass := None;
      implementConstructors := None;
    }

    /** HermesClassManager(proxyClass): the fields are whatever the probe settles; a
        registry, when created, starts empty. */
    constructor WithProxy(candidate: Class)
      ensures Valid()
      ensures Setup() == Probe(candidate)
      ensures objectRefs == if Probe(candidate).registry then Some(map[]) else None
      ensures implementClass.None?
    {
      var setup := Probe(candidate);
      proxyClass := setup.proxyClass;
      objectRefs := if setup.registry then Some(map[]) else None;
      constructorWithNoArgs := setup.constructorWithNoArgs;
      constructorWithObject := setup.constructorWithObject;
      getTargetMethod := setup.getTargetMethod;
      setTargetMethod := setup.setTargetMethod;
      implementClass := None;
      implementConstructors := None;
    }

    /** isReloadable(): a proxy type is set, which is exactly when a registry exists and
        the candidate declared both hooks. */
    predicate IsReloadable()
      reads this
      requires Valid()
      ensures IsReloadable() <==> objectRefs.Some?
      ensures IsReloadable() ==> HasHooks(proxyClass.value)
    {
      proxyClass.Some?
    }

    /** getProxyClass(): a returned proxy type is one the probe accepted as it stands. */
    function GetProxyClass(): (r: Option<Class>)
      reads this
      requires Valid()
      ensures r.Some? <==> objectRefs.Some?
      ensures r.Some? ==> HasHooks(r.value) && Probe(r.value) == Setup()
    {
      proxyClass
    }

    /** getImplementClass(): the current implementation class, always paired with its
        own catalogue. */
    function GetImplementClass(): (r: Option<Class>)
      reads this
      requires Valid()
      ensures r.Some? <==> implementConstructors.Some?
      ensures r.Some? ==> IsCatalogueOf(implementConstructors.value, r.value.ctors)
    {
      implementClass
    }

    /** matchConstructor(args) on the installed catalogue, stated on the implementation
        class's declared constructors: never an index error; null without an
        implementation class or without a constructor of that many parameters; with no
        arguments the first declared no-argument constructor; a null argument raises;
        otherwise the first declared constructor of that arity that fits. */
    function MatchConstructor(args: seq<Value>, assignable: (seq<TypeName>, seq<TypeName>) -> bool)
      : (r: Result<Option<Ctor>>)
      reads this
      requires Valid()
      ensures r != Throws(IndexOutOfBounds)
      ensures implementClass.None? ==> r == Ok(None)
      ensures r.Ok? && r.value.Some? ==>
                implementClass.Some? && r.value.value in implementClass.value.ctors &&
                |r.value.value.params| == |args|
      ensures implementClass.Some? ==>
                var cs := implementClass.value.ctors;
                && (|args| !in Arities(cs) ==> r == Ok(None))
                && (args == [] && 0 in Arities(cs) ==> OfArity(cs, 0) != [] && r == Ok(Some(OfArity(cs, 0)[0])))
                && (args != [] && |args| in Arities(cs) && Null in args ==> r == Throws(NullPointer))
                && (args != [] && Null !in args ==>
                      r == Ok(Resolution.FirstDeclared(cs, |args|, RuntimeTypes(args), assignable)))
    {
      if implementClass.None? then Resolution.MatchConstructor(implementConstructors, args, assignable)
      else
        Resolution.MatchOnCatalogue(implementConstructors.value, implementClass.value.ctors, args, assignable);
        CatalogueLookup(implementConstructors.value, implementClass.value.ctors, |args|);
        Resolution.MatchConstructor(implementConstructors, args, assignable)
    }

    /** createInstance(args): null with no implementation class; otherwise a new target
        built from args, wrapped in a new proxy exactly when a proxy type is set. */
    function CreateInstance(rt: Runtime<Proxy>, args: seq<Value>): (r: Value)
      reads this
      ensures implementClass.None? ==> r == Null
      ensures implementClass.Some? && proxyClass.None? ==> r == rt.construct(implementClass.value, args)
      ensures implementClass.Some? && proxyClass.Some? ==>
                r == rt.construct(proxyClass.value, [rt.construct(implementClass.value, args)])
      ensures BuildsRequested(rt) && r.Ref? ==>
                implementClass.Some? &&
                r.cls == (if proxyClass.Some? then proxyClass.value.name else implementClass.value.name)
    {
      if implementClass.None? then Null
      else
        var target := rt.construct(implementClass.value, args);
        if proxyClass.Some? then rt.construct(proxyClass.value, [target]) else target
    }

    /** update(newClass): installs newClass with its catalogue in one step; then, when a
        proxy type is set, visits every registry entry once, installing a freshly
        created instance into each proxy whose steps all succeed and leaving any proxy
        whose step raised a caught exception as it was. */
    method Update(newClass: Class, rt: Runtime<Proxy>) returns (sweep: Sweep)
      requires Valid()
      modifies this`implementClass, this`implementConstructors, Registered()
      ensures Valid()
      ensures implementClass == Some(newClass)
      ensures IsCatalogueOf(implementConstructors.value, newClass.ctors)
      ensures objectRefs == old(objectRefs)
      ensures proxyClass.None? <==> sweep == NotReloadable
      ensures proxyClass.Some? && getTargetMethod.None? ==>
                sweep == if Registered() == {} then Swept(map[]) else Aborted(NullPointer)
      ensures proxyClass.Some? && getTargetMethod.Some? ==> sweep.Swept?
      ensures sweep.Swept? ==> sweep.report.Keys == Registered()
      ensures sweep.Swept? ==> forall p :: p in Registered() ==>
                sweep.report[p] == EntryOutcome(rt, p, old(p.target), CreateInstance(rt, objectRefs.value[p]))
      ensures forall p :: p in Registered() ==>
                p.target == if sweep.Swept? && sweep.report[p].Swapped? then sweep.report[p].installed
                            else old(p.target)
      // What the sweep installs is createInstance's result, so a proxy wrapping the new target.
      ensures sweep.Swept? && BuildsRequested(rt) ==> forall p :: p in Registered() ==>
                sweep.report[p].Swapped? && sweep.report[p].installed.Ref? ==>
                sweep.report[p].installed.cls == proxyClass.value.name
    {
      var newConstructors := CollectConstructors(newClass);
      implementClass, implementConstructors := Some(newClass), Some(newConstructors);
      if proxyClass.None? {
        return NotReloadable;
      }
      sweep := SweepRegistry(rt);
    }

    /** The sweep of update over a snapshot of the registry, one entry at a time. */
    method SweepRegistry(rt: Runtime<Proxy>) returns (sweep: Sweep)
      requires objectRefs.Some?
      modifies Registered()
      ensures getTargetMethod.None? ==>
                sweep == if Registered() == {} then Swept(map[]) else Aborted(NullPointer)
      ensures getTargetMethod.Some? ==> sweep.Swept?
      ensures sweep.Swept? ==> sweep.report.Keys == Registered()
      ensures sweep.Swept? ==> forall p :: p in Registered() ==>
                sweep.report[p] == EntryOutcome(rt, p, old(p.target), CreateInstance(rt, objectRefs.value[p]))
      ensures forall p :: p in Registered() ==>
                p.target == if sweep.Swept? && sweep.report[p].Swapped? then sweep.report[p].installed
                            else old(p.target)
    {
      var entries := objectRefs.value;
      var remaining := entries.Keys;
      var report: map<Proxy, EntryResult> := map[];
      while remaining != {}
        modifies entries.Keys
        invariant remaining <= entries.Keys
        invariant report.Keys == entries.Keys - remaining
        invariant getTargetMethod.None? ==> remaining == entries.Keys
        invariant forall p :: p in report ==>
                    report[p] == EntryOutcome(rt, p, old(p.target), CreateInstance(rt, entries[p]))
        invariant forall p :: p in entries.Keys ==>
                    p.target == if p in report && report[p].Swapped? then report[p].installed else old(p.target)
        decreases remaining
      {
        var p :| p in remaining;
        if getTargetMethod.None? {
          return Aborted(NullPointer);
        }
        var result := SwapEntry(p, entries[p], rt);
        report := report[p := result];
        remaining := remaining - {p};
      }
      return Swept(report);
    }

    /** One entry of the sweep: read the proxy's target through the get hook, build a new
        instance from the recorded arguments, merge, install it through the set hook. A
        caught exception at any step leaves the proxy's target as it was. */
    method SwapEntry(p: Proxy, args: seq<Value>, rt: Runtime<Proxy>) returns (result: EntryResult)
      modifies p
      ensures result == EntryOutcome(rt, p, old(p.target), CreateInstance(rt, args))
      ensures p.target == if result.Swapped? then result.installed else old(p.target)
    {
      var getFault := rt.getFault(p);
      if getFault.Some? {
        return Failed(GetTarget, getFault.value);
      }
      var oldObject := p.target;
      var newObject := CreateInstance(rt, args);
      var mergeFault := rt.merge(newObject, oldObject);
      if mergeFault.Some? {
        return Failed(Merge, mergeFault.value);
      }
      var setFault := rt.setFault(p, newObject);
      if setFault.Some? {
        return Failed(SetTarget, setFault.value);
      }
      p.target := newObject;
      return Swapped(newObject);
    }
  }
}
