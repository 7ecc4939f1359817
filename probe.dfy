/** The capability probe run once by HermesClassManager(Class proxyClass): does the
    candidate proxy type declare the two reload hooks, and a constructor the manager
    could build proxies with? */
module Capability {
  import opened Reflect

  const GetHookName := "__getReloadTarget__"
  const SetHookName := "__setReloadTarget__"

  /** The final fields the constructor settles: the proxy type, whether a registry
      (the WeakHashMap objectRefs) is created, the two proxy constructors and the two
      hook handles. None stands for Java's null. */
  datatype ProxySetup = ProxySetup(
    proxyClass: Option<Class>,
    registry: bool,
    constructorWithNoArgs: Option<Ctor>,
    constructorWithObject: Option<Ctor>,
    getTargetMethod: Option<MethodSig>,
    setTargetMethod: Option<MethodSig>)

  /** Every field null: what HermesClassManager() sets, and the probe's fallback. */
  const NoProxy := ProxySetup(None, false, None, None, None, None)

  /** p declares __getReloadTarget__() and __setReloadTarget__(Object). */
  ghost predicate HasHooks(p: Class)
  {
    (exists m :: m in p.methods && m.name == GetHookName && m.params == []) &&
    (exists m :: m in p.methods && m.name == SetHookName && m.params == [ObjectType])
  }

  /** p declares a constructor taking no arguments. */
  ghost predicate HasNoArgCtor(p: Class)
  {
    exists c :: c in p.ctors && c.params == []
  }

  /** p declares a constructor taking one Object. */
  ghost predicate HasObjectCtor(p: Class)
  {
    exists c :: c in p.ctors && c.params == [ObjectType]
  }

  /** The probe. A missing hook makes the candidate unusable and every field null. With
      both hooks the proxy type is kept and a registry created; the hook handles and
      proxy constructors are kept only when at least one proxy constructor exists, and
      otherwise all four stay null while the proxy type and registry remain. */
  function Probe(p: Class): (r: ProxySetup)
    ensures r.proxyClass.Some? <==> HasHooks(p)
    ensures r.proxyClass.Some? ==> r.proxyClass.value == p
    ensures r.registry <==> r.proxyClass.Some?
    ensures !HasHooks(p) ==> r == NoProxy
    ensures r.getTargetMethod.Some? <==> HasHooks(p) && (HasNoArgCtor(p) || HasObjectCtor(p))
    ensures r.setTargetMethod.Some? <==> r.getTargetMethod.Some?
    ensures r.getTargetMethod.Some? ==>
              r.getTargetMethod.value in p.methods &&
              r.getTargetMethod.value.name == GetHookName && r.getTargetMethod.value.params == []
    ensures r.setTargetMethod.Some? ==>
              r.setTargetMethod.value in p.methods &&
              r.setTargetMethod.value.name == SetHookName && r.setTargetMethod.value.params == [ObjectType]
    ensures r.constructorWithNoArgs.Some? <==> HasHooks(p) && HasNoArgCtor(p)
    ensures r.constructorWithNoArgs.Some? ==>
              r.constructorWithNoArgs.value in p.ctors && r.constructorWithNoArgs.value.params == []
    ensures r.constructorWithObject.Some? <==> HasHooks(p) && HasObjectCtor(p)
    ensures r.constructorWithObject.Some? ==>
              r.constructorWithObject.value in p.ctors && r.constructorWithObject.value.params == [ObjectType]
  {
    // The first lookup of both hooks: NoSuchMethodException clears the proxy type.
    if FindMethod(p.methods, GetHookName, []).None? || FindMethod(p.methods, SetHookName, [ObjectType]).None? then
      NoProxy
    else
      var noArgs := FindCtor(p.ctors, []);
      var withObject := FindCtor(p.ctors, [ObjectType]);
      if noArgs.Some? || withObject.Some? then
        // The hooks are looked up a second time; the lookup repeats the first one, so
        // the fallback that clears every field is not reached.
        match (FindMethod(p.methods, GetHookName, []), FindMethod(p.methods, SetHookName, [ObjectType]))
        case (Some(getHook), Some(setHook)) =>
          ProxySetup(Some(p), true, noArgs, withObject, Some(getHook), Some(setHook))
        case _ => NoProxy
      else
        ProxySetup(Some(p), true, None, None, None, None)
  }
}
