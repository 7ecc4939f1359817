/** The slice of the Java runtime the class manager sees: types by name, declared
    constructors and methods as plain data, object references, and the foreign
    helpers (object construction, assignability, state merging, hook invocation)
    as function-valued parameters whose code is not part of this model. */
module Reflect {

  datatype Option<+T> = None | Some(value: T)

  /** A Java type, by its fully qualified name. */
  type TypeName = string

  const ObjectType: TypeName := "java.lang.Object"

  /** A declared constructor: the type declaring it and its parameter types. */
  datatype Ctor = Ctor(declaring: TypeName, params: seq<TypeName>)

  /** A declared method: its name and its parameter types. */
  datatype MethodSig = MethodSig(name: string, params: seq<TypeName>)

  /** A class object as reflection reveals it: its name, its declared constructors in
      the order of the array getDeclaredConstructors returns (Java fixes no particular
      order) and its declared methods. */
  datatype Class = Class(name: TypeName, ctors: seq<Ctor>, methods: seq<MethodSig>)

  /** A Java reference: null, or an object with its runtime class and an identity. */
  datatype Value = Null | Ref(cls: TypeName, id: nat)

  /** The exceptions matchConstructor can raise. */
  datatype Exception =
    | NullPointer          // dereferencing null (an argument, a hook handle)
    | IndexOutOfBounds     // reading element 0 of an empty array

  /** A Java call that returns a value or throws. */
  datatype Result<+T> = Ok(value: T) | Throws(exception: Exception)

  /** The exceptions the update sweep catches for one registry entry. */
  datatype Caught = ClassCast | IllegalAccess | InvocationTarget

  /** The foreign code the manager calls into, one field per external routine:
      - construct: ReflectUtils.createInstance(type, args...)
      - assignable: ReflectUtils.matchAssignableTypes(declared parameter types, runtime argument types)
      - merge: what ReflectUtils.mergeObject(first, second) raises, if anything
      - getFault, setFault: what invoking __getReloadTarget__ or __setReloadTarget__
        on a proxy raises, if anything */
  datatype Runtime<!P> = Runtime(
    construct: (Class, seq<Value>) -> Value,
    assignable: (seq<TypeName>, seq<TypeName>) -> bool,
    merge: (Value, Value) -> Option<Caught>,
    getFault: P -> Option<Caught>,
    setFault: (P, Value) -> Option<Caught>)

  /** The construction helper builds objects of the class it is asked for (or gives null). */
  ghost predicate BuildsRequested<P>(rt: Runtime<P>)
  {
    forall c, args :: rt.construct(c, args).Ref? ==> rt.construct(c, args).cls == c.name
  }

  /** The runtime class of each argument, as args[i].getClass() computes it. */
  function RuntimeTypes(args: seq<Value>): (r: seq<TypeName>)
    requires forall i :: 0 <= i < |args| ==> args[i].Ref?
    ensures |r| == |args|
    ensures forall i :: 0 <= i < |args| ==> r[i] == args[i].cls
  {
    if args == [] then [] else [args[0].cls] + RuntimeTypes(args[1..])
  }

  /** Class.getDeclaredMethod(name, params): the first declared method with that
      name and exactly those parameter types; None stands for NoSuchMethodException. */
  function FindMethod(methods: seq<MethodSig>, name: string, params: seq<TypeName>): (r: Option<MethodSig>)
    ensures r.Some? <==> exists m :: m in methods && m.name == name && m.params == params
    ensures r.Some? ==> r.value in methods && r.value.name == name && r.value.params == params
  {
    if methods == [] then None
    else if methods[0].name == name && methods[0].params == params then Some(methods[0])
    else FindMethod(methods[1..], name, params)
  }

  /** Class.getDeclaredConstructor(params): the declared constructor with exactly
      those parameter types; None stands for NoSuchMethodException. */
  function FindCtor(ctors: seq<Ctor>, params: seq<TypeName>): (r: Option<Ctor>)
    ensures r.Some? <==> exists c :: c in ctors && c.params == params
    ensures r.Some? ==> r.value in ctors && r.value.params == params
  {
    if ctors == [] then None
    else if ctors[0].params == params then Some(ctors[0])
    else FindCtor(ctors[1..], params)
  }
}
