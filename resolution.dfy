/** Overload resolution: which constructor of the current catalogue a runtime
    argument list selects (HermesClassManager.matchConstructor). */
module Resolution {
  import opened Reflect
  import opened Catalogue

  /** group[i] fits the argument types and no constructor before it does. */
  ghost predicate FitsFirst(group: seq<Ctor>, i: int, types: seq<TypeName>,
                            assignable: (seq<TypeName>, seq<TypeName>) -> bool)
  {
    0 <= i < |group| && assignable(group[i].params, types) &&
    forall j :: 0 <= j < i ==> !assignable(group[j].params, types)
  }

  /** The scan over one arity group: the first constructor, in group order, whose
      parameter types are assignable from the argument types. */
  function FirstAssignable(group: seq<Ctor>, types: seq<TypeName>,
                           assignable: (seq<TypeName>, seq<TypeName>) -> bool): (r: Option<Ctor>)
    ensures r.Some? ==> exists i :: FitsFirst(group, i, types, assignable) && group[i] == r.value
    ensures r.None? <==> forall j :: 0 <= j < |group| ==> !assignable(group[j].params, types)
  {
    if group == [] then None
    else if assignable(group[0].params, types) then Some(group[0])
    else
      var r := FirstAssignable(group[1..], types, assignable);
      assert r.Some? ==> exists i :: FitsFirst(group, i, types, assignable) && group[i] == r.value by {
        if r.Some? {
          var i :| FitsFirst(group[1..], i, types, assignable) && group[1..][i] == r.value;
          assert FitsFirst(group, i + 1, types, assignable);
        }
      }
      r
  }

  /** matchConstructor(args): null when no catalogue is installed or no group has
      |args| parameters; for no arguments the group's first entry; otherwise the first
      assignable constructor of the group, where a null argument raises while its
      runtime class is taken. */
  function MatchConstructor(catalogue: Option<Catalogue>, args: seq<Value>,
                            assignable: (seq<TypeName>, seq<TypeName>) -> bool): (r: Result<Option<Ctor>>)
    ensures catalogue.None? ==> r == Ok(None)
    ensures catalogue.Some? && Lookup(catalogue.value, |args|).None? ==> r == Ok(None)
    ensures catalogue.Some? && Lookup(catalogue.value, |args|).Some? && args == [] ==>
              var group := Lookup(catalogue.value, 0).value;
              r == if group == [] then Throws(IndexOutOfBounds) else Ok(Some(group[0]))
    ensures catalogue.Some? && Lookup(catalogue.value, |args|).Some? && args != [] && Null in args ==>
              r == Throws(NullPointer)
    ensures r.Ok? && r.value.Some? ==>
              catalogue.Some? && Lookup(catalogue.value, |args|).Some? &&
              r.value.value in Lookup(catalogue.value, |args|).value
    ensures r.Ok? && r.value.Some? && args != [] ==>
              Null !in args && assignable(r.value.value.params, RuntimeTypes(args))
  {
    if catalogue.None? then Ok(None)
    else match Lookup(catalogue.value, |args|)
      case None => Ok(None)
      case Some(group) =>
        if |args| == 0 then
          (if group == [] then Throws(IndexOutOfBounds) else Ok(Some(group[0])))
        else if Null in args then Throws(NullPointer)
        else Ok(FirstAssignable(group, RuntimeTypes(args), assignable))
  }

  // ---------------------------------------------------------------------------
  // The same choice stated on the declaration list

  /** cs[i] has n parameters and fits the argument types, and no earlier constructor
      with n parameters does. */
  ghost predicate DeclaredFirst(cs: seq<Ctor>, n: nat, i: int, types: seq<TypeName>,
                                assignable: (seq<TypeName>, seq<TypeName>) -> bool)
  {
    0 <= i < |cs| && |cs[i].params| == n && assignable(cs[i].params, types) &&
    forall j :: 0 <= j < i && |cs[j].params| == n ==> !assignable(cs[j].params, types)
  }

  /** The first declared constructor with n parameters whose parameter types are
      assignable from types. */
  function FirstDeclared(cs: seq<Ctor>, n: nat, types: seq<TypeName>,
                         assignable: (seq<TypeName>, seq<TypeName>) -> bool): (r: Option<Ctor>)
    ensures r.Some? ==> exists i :: DeclaredFirst(cs, n, i, types, assignable) && cs[i] == r.value
    ensures r.None? <==> forall c :: c in cs && |c.params| == n ==> !assignable(c.params, types)
  {
    if cs == [] then None
    else if |cs[0].params| == n && assignable(cs[0].params, types) then Some(cs[0])
    else
      var r := FirstDeclared(cs[1..], n, types, assignable);
      assert r.Some? ==> exists i :: DeclaredFirst(cs, n, i, types, assignable) && cs[i] == r.value by {
        if r.Some? {
          var i :| DeclaredFirst(cs[1..], n, i, types, assignable) && cs[1..][i] == r.value;
          assert DeclaredFirst(cs, n, i + 1, types, assignable);
        }
      }
      assert r.None? ==> forall c :: c in cs && |c.params| == n ==> !assignable(c.params, types) by {
        if r.None? {
          forall c | c in cs && |c.params| == n ensures !assignable(c.params, types) {
            if c != cs[0] {
              assert c in cs[1..];
            }
          }
        }
      }
      r
  }

  lemma {:induction false} OfArityConcat(a: seq<Ctor>, b: seq<Ctor>, k: nat)
    ensures OfArity(a + b, k) == OfArity(a, k) + OfArity(b, k)
  {
    if b != [] {
      var init, last := b[..|b| - 1], b[|b| - 1];
      OfArityConcat(a, init, k);
      assert (a + b)[..|a + b| - 1] == a + init;
    } else {
      assert a + b == a;
    }
  }

  lemma {:induction false} FirstAssignableConcat(x: seq<Ctor>, y: seq<Ctor>, types: seq<TypeName>,
                                                 assignable: (seq<TypeName>, seq<TypeName>) -> bool)
    ensures FirstAssignable(x + y, types, assignable) ==
            if FirstAssignable(x, types, assignable).Some? then FirstAssignable(x, types, assignable)
            else FirstAssignable(y, types, assignable)
  {
    if x == [] {
      assert x + y == y;
    } else {
      assert (x + y)[1..] == x[1..] + y;
      FirstAssignableConcat(x[1..], y, types, assignable);
    }
  }

  /** Scanning the arity-n group of the catalogue picks the same constructor as scanning
      the whole declaration list for the first one with n parameters that fits. */
  lemma {:induction false} GroupScanIsDeclarationScan(cs: seq<Ctor>, n: nat, types: seq<TypeName>,
                                                      assignable: (seq<TypeName>, seq<TypeName>) -> bool)
    ensures FirstAssignable(OfArity(cs, n), types, assignable) == FirstDeclared(cs, n, types, assignable)
  {
    if cs != [] {
      var head := [cs[0]];
      assert cs == head + cs[1..];
      OfArityConcat(head, cs[1..], n);
      assert OfArity(head, n) == if |cs[0].params| == n then head else [] by {
        assert head[..0] == [];
      }
      FirstAssignableConcat(OfArity(head, n), OfArity(cs[1..], n), types, assignable);
      GroupScanIsDeclarationScan(cs[1..], n, types, assignable);
    }
  }

  /** matchConstructor on the catalogue of cs, stated on cs itself: never an index
      error; with no arguments the first declared no-argument constructor; with
      arguments, a null one raises when some constructor takes that many parameters,
      and otherwise the first declared constructor of that arity that fits. */
  lemma {:induction false} MatchOnCatalogue(cat: Catalogue, cs: seq<Ctor>, args: seq<Value>,
                         assignable: (seq<TypeName>, seq<TypeName>) -> bool)
    requires IsCatalogueOf(cat, cs)
    ensures var r := MatchConstructor(Some(cat), args, assignable);
            && (|args| !in Arities(cs) ==> r == Ok(None))
            && (|args| in Arities(cs) && args == [] ==> OfArity(cs, 0) != [] && r == Ok(Some(OfArity(cs, 0)[0])))
            && (|args| in Arities(cs) && args != [] && Null in args ==> r == Throws(NullPointer))
            && (args != [] && Null !in args ==>
                  r == Ok(FirstDeclared(cs, |args|, RuntimeTypes(args), assignable)))
  {
    CatalogueLookup(cat, cs, |args|);
    OfArityEmpty(cs, |args|);
    if args != [] && Null !in args {
      GroupScanIsDeclarationScan(cs, |args|, RuntimeTypes(args), assignable);
      if |args| !in Arities(cs) {
        assert OfArity(cs, |args|) == [];
      }
    }
  }
}
