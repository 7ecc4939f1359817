/** The constructor catalogue: a type's declared constructors grouped by
    parameter count. A LinkedHashMap<Integer, Constructor[]> is modelled as a
    sequence of (arity, group) entries in insertion order; its get is Lookup. */
module Catalogue {
  import opened Reflect

  type Catalogue = seq<(nat, seq<Ctor>)>

  // ---------------------------------------------------------------------------
  // Reference definitions

  /** The parameter count of each constructor, in declaration order. */
  function Arities(cs: seq<Ctor>): (r: seq<nat>)
    ensures |r| == |cs|
  {
    if cs == [] then [] else Arities(cs[..|cs| - 1]) + [|cs[|cs| - 1].params|]
  }

  /** The constructors of arity k, in declaration order. */
  function OfArity(cs: seq<Ctor>, k: nat): (r: seq<Ctor>)
    ensures forall c :: c in r ==> c in cs && |c.params| == k
  {
    if cs == [] then []
    else OfArity(cs[..|cs| - 1], k) + (if |cs[|cs| - 1].params| == k then [cs[|cs| - 1]] else [])
  }

  /** The elements of xs without repetitions, each at the place of its first occurrence. */
  function Distinct(xs: seq<nat>): (r: seq<nat>)
  {
    if xs == [] then []
    else
      var d := Distinct(xs[..|xs| - 1]);
      if xs[|xs| - 1] in d then d else d + [xs[|xs| - 1]]
  }

  /** The index of the first occurrence of x in xs. */
  function IndexOf(xs: seq<nat>, x: nat): (r: nat)
    requires x in xs
    ensures r < |xs| && xs[r] == x
    ensures forall k :: 0 <= k < r ==> xs[k] != x
  {
    if xs[0] == x then 0 else 1 + IndexOf(xs[1..], x)
  }

  function Keys(cat: Catalogue): (r: seq<nat>)
    ensures |r| == |cat| && forall i :: 0 <= i < |cat| ==> r[i] == cat[i].0
  {
    seq(|cat|, i requires 0 <= i < |cat| => cat[i].0)
  }

  /** All groups one after the other. */
  function Flatten(cat: Catalogue): (r: seq<Ctor>)
  {
    if cat == [] then [] else Flatten(cat[..|cat| - 1]) + cat[|cat| - 1].1
  }

  /** Every group holds exactly the constructors of its key's arity. */
  ghost predicate GroupsMatch(cat: Catalogue, cs: seq<Ctor>)
  {
    forall i :: 0 <= i < |cat| ==> cat[i].1 == OfArity(cs, cat[i].0)
  }

  /** cat is the catalogue of cs: one entry per distinct arity, in order of first
      occurrence, holding the constructors of that arity in declaration order. */
  ghost predicate IsCatalogueOf(cat: Catalogue, cs: seq<Ctor>)
  {
    Keys(cat) == Distinct(Arities(cs)) && GroupsMatch(cat, cs)
  }

  /** Where key k sits in the map, if anywhere (the first entry with that key). */
  function KeyIndex(cat: Catalogue, k: nat): (r: Option<nat>)
    ensures r.Some? ==> r.value < |cat| && cat[r.value].0 == k
    ensures r.Some? ==> forall j :: 0 <= j < r.value ==> cat[j].0 != k
    ensures r.None? <==> forall j :: 0 <= j < |cat| ==> cat[j].0 != k
  {
    if cat == [] then None
    else if cat[0].0 == k then Some(0)
    else match KeyIndex(cat[1..], k)
      case None => None
      case Some(j) => Some(j + 1)
  }

  /** Map.get(k): the group stored under k, or None (Java's null). */
  function Lookup(cat: Catalogue, k: nat): (r: Option<seq<Ctor>>)
  {
    match KeyIndex(cat, k)
    case None => None
    case Some(i) => Some(cat[i].1)
  }

  // ---------------------------------------------------------------------------
  // collectConstructors

  /** Builds the catalogue of cls's declared constructors: the first loop appends each
      constructor to the list of its arity, creating the list on first sight; the
      second converts each list to an array, keeping keys and order. */
  method CollectConstructors(cls: Class) returns (r: Catalogue)
    ensures Keys(r) == Distinct(Arities(cls.ctors))
    ensures forall i :: 0 <= i < |r| ==> r[i].1 == OfArity(cls.ctors, r[i].0)
  {
    var cs := cls.ctors;
    var groups: Catalogue := [];
    for i := 0 to |cs|
      invariant IsCatalogueOf(groups, cs[..i])
    {
      var c := cs[i];
      var n := |c.params|;
      var at := KeyIndex(groups, n);
      assert cs[..i + 1] == cs[..i] + [c];
      if at.None? {
        AddNewGroup(groups, cs[..i], c);
        groups := groups + [(n, [c])];
      } else {
        AddToGroup(groups, cs[..i], c, at.value);
        groups := groups[at.value := (n, groups[at.value].1 + [c])];
      }
    }
    assert cs[..|cs|] == cs;

    var converted: Catalogue := [];
    for j := 0 to |groups|
      invariant converted == groups[..j]
    {
      var list := groups[j].1;
      converted := converted + [(groups[j].0, list)];
    }
    assert groups[..|groups|] == groups;
    r := converted;
  }

  /** First loop, a constructor whose arity has no list yet: a new entry goes at the end. */
  lemma AddNewGroup(groups: Catalogue, cs: seq<Ctor>, c: Ctor)
    requires IsCatalogueOf(groups, cs)
    requires KeyIndex(groups, |c.params|).None?
    ensures IsCatalogueOf(groups + [(|c.params|, [c])], cs + [c])
  {
    var n := |c.params|;
    AppendStep(cs, c);
    DistinctMembers(Arities(cs));
    assert n !in Keys(groups);
    OfArityEmpty(cs, n);
    var g := groups + [(n, [c])];
    assert Keys(g) == Keys(groups) + [n];
  }

  /** First loop, a constructor whose arity already has a list: it is appended there. */
  lemma AddToGroup(groups: Catalogue, cs: seq<Ctor>, c: Ctor, at: nat)
    requires IsCatalogueOf(groups, cs)
    requires KeyIndex(groups, |c.params|) == Some(at)
    ensures IsCatalogueOf(groups[at := (|c.params|, groups[at].1 + [c])], cs + [c])
  {
    var n := |c.params|;
    AppendStep(cs, c);
    DistinctMembers(Arities(cs));
    assert n in Keys(groups);
    DistinctIsDistinct(Arities(cs));
    var g := groups[at := (n, groups[at].1 + [c])];
    assert Keys(g) == Keys(groups);
    forall i | 0 <= i < |g| ensures g[i].1 == OfArity(cs + [c], g[i].0) {
      if i != at {
        assert Keys(groups)[i] != Keys(groups)[at];
      }
    }
  }

  /** How the reference definitions grow when one constructor is declared after cs. */
  lemma AppendStep(cs: seq<Ctor>, c: Ctor)
    ensures Arities(cs + [c]) == Arities(cs) + [|c.params|]
    ensures forall k :: OfArity(cs + [c], k) == OfArity(cs, k) + (if |c.params| == k then [c] else [])
  {
  }

  // ---------------------------------------------------------------------------
  // Facts about the reference definitions

  lemma {:induction false} AritiesMembers(cs: seq<Ctor>, k: nat)
    ensures k in Arities(cs) <==> exists c :: c in cs && |c.params| == k
  {
    if cs != [] {
      var init := cs[..|cs| - 1];
      AritiesMembers(init, k);
      assert cs == init + [cs[|cs| - 1]];
      forall c | c in cs ensures c in init || c == cs[|cs| - 1] {}
    }
  }

  lemma {:induction false} OfArityEmpty(cs: seq<Ctor>, k: nat)
    ensures OfArity(cs, k) == [] <==> k !in Arities(cs)
  {
    if cs != [] {
      OfArityEmpty(cs[..|cs| - 1], k);
    }
  }

  /** A constructor occurs in the group of its own arity as often as it is declared,
      and in no other group. */
  lemma {:induction false} OfArityCount(cs: seq<Ctor>, k: nat, c: Ctor)
    ensures multiset(OfArity(cs, k))[c] == if |c.params| == k then multiset(cs)[c] else 0
  {
    if cs != [] {
      var init := cs[..|cs| - 1];
      OfArityCount(init, k, c);
      assert cs == init + [cs[|cs| - 1]];
    }
  }

  lemma {:induction false} DistinctMembers(xs: seq<nat>)
    ensures forall x :: x in Distinct(xs) <==> x in xs
  {
    if xs != [] {
      var init := xs[..|xs| - 1];
      DistinctMembers(init);
      assert xs == init + [xs[|xs| - 1]];
    }
  }

  lemma {:induction false} DistinctIsDistinct(xs: seq<nat>)
    ensures forall i, j :: 0 <= i < j < |Distinct(xs)| ==> Distinct(xs)[i] != Distinct(xs)[j]
  {
    if xs != [] {
      DistinctIsDistinct(xs[..|xs| - 1]);
    }
  }

  lemma {:induction false} IndexOfAppend(xs: seq<nat>, y: nat, x: nat)
    requires x in xs
    ensures IndexOf(xs + [y], x) == IndexOf(xs, x)
  {
    if xs[0] != x {
      assert (xs + [y])[1..] == xs[1..] + [y];
      IndexOfAppend(xs[1..], y, x);
    }
  }

  /** The keys of Distinct(xs) come in the order in which they first occur in xs. */
  lemma {:induction false} DistinctFirstOccurrence(xs: seq<nat>)
    ensures forall x :: x in Distinct(xs) ==> x in xs
    ensures forall i, j :: 0 <= i < j < |Distinct(xs)| ==>
              IndexOf(xs, Distinct(xs)[i]) < IndexOf(xs, Distinct(xs)[j])
  {
    DistinctMembers(xs);
    if xs != [] {
      var init, x := xs[..|xs| - 1], xs[|xs| - 1];
      var d := Distinct(init);
      DistinctFirstOccurrence(init);
      DistinctMembers(init);
      assert xs == init + [x];
      var dx := Distinct(xs);
      forall i, j | 0 <= i < j < |dx| ensures IndexOf(xs, dx[i]) < IndexOf(xs, dx[j]) {
        assert dx[i] == d[i];
        IndexOfAppend(init, x, d[i]);
        if j < |d| {
          IndexOfAppend(init, x, d[j]);
        } else {
          FirstOccurrenceAtEnd(init, x);
        }
      }
    }
  }

  lemma FirstOccurrenceAtEnd(xs: seq<nat>, x: nat)
    requires x !in xs
    ensures IndexOf(xs + [x], x) == |xs|
  {
  }

  // ---------------------------------------------------------------------------
  // Facts about a catalogue

  /** Map.get on a catalogue yields the constructors of that arity, or null when
      no constructor has it. */
  lemma CatalogueLookup(cat: Catalogue, cs: seq<Ctor>, k: nat)
    requires IsCatalogueOf(cat, cs)
    ensures Lookup(cat, k) == if k in Arities(cs) then Some(OfArity(cs, k)) else None
  {
    DistinctMembers(Arities(cs));
    assert k in Keys(cat) <==> k in Arities(cs);
  }

  /** Every key is the arity of some declared constructor, and its group is not empty. */
  lemma CatalogueKeysDeclared(cat: Catalogue, cs: seq<Ctor>, i: nat)
    requires IsCatalogueOf(cat, cs) && i < |cat|
    ensures exists c :: c in cs && |c.params| == cat[i].0
    ensures cat[i].1 != []
  {
    DistinctMembers(Arities(cs));
    assert cat[i].0 == Keys(cat)[i];
    AritiesMembers(cs, cat[i].0);
    OfArityEmpty(cs, cat[i].0);
  }

  /** The arity of every declared constructor is a key. */
  lemma CatalogueCoversArities(cat: Catalogue, cs: seq<Ctor>, c: Ctor)
    requires IsCatalogueOf(cat, cs) && c in cs
    ensures exists i :: 0 <= i < |cat| && cat[i].0 == |c.params|
  {
    DistinctMembers(Arities(cs));
    AritiesMembers(cs, |c.params|);
    var i :| 0 <= i < |Keys(cat)| && Keys(cat)[i] == |c.params|;
    assert cat[i].0 == |c.params|;
  }

  /** Keys are pairwise distinct and appear in the order in which their arity first
      occurs among the declared constructors. */
  lemma CatalogueOrder(cat: Catalogue, cs: seq<Ctor>)
    requires IsCatalogueOf(cat, cs)
    ensures forall i, j :: 0 <= i < j < |cat| ==> cat[i].0 != cat[j].0
    ensures forall i :: 0 <= i < |cat| ==> cat[i].0 in Arities(cs)
    ensures forall i, j :: 0 <= i < j < |cat| ==>
              IndexOf(Arities(cs), cat[i].0) < IndexOf(Arities(cs), cat[j].0)
  {
    DistinctIsDistinct(Arities(cs));
    DistinctFirstOccurrence(Arities(cs));
    assert forall i :: 0 <= i < |cat| ==> cat[i].0 == Distinct(Arities(cs))[i];
  }

  /** The catalogue of a constructor list is unique, so computing it twice for the
      same type gives the same groups in the same order. */
  lemma CatalogueUnique(a: Catalogue, b: Catalogue, cs: seq<Ctor>)
    requires IsCatalogueOf(a, cs) && IsCatalogueOf(b, cs)
    ensures a == b
  {
  }

  /** The groups of cat, concatenated, as a function of the keys alone. */
  function FlattenBy(ks: seq<nat>, cs: seq<Ctor>): (r: seq<Ctor>)
  {
    if ks == [] then [] else FlattenBy(ks[..|ks| - 1], cs) + OfArity(cs, ks[|ks| - 1])
  }

  lemma {:induction false} FlattenGroups(cat: Catalogue, cs: seq<Ctor>)
    requires GroupsMatch(cat, cs)
    ensures Flatten(cat) == FlattenBy(Keys(cat), cs)
  {
    if cat != [] {
      var init := cat[..|cat| - 1];
      FlattenGroups(init, cs);
      assert Keys(cat)[..|cat| - 1] == Keys(init);
    }
  }

  lemma {:induction false} FlattenByCount(ks: seq<nat>, cs: seq<Ctor>, c: Ctor)
    requires forall i, j :: 0 <= i < j < |ks| ==> ks[i] != ks[j]
    ensures multiset(FlattenBy(ks, cs))[c] == if |c.params| in ks then multiset(cs)[c] else 0
  {
    if ks != [] {
      var init := ks[..|ks| - 1];
      FlattenByCount(init, cs, c);
      OfArityCount(cs, ks[|ks| - 1], c);
      assert ks == init + [ks[|ks| - 1]];
    }
  }

  /** Every declared constructor is in the catalogue exactly as often as it is declared:
      the groups partition the declaration list. */
  lemma CatalogueExactlyOnce(cat: Catalogue, cs: seq<Ctor>)
    requires IsCatalogueOf(cat, cs)
    ensures multiset(Flatten(cat)) == multiset(cs)
  {
    FlattenGroups(cat, cs);
    DistinctIsDistinct(Arities(cs));
    DistinctMembers(Arities(cs));
    forall c ensures multiset(Flatten(cat))[c] == multiset(cs)[c] {
      FlattenByCount(Keys(cat), cs, c);
      if c in cs {
        AritiesMembers(cs, |c.params|);
      }
    }
  }
}
