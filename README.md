# HermesClassManager, modelled in Dafny

A model of `HermesClassManager`, the hot-swap manager of the hermes library. Callers hold
proxies. The manager keeps the current implementation class, its constructor catalogue,
the proxy type settled by a one-time capability probe, and a registry that maps each live
proxy to the arguments its backing object was built from. `update(newClass)` installs a
new implementation class and re-targets every registered proxy.

Files, one module each:

- `reflect.dfy` (`Reflect`) holds what reflection shows the manager: type names, declared
  constructors and methods, classes, Java references (`Null` or an object with its
  runtime class), and `getDeclaredMethod` / `getDeclaredConstructor` as lookups. The
  routines of `ReflectUtils` and the proxy hooks' failures are function-valued fields of
  a `Runtime` value passed in: `createInstance`, `matchAssignableTypes`, what
  `mergeObject` raises, and what invoking each hook raises.
- `catalogue.dfy` (`Catalogue`) covers `collectConstructors`. Its two loops build a
  `LinkedHashMap`, modelled as a sequence of (arity, group) entries in insertion order.
  The result is specified by reference definitions: the distinct arities in order of
  first occurrence, and each group equal to the declared list filtered to its arity.
  Lemmas prove lookup, coverage, order, uniqueness and "each constructor exactly once".
- `resolution.dfy` (`Resolution`) covers `matchConstructor` as a function of the installed
  catalogue. Lemmas restate its choice on the declaration list itself.
- `probe.dfy` (`Capability`) covers the probe of `HermesClassManager(Class)` as a function
  from the candidate class to the six final fields.
- `manager.dfy` (`Hermes`) holds the class `ClassManager`. The source's final fields are
  `const`, so the mode cannot change after construction. `implementClass` and
  `implementConstructors` are `var`s. `objectRefs` is final in the source (line 22), but
  the `WeakHashMap` it refers to can change, so here it is a `var` holding that map's
  contents. `Valid()` says the proxy fields are
  the probe's outcome and the catalogue always belongs to the current implementation
  class. `Proxy` objects carry the target that the two hooks read and write. `Update`
  assigns the class and catalogue in one step, then sweeps the registry one entry at a
  time (`SweepRegistry`, `SwapEntry`).

Behaviour of the code that the model keeps and that a reader might not expect
from the class's purpose:

- Suppose the candidate has both hooks but neither a no-argument nor an `Object`
  constructor. Then `proxyClass` and the registry stay set, so `isReloadable()` is true,
  while both constructors and both hook handles are null
  (HermesClassManager.java:60-63, 86-97). A later sweep over a non-empty registry would
  dereference the null get-hook handle. `Update` reports that as `Aborted(NullPointer)`.
- A null argument to `matchConstructor` raises `NullPointerException` when its runtime
  class is taken (line 125). It is not treated as an unmatchable slot.
- `createInstance` never consults `matchConstructor`. It hands the arguments to
  `ReflectUtils.createInstance` and wraps the result in a new proxy whenever a proxy type
  is set (lines 136-152). The sweep calls `createInstance`, so what it installs into each
  proxy is itself a proxy wrapping the new target; `Update` states this.
- Nothing in the class inserts into `objectRefs`. Both constructors leave it `None` or
  empty, and `Update` leaves it unchanged. `Update` is nevertheless specified and proved
  for any registry contents.
- The second hook lookup (lines 75-77) repeats the first, which already succeeded. Its
  fallback (lines 78-85) is reached only through a `SecurityException`, which the model
  does not produce.

## Model

| member | source | states |
|---|---|---|
| `Reflect.FindMethod` | src/main/java/com/lvonce/hermes/HermesClassManager.java:45-47 | a method is found iff one with that name and exactly those parameter types is declared, and what is found is such a method |
| `Reflect.FindCtor` | src/main/java/com/lvonce/hermes/HermesClassManager.java:66-72 | a constructor is found iff one with exactly those parameter types is declared, and what is found is such a constructor |
| `Capability.Probe` | src/main/java/com/lvonce/hermes/HermesClassManager.java:43-98 | the proxy type is kept iff both hooks are declared, and then a registry is created; both hook handles are set iff both hooks and at least one proxy constructor exist; each proxy constructor is set iff the hooks exist and it is declared; a missing hook gives all-null fields |
| `Hermes.ClassManager.constructor` | src/main/java/com/lvonce/hermes/HermesClassManager.java:33-41 | no proxy type, no registry, no hooks, no implementation class |
| `Hermes.ClassManager.WithProxy` | src/main/java/com/lvonce/hermes/HermesClassManager.java:43-98 | the final fields are exactly the probe's outcome; a created registry is empty; no implementation class yet |
| `Hermes.ClassManager.IsReloadable` | src/main/java/com/lvonce/hermes/HermesClassManager.java:100-102 | reloadable iff a registry exists, and then the proxy type declares both hooks |
| `Hermes.ClassManager.GetProxyClass` | src/main/java/com/lvonce/hermes/HermesClassManager.java:104-106 | a proxy type is returned iff a registry exists, and it is one whose probe gives the manager's current fields |
| `Hermes.ClassManager.GetImplementClass` | src/main/java/com/lvonce/hermes/HermesClassManager.java:108-110 | an implementation class is returned iff a catalogue is installed, and that catalogue is the class's own |
| `Resolution.MatchConstructor` | src/main/java/com/lvonce/hermes/HermesClassManager.java:112-134 | null without a catalogue or without a group for the argument count; with no arguments the group's first entry; a null argument raises; a chosen constructor is in the group and is assignable from the arguments' runtime classes |
| `Resolution.FirstAssignable` | src/main/java/com/lvonce/hermes/HermesClassManager.java:127-133 | the chosen constructor is assignable and no earlier one in the group is; nothing is chosen iff no constructor in the group is assignable |
| `Resolution.FirstDeclared` | src/main/java/com/lvonce/hermes/HermesClassManager.java:127-133 | reference choice on the declaration list: the first declared constructor with that parameter count that is assignable, and none iff there is no such constructor |
| `Resolution.GroupScanIsDeclarationScan` | src/main/java/com/lvonce/hermes/HermesClassManager.java:127-133 | scanning a catalogue group picks the same constructor as the reference choice on the declaration list |
| `Resolution.MatchOnCatalogue` | src/main/java/com/lvonce/hermes/HermesClassManager.java:112-134 | on the catalogue of a class: null iff no constructor takes that many arguments (or none fits); with no arguments the first declared no-argument constructor; a null argument raises; otherwise the first declared fitting constructor |
| `Hermes.ClassManager.MatchConstructor` | src/main/java/com/lvonce/hermes/HermesClassManager.java:112-134 | null without an implementation class; on the implementation class's catalogue, null iff no constructor takes that many arguments (or none fits); with no arguments the first declared no-argument constructor; a null argument raises; otherwise the first declared fitting constructor, which is declared with as many parameters as arguments |
| `Hermes.ClassManager.CreateInstance` | src/main/java/com/lvonce/hermes/HermesClassManager.java:136-152 | null when no implementation class is set; otherwise the new target, wrapped in a new proxy iff a proxy type is set; an object of the proxy type or of the implementation class accordingly |
| `Catalogue.CollectConstructors` | src/main/java/com/lvonce/hermes/HermesClassManager.java:181-202 | the keys are the distinct parameter counts in order of first occurrence, and each group is the declared constructors of that count in declaration order |
| `Catalogue.AddNewGroup` | src/main/java/com/lvonce/hermes/HermesClassManager.java:186-191 | a constructor of an unseen arity opens a new entry at the end, keeping the catalogue correct for the longer prefix |
| `Catalogue.AddToGroup` | src/main/java/com/lvonce/hermes/HermesClassManager.java:186-191 | a constructor of a seen arity is appended to that entry's list, keeping the catalogue correct for the longer prefix |
| `Catalogue.OfArityCount` | src/main/java/com/lvonce/hermes/HermesClassManager.java:184-191 | a constructor occurs in the group of its own arity as often as it is declared and in no other group |
| `Catalogue.CatalogueLookup` | src/main/java/com/lvonce/hermes/HermesClassManager.java:116-119 | looking up an arity gives the declared constructors of that arity, or null iff no constructor has it |
| `Catalogue.CatalogueKeysDeclared` | src/main/java/com/lvonce/hermes/HermesClassManager.java:183-199 | every key is the parameter count of some declared constructor, and no group is empty |
| `Catalogue.CatalogueCoversArities` | src/main/java/com/lvonce/hermes/HermesClassManager.java:184-191 | every declared constructor's parameter count is a key |
| `Catalogue.CatalogueOrder` | src/main/java/com/lvonce/hermes/HermesClassManager.java:183-199 | keys are pairwise distinct and appear in the order in which their arity first occurs among the declared constructors |
| `Catalogue.DistinctFirstOccurrence` | src/main/java/com/lvonce/hermes/HermesClassManager.java:186-189 | insertion order of a linked map: keys come in the order of their first occurrence |
| `Catalogue.CatalogueExactlyOnce` | src/main/java/com/lvonce/hermes/HermesClassManager.java:184-199 | the groups together hold every declared constructor exactly as often as it is declared |
| `Catalogue.CatalogueUnique` | src/main/java/com/lvonce/hermes/HermesClassManager.java:204-209 | two catalogues of the same class are equal, so updating twice with one class installs the same groupings and order |
| `Hermes.EntryOutcome` | src/main/java/com/lvonce/hermes/HermesClassManager.java:217-224 | an entry is swapped iff neither the get hook, the merge nor the set hook raises, and it then installs the new object; otherwise the reported step and exception are the first raised, and every earlier step succeeded |
| `Hermes.ClassManager.SwapEntry` | src/main/java/com/lvonce/hermes/HermesClassManager.java:215-224 | one entry: its result is the entry outcome for the proxy's old target and createInstance of its arguments; the proxy's target changes only when swapped |
| `Hermes.ClassManager.SweepRegistry` | src/main/java/com/lvonce/hermes/HermesClassManager.java:211-226 | with a get hook set the sweep completes; every registry entry is visited once with its own outcome, a failure on one entry leaves every other entry's outcome unaffected, and a null get hook aborts before any entry changes |
| `Hermes.ClassManager.Update` | src/main/java/com/lvonce/hermes/HermesClassManager.java:204-228 | the new class and its catalogue are installed together and validity is kept; without a proxy type nothing else happens; with a proxy type and hooks the sweep completes; its per-entry outcome as above, with the installed object a proxy wrapping the new target |

## Left out

- The `ReentrantReadWriteLock` (lines 139-147, 207-210) is left out: the model is sequential, and the write at lines 208-209 is one simultaneous assignment.
- `WeakHashMap` reclamation (line 64) is left out: the registry is an ordinary finite map, and entries never disappear on their own.
- Logging (lines 22, 87, 137, 141, 149, 200, 205, 212, 227) and `printStackTrace` (line 223) are left out. The sweep instead returns a per-entry report.
- The commented-out alternative body of `createInstance` (lines 154-178) is left out, because it is not code.
- `ReflectUtils.createInstance`, `matchAssignableTypes` and `mergeObject` are not part of this model. They are function-valued parameters. Construction is a pure function of class and arguments, so two calls with equal inputs give the same reference rather than two fresh objects. `mergeObject` is modelled only by whether it raises, not by the state it copies.
- `Hermes.ClassManager.SwapEntry`: a set hook that raises is assumed to leave the proxy's target unchanged.
- `SecurityException` is left out. At lines 45-47 it is uncaught and would abort the constructor. At lines 66-72 it has the same effect as a missing constructor. At lines 78-85 it would be the only way into that fallback.
- Exceptions that `update` does not catch are left out: any from `ReflectUtils.createInstance`, and any from `mergeObject` other than `ClassCastException`, `IllegalAccessException` and `InvocationTargetException`. The one uncaught exception that is modelled is the `NullPointerException` of a null hook handle.
- A null `newClass` (line 205) cannot be expressed, because classes are non-null values.
- A null `proxyClass` passed to `HermesClassManager(Class)` cannot be expressed either. In the source it raises `NullPointerException` at line 45, when `getDeclaredMethod` is called on it.
- Registering proxies is left out, because the class never writes to `objectRefs`. Registered proxies are `Proxy` objects seen through their hooks, distinct from the `Value` that `createInstance` returns.
- `WeakHashMap` iteration order is left out: the sweep visits entries in an arbitrary order. No entry's outcome depends on another's.
