# DefaultOptionSet in Dafny

A model of unix4j's `DefaultOptionSet`: a mutable set of options drawn
from one Java enum type. It holds two sets. `options` holds the options that
are currently selected. `useAcronym` holds the options, selected or not,
whose string form should use the short acronym instead of the long name.

The project has five modules:

- `EnumTypes` (`enum_type.dfy`) stands in for the enum type. It is the list
  of the type's constants in declaration order, with no constant listed twice.
  That order is the one `getEnumConstants` returns and the one an `EnumSet`
  iterates in. `InOrder` filters a list of constants by a set and keeps their
  order.
- `OptionSets` (`option_set.dfy`) is the option set as a value. It has the
  three constructors, the queries `IsSet`, `UseAcronymFor`, `Size` and
  `IsEmpty`, and the mutators, each written as a function from the old value
  to the new one. It also has `SetAllFrom`, the closed form of
  `setAll(OptionSet)`, and `equals` against an arbitrary object.
- `Bulk` (`bulk.dfy`) holds the loops of the three `setAll` overloads, written
  as the Java class runs them. It also holds `Iterate`, a loop of the model's
  own that stands in for the `EnumSet` iterator the Java class hands out.
  `SetAllArray`, `SetAllOptionSet` and `Iterate` are each tied by their
  contract to a closed form (`SetEach`, `SetAllFrom`, `InOrder`).
  `SetAllCollection` states its outcome option by option, since its order of
  iteration is not known. `Bulk` also has the reference folds `SetEach` (call
  `set` on each element) and `SetUseAcronymForEach` (call `setUseAcronymFor`
  on each element).
- `OptionSetLaws` (`laws.dfy`) holds the lemmas that relate operations:
  idempotence, order independence, flag overwrite, and equality ignoring flags.
- `MutableOptionSets` (`mutable.dfy`) is the class with mutable fields. The
  contract of each constructor and method gives the object's new state as the
  matching `OptionSets` or `Bulk` function of its old state. The three
  `setAll` methods run the `Bulk` loops; the others assign the fields
  directly. The module states copy independence with `fresh` and `old`.

The enum type is not found by reflection. It is passed in as an `EnumType`
value. An option "of type E" is a member of that type's constants. Every
constructor and mutator requires that of its option arguments; in Java the
generic type guarantees it. `IsSet` and `UseAcronymFor` accept any value and
answer false outside the constants, as `EnumSet.contains` does.

Equality follows the source: only the selected sets are compared. Every enum
type is modelled over one shared universe of constants, so two empty sets of
different enum types compare equal. `EnumSet.equals` gives the same answer.
The model assumes that different enum types have disjoint constants, as Java
enum types always do. Nothing in `EnumType` enforces this. Two `EnumType`
values that share constants, or that list the same constants in different
orders, have no Java counterpart.

## Model

| member | source | states |
|---|---|---|
| OptionSets.Of | unix4j-core/unix4j-base/src/main/java/org/unix4j/optset/DefaultOptionSet.java:13-17 | exactly the given option is selected and no option prefers its acronym |
| OptionSets.OfAll | unix4j-core/unix4j-base/src/main/java/org/unix4j/optset/DefaultOptionSet.java:19-23 | an option is selected iff it is `first` or occurs in `rest`; no acronym flags |
| OptionSets.NoneOf | unix4j-core/unix4j-base/src/main/java/org/unix4j/optset/DefaultOptionSet.java:25-29 | nothing is selected and no option prefers its acronym |
| OptionSets.Set | unix4j-core/unix4j-base/src/main/java/org/unix4j/optset/DefaultOptionSet.java:35-47 | the option is selected afterwards; every other option's selection and every acronym flag is unchanged; if it was already selected, the set is returned unchanged |
| OptionSetLaws.SetIdempotent | unix4j-core/unix4j-base/src/main/java/org/unix4j/optset/DefaultOptionSet.java:35-47 | setting an option twice equals setting it once |
| OptionSetLaws.SetCommutes | unix4j-core/unix4j-base/src/main/java/org/unix4j/optset/DefaultOptionSet.java:35-47 | the order in which two options are set does not change the result |
| OptionSetLaws.SizeAfterSet | unix4j-core/unix4j-base/src/main/java/org/unix4j/optset/DefaultOptionSet.java:35-47 | `set` grows the size by one exactly when the option was not selected before |
| Bulk.SetAllArray | unix4j-core/unix4j-base/src/main/java/org/unix4j/optset/DefaultOptionSet.java:58-63 | the index loop calling `set` ends with the old selection plus the array's elements, flags unchanged, equal to the fold `SetEach` |
| Bulk.SetEachIsUnion | unix4j-core/unix4j-base/src/main/java/org/unix4j/optset/DefaultOptionSet.java:58-63 | setting the elements one after another is one union with the elements' set, leaving the flags alone |
| OptionSetLaws.SetEachIgnoresOrder | unix4j-core/unix4j-base/src/main/java/org/unix4j/optset/DefaultOptionSet.java:58-79 | two arrays with the same elements, in any order and with any repetitions, give the same result |
| Bulk.SetAllCollection | unix4j-core/unix4j-base/src/main/java/org/unix4j/optset/DefaultOptionSet.java:74-79 | taking the collection's elements in any order, the selection ends as the old one plus the collection's elements, flags unchanged |
| OptionSets.SetAllFrom | unix4j-core/unix4j-base/src/main/java/org/unix4j/optset/DefaultOptionSet.java:94-100 | the selection becomes the union of both selections; every option's acronym flag becomes the other set's flag |
| Bulk.SetAllOptionSet | unix4j-core/unix4j-base/src/main/java/org/unix4j/optset/DefaultOptionSet.java:94-100 | the union followed by a flag copy for each constant in declaration order yields exactly `SetAllFrom` |
| OptionSetLaws.SetAllFromOverwritesFlags | unix4j-core/unix4j-base/src/main/java/org/unix4j/optset/DefaultOptionSet.java:94-100 | the result does not depend on the receiver's own flags, including those of options it had already selected |
| OptionSetLaws.SetAllFromNothingNew | unix4j-core/unix4j-base/src/main/java/org/unix4j/optset/DefaultOptionSet.java:81-100 | when the other set adds no option, the receiver is still changed unless its flags already equal the other's |
| OptionSetLaws.SetAllFromSelf | unix4j-core/unix4j-base/src/main/java/org/unix4j/optset/DefaultOptionSet.java:94-100 | `setAll` with the set itself changes nothing |
| OptionSets.Size | unix4j-core/unix4j-base/src/main/java/org/unix4j/optset/DefaultOptionSet.java:107-114 | the count is zero iff no option is selected and never exceeds the number of constants (the count of `Iterate` is the same) |
| OptionSets.IsEmpty | unix4j-core/unix4j-base/src/main/java/org/unix4j/optset/DefaultOptionSet.java:116-123 | true iff the size is zero, iff no option is selected |
| Bulk.Iterate | unix4j-core/unix4j-base/src/main/java/org/unix4j/optset/DefaultOptionSet.java:136-144 | iteration yields each selected option exactly once, nothing else, in declaration order, `Size` many; a set selecting every constant yields the constants as declared |
| EnumTypes.InOrderKeepsOrder | unix4j-core/unix4j-base/src/main/java/org/unix4j/optset/DefaultOptionSet.java:136-144 | of two options the iteration yields, the earlier one is also the earlier constant in declaration order |
| OptionSets.Equals | unix4j-core/unix4j-base/src/main/java/org/unix4j/optset/DefaultOptionSet.java:151-159 | true only for a default option set, and then iff both select the same options |
| OptionSetLaws.EqualsIgnoresFlags | unix4j-core/unix4j-base/src/main/java/org/unix4j/optset/DefaultOptionSet.java:151-159 | equality holds iff the selected sets are equal; clearing every flag on both sides does not change it |
| OptionSetLaws.FlagUpdatePreservesEquality | unix4j-core/unix4j-base/src/main/java/org/unix4j/optset/DefaultOptionSet.java:151-159 | changing one or all acronym flags never changes what a set is equal to |
| OptionSetLaws.EqualsBuiltFromSameOptions | unix4j-core/unix4j-base/src/main/java/org/unix4j/optset/DefaultOptionSet.java:19-23 | two sets built by the varargs constructor are equal iff they were given the same options, whatever the order and repetitions |
| OptionSetLaws.EqualsTransitive | unix4j-core/unix4j-base/src/main/java/org/unix4j/optset/DefaultOptionSet.java:151-159 | equality between option sets is transitive |
| OptionSetLaws.NotEqualToOtherObjects | unix4j-core/unix4j-base/src/main/java/org/unix4j/optset/DefaultOptionSet.java:155-158 | an object that is not a default option set is never equal |
| OptionSets.SetUseAcronymFor | unix4j-core/unix4j-base/src/main/java/org/unix4j/optset/DefaultOptionSet.java:206-224 | the option's flag becomes the given value; every other flag and the whole selection are unchanged |
| OptionSetLaws.SetUseAcronymForRestores | unix4j-core/unix4j-base/src/main/java/org/unix4j/optset/DefaultOptionSet.java:206-224 | writing back an option's current flag changes nothing |
| OptionSetLaws.SetUseAcronymForLastWins | unix4j-core/unix4j-base/src/main/java/org/unix4j/optset/DefaultOptionSet.java:206-224 | of two flag updates for one option, only the later one matters |
| OptionSets.SetUseAcronymForAll | unix4j-core/unix4j-base/src/main/java/org/unix4j/optset/DefaultOptionSet.java:188-204 | afterwards an option prefers its acronym iff the flag is true and it is a constant of the type; the selection is unchanged |
| Bulk.SetUseAcronymForAllIsEach | unix4j-core/unix4j-base/src/main/java/org/unix4j/optset/DefaultOptionSet.java:188-224 | setting all flags equals calling `setUseAcronymFor` with the same flag on every constant in turn |
| OptionSetLaws.OfAllIsSetEach | unix4j-core/unix4j-base/src/main/java/org/unix4j/optset/DefaultOptionSet.java:13-23 | the varargs constructor builds what the single-option constructor followed by `set` on each further option builds |
| OptionSetLaws.NoneOfThenSetEach | unix4j-core/unix4j-base/src/main/java/org/unix4j/optset/DefaultOptionSet.java:19-29 | setting `first` and then each option of `rest` onto the empty set builds what the varargs constructor builds from them |
| MutableOptionSets.DefaultOptionSet.Of | unix4j-core/unix4j-base/src/main/java/org/unix4j/optset/DefaultOptionSet.java:13-17 | the new object is valid and its state is `OptionSets.Of(t, option)`: only `option` selected, no acronym flags |
| MutableOptionSets.DefaultOptionSet.OfAll | unix4j-core/unix4j-base/src/main/java/org/unix4j/optset/DefaultOptionSet.java:19-23 | the new object is valid and its state is `OptionSets.OfAll(t, first, rest)`: `first` and the elements of `rest` selected, no acronym flags |
| MutableOptionSets.DefaultOptionSet.NoneOf | unix4j-core/unix4j-base/src/main/java/org/unix4j/optset/DefaultOptionSet.java:25-29 | the new object is valid and its state is `OptionSets.NoneOf(t)`: nothing selected, no acronym flags |
| MutableOptionSets.DefaultOptionSet.Set | unix4j-core/unix4j-base/src/main/java/org/unix4j/optset/DefaultOptionSet.java:44-47 | the object's new state is `OptionSets.Set` of its old state, and the object itself is returned for chaining |
| MutableOptionSets.DefaultOptionSet.SetAllArray | unix4j-core/unix4j-base/src/main/java/org/unix4j/optset/DefaultOptionSet.java:58-63 | the object's new state is the fold `SetEach` of its old state over the array, and the object itself is returned |
| MutableOptionSets.DefaultOptionSet.SetAllCollection | unix4j-core/unix4j-base/src/main/java/org/unix4j/optset/DefaultOptionSet.java:74-79 | afterwards an option is selected iff it was selected before or is in the collection; no acronym flag changes; the object itself is returned |
| MutableOptionSets.DefaultOptionSet.SetAllOptionSet | unix4j-core/unix4j-base/src/main/java/org/unix4j/optset/DefaultOptionSet.java:94-100 | the object's new state is `SetAllFrom` of the old states of the receiver and the argument, including when the argument is the receiver itself; the object itself is returned |
| MutableOptionSets.DefaultOptionSet.SetUseAcronymFor | unix4j-core/unix4j-base/src/main/java/org/unix4j/optset/DefaultOptionSet.java:218-224 | the object's new state is `OptionSets.SetUseAcronymFor` of its old state |
| MutableOptionSets.DefaultOptionSet.SetUseAcronymForAll | unix4j-core/unix4j-base/src/main/java/org/unix4j/optset/DefaultOptionSet.java:198-204 | the object's new state is `OptionSets.SetUseAcronymForAll` of its old state |
| MutableOptionSets.DefaultOptionSet.Copy | unix4j-core/unix4j-base/src/main/java/org/unix4j/optset/DefaultOptionSet.java:174-176 | the copy is a newly allocated object with the same enum type, selection and acronym flags |
| MutableOptionSets.DefaultOptionSet.Clone | unix4j-core/unix4j-base/src/main/java/org/unix4j/optset/DefaultOptionSet.java:161-172 | the clone is a newly allocated object with the same enum type, selection and acronym flags |
| MutableOptionSets.CopyThenSetAll | unix4j-core/unix4j-base/src/main/java/org/unix4j/optset/DefaultOptionSet.java:94-100 | `setAll` on a copy leaves the original and the argument unchanged, and the copy ends as `SetAllFrom` of the two |
| MutableOptionSets.CopyIsIndependent | unix4j-core/unix4j-base/src/main/java/org/unix4j/optset/DefaultOptionSet.java:161-176 | after `copy`, the copy and the original are distinct objects, and each sees only the updates made to it |

The queries `isSet` (lines 102-105) and `useAcronymFor` (lines 183-186) are
the predicates `OptionSets.IsSet` and `OptionSets.UseAcronymFor`. They are
plain membership tests. Most contracts above are stated in their terms; the
others compare the `options` or `useAcronym` fields, or whole values, directly.
The accessor `optionType()` (lines 31-33) is the datatype field of the same
name.

## Left out

- `asSet()` (lines 125-134) returns the live backing set, so changes through
  it show up in the option set. The model has no such alias. The selected
  set is the `options` field of the value, and the class has no method that
  returns it.
- `hashCode` and `toString` are left out. They only delegate to `EnumSet`'s
  own hashing and formatting.
- The iterator is modelled as the sequence `Bulk.Iterate` returns. Its
  `remove` operation is left out.
- The `CloneNotSupportedException` branch of `clone` is left out. The class
  implements `Cloneable`, so that branch cannot be reached.
- Null options and null collections are left out, because Dafny has no null
  values of a type parameter. In Java, a null option makes `set`, the
  constructors, the `setAll` overloads and `setUseAcronymFor(null, true)`
  throw an exception. `isSet(null)` and `useAcronymFor(null)` return false.
  `setUseAcronymFor(null, false)` does nothing. `equals(null)` returns false.
- The reference-identity shortcut at the start of `equals` is not a separate
  branch. An object always has the same selection as itself, so the
  comparison of selections gives the same answer.
- `setAll(OptionSet)` takes any implementation of the option set interface.
  The model takes a default option set of the same enum type. Other
  implementations are not part of this model.
- Reflection (`getDeclaringClass`, `getEnumConstants`, `EnumSet.complementOf`)
  is replaced by the explicit `EnumType` value.
- The `Option` interface (acronyms and long names) is not part of this model.
- Concurrent use is left out. The class does no synchronisation.
