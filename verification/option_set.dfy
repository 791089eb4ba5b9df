/** An option set as a value: the options currently selected from one enum
    type, and the options whose string form should use the acronym rather
    than the long name. Every mutator of the Java class becomes a function
    from the old value to the new one. */
module OptionSets {
  import opened EnumTypes

  /** `options` holds the selected options; `useAcronym` the options (selected
      or not) that prefer the acronym form. The enum type never changes. */
  datatype OptionSet<E(==,!new)> = OptionSet(optionType: EnumType<E>, options: set<E>, useAcronym: set<E>)
  {
    /** Both sets only ever hold constants of the option type. */
    predicate Valid() {
      && optionType.Valid()
      && options <= optionType.Domain()
      && useAcronym <= optionType.Domain()
    }
  }

  /** True iff `option` is selected. */
  predicate IsSet<E(==,!new)>(s: OptionSet<E>, option: E) {
    option in s.options
  }

  /** True iff `option` prefers its acronym over its long name. */
  predicate UseAcronymFor<E(==,!new)>(s: OptionSet<E>, option: E) {
    option in s.useAcronym
  }

  // ---------------------------------------------------------------------
  // Construction
  // ---------------------------------------------------------------------

  /** The set holding exactly `option`, no acronym preferences. The enum type
      is the option's declaring type. */
  function Of<E(==,!new)>(t: EnumType<E>, option: E): (r: OptionSet<E>)
    requires t.Valid() && option in t.constants
    ensures r.Valid() && r.optionType == t
    ensures forall x :: IsSet(r, x) <==> x == option
    ensures forall x :: !UseAcronymFor(r, x)
  {
    OptionSet(t, {option}, {})
  }

  /** The set holding `first` and every option of `rest` (repetitions
      collapse), no acronym preferences. */
  function OfAll<E(==,!new)>(t: EnumType<E>, first: E, rest: seq<E>): (r: OptionSet<E>)
    requires t.Valid() && first in t.constants
    requires forall x | x in rest :: x in t.constants
    ensures r.Valid() && r.optionType == t
    ensures forall x :: IsSet(r, x) <==> x == first || x in rest
    ensures forall x :: !UseAcronymFor(r, x)
  {
    OptionSet(t, {first} + set x | x in rest, {})
  }

  /** The empty set over enum type `t`, no acronym preferences. */
  function NoneOf<E(==,!new)>(t: EnumType<E>): (r: OptionSet<E>)
    requires t.Valid()
    ensures r.Valid() && r.optionType == t
    ensures forall x :: !IsSet(r, x) && !UseAcronymFor(r, x)
  {
    OptionSet(t, {}, {})
  }

  // ---------------------------------------------------------------------
  // Queries
  // ---------------------------------------------------------------------

  /** The number of selected options: zero exactly when nothing is selected,
      and never more than the enum type has constants. */
  function Size<E(==,!new)>(s: OptionSet<E>): (n: nat)
    ensures n == 0 <==> forall x :: !IsSet(s, x)
    ensures s.Valid() ==> n <= |s.optionType.constants|
  {
    SizeBound(s);
    |s.options|
  }

  /** The selected set is empty exactly when no option is selected, and a
      valid set selects no more options than its type has constants. */
  lemma SizeBound<E(!new)>(s: OptionSet<E>)
    ensures |s.options| == 0 <==> forall x :: !IsSet(s, x)
    ensures s.Valid() ==> |s.options| <= |s.optionType.constants|
  {
    if s.options != {} {
      var x :| x in s.options;
      assert IsSet(s, x);
    }
    if s.Valid() {
      var d := s.optionType.Domain();
      SeqSetCard(s.optionType.constants);
      assert d == s.options + (d - s.options);
    }
  }

  /** True iff no option is selected. */
  function IsEmpty<E(==,!new)>(s: OptionSet<E>): (b: bool)
    ensures b <==> Size(s) == 0
    ensures b <==> forall x :: !IsSet(s, x)
  {
    s.options == {}
  }

  // ---------------------------------------------------------------------
  // Mutators
  // ---------------------------------------------------------------------

  /** Selects `option`. Nothing else changes, and a set that already selects
      `option` is returned as it was. */
  function Set<E(==,!new)>(s: OptionSet<E>, option: E): (r: OptionSet<E>)
    requires s.Valid() && option in s.optionType.constants
    ensures r.Valid() && r.optionType == s.optionType
    ensures IsSet(r, option)
    ensures forall x | x != option :: IsSet(r, x) == IsSet(s, x)
    ensures forall x :: UseAcronymFor(r, x) == UseAcronymFor(s, x)
    ensures IsSet(s, option) ==> r == s
  {
    s.(options := s.options + {option})
  }

  /** Records whether `option` prefers its acronym. Only that one flag
      changes; the selection does not. */
  function SetUseAcronymFor<E(==,!new)>(s: OptionSet<E>, option: E, useAcronym: bool): (r: OptionSet<E>)
    requires s.Valid() && option in s.optionType.constants
    ensures r.Valid() && r.optionType == s.optionType
    ensures UseAcronymFor(r, option) == useAcronym
    ensures forall x | x != option :: UseAcronymFor(r, x) == UseAcronymFor(s, x)
    ensures forall x :: IsSet(r, x) == IsSet(s, x)
  {
    if useAcronym then
      s.(useAcronym := s.useAcronym + {option})
    else
      s.(useAcronym := s.useAcronym - {option})
  }

  /** Gives every constant of the type the acronym preference `useAcronym`
      (adding the complement of the flagged set, or removing a copy of it);
      the selection does not change. */
  function SetUseAcronymForAll<E(==,!new)>(s: OptionSet<E>, useAcronym: bool): (r: OptionSet<E>)
    requires s.Valid()
    ensures r.Valid() && r.optionType == s.optionType
    ensures forall x :: UseAcronymFor(r, x) <==> useAcronym && x in s.optionType.constants
    ensures forall x :: IsSet(r, x) == IsSet(s, x)
  {
    if useAcronym then
      s.(useAcronym := s.useAcronym + (s.optionType.Domain() - s.useAcronym))
    else
      s.(useAcronym := s.useAcronym - s.useAcronym)
  }

  /** The outcome of `setAll` with another option set of the same type: the
      selection grows by the other's selection, and every acronym flag,
      for old and new options alike, is taken over from the other. */
  function SetAllFrom<E(==,!new)>(s: OptionSet<E>, other: OptionSet<E>): (r: OptionSet<E>)
    requires s.Valid() && other.Valid() && other.optionType == s.optionType
    ensures r.Valid() && r.optionType == s.optionType
    ensures forall x :: IsSet(r, x) <==> IsSet(s, x) || IsSet(other, x)
    ensures forall x :: UseAcronymFor(r, x) == UseAcronymFor(other, x)
  {
    OptionSet(s.optionType, s.options + other.options, other.useAcronym)
  }

  // ---------------------------------------------------------------------
  // Equality
  // ---------------------------------------------------------------------

  /** What `equals` may be handed: another default option set, or any other
      object (including other implementations of the option set interface). */
  datatype Object<E(==,!new)> = DefaultOptionSetObject(value: OptionSet<E>) | OtherObject

  /** Two option sets that agree on `IsSet` for every option hold the same
      selected set. */
  lemma SameSelection<E(!new)>(a: OptionSet<E>, b: OptionSet<E>)
    ensures (forall x :: IsSet(a, x) == IsSet(b, x)) <==> a.options == b.options
  {
    if forall x :: IsSet(a, x) == IsSet(b, x) {
      forall x ensures x in a.options <==> x in b.options {
        assert IsSet(a, x) == IsSet(b, x);
      }
    }
  }

  /** Equality with an arbitrary object: true iff it is a default option set
      selecting the same options; acronym flags and the enum type play no
      part (two empty sets are equal whatever their types, as enum sets are). */
  function Equals<E(==,!new)>(s: OptionSet<E>, o: Object<E>): (b: bool)
    ensures b ==> o.DefaultOptionSetObject?
    ensures o.DefaultOptionSetObject? ==> (b <==> forall x :: IsSet(s, x) == IsSet(o.value, x))
  {
    match o
    case DefaultOptionSetObject(other) =>
      SameSelection(s, other);
      s.options == other.options
    case OtherObject => false
  }
}
