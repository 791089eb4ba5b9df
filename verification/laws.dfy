/** Properties that relate several option set operations to each other. */
module OptionSetLaws {
  import opened EnumTypes
  import opened OptionSets
  import opened Bulk

  /** Setting an option twice is setting it once. */
  lemma SetIdempotent<E(!new)>(s: OptionSet<E>, option: E)
    requires s.Valid() && option in s.optionType.constants
    ensures Set(Set(s, option), option) == Set(s, option)
  {
  }

  /** The order in which two options are set does not matter. */
  lemma SetCommutes<E(!new)>(s: OptionSet<E>, a: E, b: E)
    requires s.Valid() && a in s.optionType.constants && b in s.optionType.constants
    ensures Set(Set(s, a), b) == Set(Set(s, b), a)
  {
  }

  /** Setting an option grows the size by one exactly when the option was not
      already selected. */
  lemma SizeAfterSet<E(!new)>(s: OptionSet<E>, option: E)
    requires s.Valid() && option in s.optionType.constants
    ensures Size(Set(s, option)) == if IsSet(s, option) then Size(s) else Size(s) + 1
  {
    if !IsSet(s, option) {
      assert Set(s, option).options == s.options + {option};
    }
  }

  /** `setAll` over two arrays with the same elements, in whatever order and
      with whatever repetitions, has the same outcome. */
  lemma SetEachIgnoresOrder<E(!new)>(s: OptionSet<E>, xs: seq<E>, ys: seq<E>)
    requires s.Valid() && AllOfType(s, xs)
    requires forall x :: x in xs <==> x in ys
    ensures SetEach(s, xs) == SetEach(s, ys)
  {
    SetEachIsUnion(s, xs);
    SetEachIsUnion(s, ys);
    assert (set x | x in xs) == (set x | x in ys);
  }

  /** The varargs constructor builds what setting each option in turn onto
      the single-option set builds. */
  lemma OfAllIsSetEach<E(!new)>(t: EnumType<E>, first: E, rest: seq<E>)
    requires t.Valid() && first in t.constants
    requires forall x | x in rest :: x in t.constants
    ensures OfAll(t, first, rest) == SetEach(Of(t, first), rest)
  {
    SetEachIsUnion(Of(t, first), rest);
  }

  /** Setting `first` and then each option of `rest` onto the empty set builds
      what the varargs constructor builds. */
  lemma NoneOfThenSetEach<E(!new)>(t: EnumType<E>, first: E, rest: seq<E>)
    requires t.Valid() && first in t.constants
    requires forall x | x in rest :: x in t.constants
    ensures SetEach(NoneOf(t), [first] + rest) == OfAll(t, first, rest)
  {
    var xs := [first] + rest;
    SetEachIsUnion(NoneOf(t), xs);
    assert (set x | x in xs) == {first} + set x | x in rest;
  }

  /** Writing back an option's own acronym flag changes nothing. */
  lemma SetUseAcronymForRestores<E(!new)>(s: OptionSet<E>, option: E)
    requires s.Valid() && option in s.optionType.constants
    ensures SetUseAcronymFor(s, option, UseAcronymFor(s, option)) == s
  {
  }

  /** Of two flag updates for the same option, the later one wins. */
  lemma SetUseAcronymForLastWins<E(!new)>(s: OptionSet<E>, option: E, first: bool, second: bool)
    requires s.Valid() && option in s.optionType.constants
    ensures SetUseAcronymFor(SetUseAcronymFor(s, option, first), option, second)
         == SetUseAcronymFor(s, option, second)
  {
  }

  /** The outcome of `setAll` with another set does not depend on the
      receiver's own acronym flags: they are all overwritten, including those
      of options the receiver had already selected. */
  lemma SetAllFromOverwritesFlags<E(!new)>(s1: OptionSet<E>, s2: OptionSet<E>, other: OptionSet<E>)
    requires s1.Valid() && s2.Valid() && s1.optionType == s2.optionType
    requires other.Valid() && other.optionType == s1.optionType
    requires forall x :: IsSet(s1, x) == IsSet(s2, x)
    ensures SetAllFrom(s1, other) == SetAllFrom(s2, other)
  {
    SameSelection(s1, s2);
  }

  /** `setAll` with a set selecting nothing new still replaces the flags:
      the result is the receiver exactly when their flags already agree. */
  lemma SetAllFromNothingNew<E(!new)>(s: OptionSet<E>, other: OptionSet<E>)
    requires s.Valid() && other.Valid() && other.optionType == s.optionType
    requires forall x | IsSet(other, x) :: IsSet(s, x)
    ensures SetAllFrom(s, other) == s <==> s.useAcronym == other.useAcronym
  {
    forall x | x in other.options ensures x in s.options {
      assert IsSet(other, x);
    }
    assert s.options + other.options == s.options;
  }

  /** `setAll` with itself changes nothing. */
  lemma SetAllFromSelf<E(!new)>(s: OptionSet<E>)
    requires s.Valid()
    ensures SetAllFrom(s, s) == s
  {
  }

  /** Equality is reflexive. */
  lemma EqualsReflexive<E(!new)>(s: OptionSet<E>)
    ensures Equals(s, DefaultOptionSetObject(s))
  {
  }

  /** Equality between option sets is symmetric. */
  lemma EqualsSymmetric<E(!new)>(a: OptionSet<E>, b: OptionSet<E>)
    ensures Equals(a, DefaultOptionSetObject(b)) == Equals(b, DefaultOptionSetObject(a))
  {
  }

  /** Equality between option sets is transitive. */
  lemma EqualsTransitive<E(!new)>(a: OptionSet<E>, b: OptionSet<E>, c: OptionSet<E>)
    requires Equals(a, DefaultOptionSetObject(b)) && Equals(b, DefaultOptionSetObject(c))
    ensures Equals(a, DefaultOptionSetObject(c))
  {
  }

  /** Equality holds exactly when the selected sets agree, whatever the acronym
      flags of either side. */
  lemma EqualsIgnoresFlags<E(!new)>(a: OptionSet<E>, b: OptionSet<E>)
    ensures Equals(a, DefaultOptionSetObject(b)) <==> a.options == b.options
    ensures Equals(a, DefaultOptionSetObject(b)) == Equals(a.(useAcronym := {}), DefaultOptionSetObject(b.(useAcronym := {})))
  {
  }

  /** Changing an acronym flag never changes what a set is equal to. */
  lemma FlagUpdatePreservesEquality<E(!new)>(s: OptionSet<E>, option: E, flag: bool, o: Object<E>)
    requires s.Valid() && option in s.optionType.constants
    ensures Equals(SetUseAcronymFor(s, option, flag), o) == Equals(s, o)
    ensures Equals(SetUseAcronymForAll(s, flag), o) == Equals(s, o)
  {
    SameSelection(s, SetUseAcronymFor(s, option, flag));
    SameSelection(s, SetUseAcronymForAll(s, flag));
  }

  /** Two sets built from the same options, in any order and with any
      repetitions, are equal; a set that lacks an option the other selects is
      not. */
  lemma EqualsBuiltFromSameOptions<E(!new)>(t: EnumType<E>, first1: E, rest1: seq<E>, first2: E, rest2: seq<E>)
    requires t.Valid() && first1 in t.constants && first2 in t.constants
    requires forall x | x in rest1 :: x in t.constants
    requires forall x | x in rest2 :: x in t.constants
    ensures Equals(OfAll(t, first1, rest1), DefaultOptionSetObject(OfAll(t, first2, rest2)))
        <==> forall x :: (x == first1 || x in rest1) <==> (x == first2 || x in rest2)
  {
    var a := OfAll(t, first1, rest1);
    var b := OfAll(t, first2, rest2);
    if forall x :: (x == first1 || x in rest1) <==> (x == first2 || x in rest2) {
      forall x ensures IsSet(a, x) == IsSet(b, x) {
      }
    }
  }

  /** No default option set equals an object of another class. */
  lemma NotEqualToOtherObjects<E(!new)>(s: OptionSet<E>)
    ensures !Equals(s, OtherObject)
  {
  }

  /** An example over constants A, B, C: built with A, then B and C
      set, all three are selected; flagging B leaves A and C unflagged. */
  lemma Example()
    ensures var t := EnumType(['A', 'B', 'C']);
            var s := SetEach(Of(t, 'A'), ['B', 'C']);
            var f := SetUseAcronymFor(s, 'B', true);
            && Size(s) == 3
            && IsSet(s, 'A') && IsSet(s, 'B') && IsSet(s, 'C')
            && UseAcronymFor(f, 'B') && !UseAcronymFor(f, 'A') && !UseAcronymFor(f, 'C')
  {
    var t := EnumType(['A', 'B', 'C']);
    assert t.Valid() by {
      forall i, j | 0 <= i < j < 3 ensures t.constants[i] != t.constants[j] {
      }
    }
    var s0 := Of(t, 'A');
    assert s0.options == {'A'};
    SetEachIsUnion(s0, ['B', 'C']);
    var s := SetEach(s0, ['B', 'C']);
    assert (set x | x in ['B', 'C']) == {'B', 'C'};
    assert s.options == {'A', 'B', 'C'};
    assert |s.options| == 3;
  }
}
