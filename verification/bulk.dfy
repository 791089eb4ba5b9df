/** The operations of the option set that walk a sequence of options: the
    three `setAll` overloads, the per-constant flag update, and iteration.
    Each loop is written the way the Java class runs it; its contract ties it
    to a closed form from `OptionSets`. */
module Bulk {
  import opened EnumTypes
  import opened OptionSets

  /** Every element of `xs` is a constant of the type of `s`. */
  predicate AllOfType<E(==,!new)>(s: OptionSet<E>, xs: seq<E>) {
    forall x | x in xs :: x in s.optionType.constants
  }

  /** Calling `set` on each element of `xs`, first to last. */
  function SetEach<E(==,!new)>(s: OptionSet<E>, xs: seq<E>): (r: OptionSet<E>)
    requires s.Valid() && AllOfType(s, xs)
    ensures r.Valid() && r.optionType == s.optionType
    decreases |xs|
  {
    if |xs| == 0 then s
    else Set(SetEach(s, xs[..|xs| - 1]), xs[|xs| - 1])
  }

  /** Setting each element of `xs` in turn is one union: the selection grows
      by exactly the elements of `xs` and no acronym flag moves. */
  lemma {:induction false} SetEachIsUnion<E(!new)>(s: OptionSet<E>, xs: seq<E>)
    requires s.Valid() && AllOfType(s, xs)
    ensures SetEach(s, xs) == s.(options := s.options + set x | x in xs)
    decreases |xs|
  {
    if |xs| > 0 {
      var init := xs[..|xs| - 1];
      SetEachIsUnion(s, init);
      assert (set x | x in xs) == (set x | x in init) + {xs[|xs| - 1]};
    }
  }

  /** `setAll` over an array: `set` on each element in index order. The
      selection becomes the old selection plus the array's elements. */
  method SetAllArray<E(==,!new)>(s: OptionSet<E>, options: seq<E>) returns (r: OptionSet<E>)
    requires s.Valid() && AllOfType(s, options)
    ensures r.Valid() && r.optionType == s.optionType
    ensures forall x :: IsSet(r, x) <==> IsSet(s, x) || x in options
    ensures forall x :: UseAcronymFor(r, x) == UseAcronymFor(s, x)
    ensures r == SetEach(s, options)
  {
    r := s;
    for i := 0 to |options|
      invariant r == SetEach(s, options[..i])
    {
      assert options[..i + 1][..i] == options[..i];
      r := Set(r, options[i]);
    }
    assert options[..|options|] == options;
    SetEachIsUnion(s, options);
  }

  /** `setAll` over a collection, whose iteration order is not known: the
      loop takes the remaining elements in an arbitrary order. Whatever the
      order, the selection becomes the old selection plus the collection's
      elements, and no acronym flag moves. */
  method SetAllCollection<E(==,!new)>(s: OptionSet<E>, options: multiset<E>) returns (r: OptionSet<E>)
    requires s.Valid() && forall x | x in options :: x in s.optionType.constants
    ensures r.Valid() && r.optionType == s.optionType
    ensures forall x :: IsSet(r, x) <==> IsSet(s, x) || x in options
    ensures forall x :: UseAcronymFor(r, x) == UseAcronymFor(s, x)
  {
    r := s;
    var rest := options;
    while rest != multiset{}
      invariant rest <= options
      invariant r.Valid() && r.optionType == s.optionType
      invariant forall x :: IsSet(r, x) ==> IsSet(s, x) || x in options
      invariant forall x :: IsSet(s, x) || x in options ==> IsSet(r, x) || x in rest
      invariant r.useAcronym == s.useAcronym
      decreases |rest|
    {
      var x :| x in rest;
      r := Set(r, x);
      rest := rest - multiset{x};
    }
  }

  /** `setAll` with another option set, as the Java class runs it: one union
      of the selections, then, for every constant in declaration order, the
      other set's acronym flag copied over. The result is `SetAllFrom`. */
  method SetAllOptionSet<E(==,!new)>(s: OptionSet<E>, other: OptionSet<E>) returns (r: OptionSet<E>)
    requires s.Valid() && other.Valid() && other.optionType == s.optionType
    ensures forall x :: IsSet(r, x) <==> IsSet(s, x) || IsSet(other, x)
    ensures forall x :: UseAcronymFor(r, x) == UseAcronymFor(other, x)
    ensures r == SetAllFrom(s, other)
  {
    r := s.(options := s.options + other.options);
    var cs := s.optionType.constants;
    for i := 0 to |cs|
      invariant r.Valid() && r.optionType == s.optionType
      invariant r.options == s.options + other.options
      invariant forall k | 0 <= k < i :: UseAcronymFor(r, cs[k]) == UseAcronymFor(other, cs[k])
    {
      r := SetUseAcronymFor(r, cs[i], UseAcronymFor(other, cs[i]));
    }
    forall x ensures x in r.useAcronym <==> x in other.useAcronym {
      if x in cs {
        var k :| 0 <= k < |cs| && cs[k] == x;
        assert UseAcronymFor(r, cs[k]) == UseAcronymFor(other, cs[k]);
      }
    }
  }

  /** Calling `setUseAcronymFor(o, flag)` on each element `o` of `xs`, first
      to last. */
  function SetUseAcronymForEach<E(==,!new)>(s: OptionSet<E>, xs: seq<E>, flag: bool): (r: OptionSet<E>)
    requires s.Valid() && AllOfType(s, xs)
    ensures r.Valid() && r.optionType == s.optionType
    decreases |xs|
  {
    if |xs| == 0 then s
    else SetUseAcronymFor(SetUseAcronymForEach(s, xs[..|xs| - 1], flag), xs[|xs| - 1], flag)
  }

  /** Flagging each element of `xs` in turn adds (or removes) exactly the
      elements of `xs` to (or from) the flagged set; the selection stays. */
  lemma {:induction false} SetUseAcronymForEachIsUnion<E(!new)>(s: OptionSet<E>, xs: seq<E>, flag: bool)
    requires s.Valid() && AllOfType(s, xs)
    ensures SetUseAcronymForEach(s, xs, flag)
         == s.(useAcronym := if flag then s.useAcronym + (set x | x in xs) else s.useAcronym - (set x | x in xs))
    decreases |xs|
  {
    if |xs| > 0 {
      var init := xs[..|xs| - 1];
      SetUseAcronymForEachIsUnion(s, init, flag);
      assert (set x | x in xs) == (set x | x in init) + {xs[|xs| - 1]};
    }
  }

  /** `setUseAcronymForAll(flag)` has the effect of `setUseAcronymFor(o, flag)`
      for every constant `o` of the type, one after the other. */
  lemma SetUseAcronymForAllIsEach<E(!new)>(s: OptionSet<E>, flag: bool)
    requires s.Valid()
    ensures SetUseAcronymForAll(s, flag) == SetUseAcronymForEach(s, s.optionType.constants, flag)
  {
    var cs := s.optionType.constants;
    SetUseAcronymForEachIsUnion(s, cs, flag);
    assert (set x | x in cs) == s.optionType.Domain();
  }

  /** Iterating an option set: the selected options, each once, in
      declaration order, as many as `Size` counts; a set selecting every
      constant yields the constants exactly as declared. */
  method Iterate<E(==,!new)>(s: OptionSet<E>) returns (r: seq<E>)
    requires s.Valid()
    ensures forall x :: x in r <==> IsSet(s, x)
    ensures Distinct(r)
    ensures |r| == Size(s)
    ensures r == InOrder(s.optionType.constants, s.options)
    ensures (forall x | x in s.optionType.constants :: IsSet(s, x)) ==> r == s.optionType.constants
  {
    var cs := s.optionType.constants;
    r := [];
    for i := 0 to |cs|
      invariant r == InOrder(cs[..i], s.options)
    {
      assert cs[..i + 1][..i] == cs[..i];
      if cs[i] in s.options {
        r := r + [cs[i]];
      }
    }
    assert cs[..|cs|] == cs;
    InOrderDistinct(cs, s.options);
    InOrderLength(cs, s.options);
    if forall x | x in cs :: IsSet(s, x) {
      InOrderAll(cs, s.options);
    }
  }
}
