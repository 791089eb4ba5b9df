/** The Java class itself: an object with two mutable sets and a fixed enum
    type. Each method changes the object the way the corresponding function of
    `OptionSets` (or loop of `Bulk`) changes the value it stands for, and
    `Clone` hands out a fresh, independent object. */
module MutableOptionSets {
  import opened EnumTypes
  import OptionSets
  import Bulk

  class DefaultOptionSet<E(==,!new)> {
    const optionType: EnumType<E>
    var options: set<E>
    var useAcronym: set<E>

    /** The value this object currently stands for. */
    function Model(): OptionSets.OptionSet<E>
      reads this
    {
      OptionSets.OptionSet(optionType, options, useAcronym)
    }

    predicate Valid()
      reads this
    {
      Model().Valid()
    }

    constructor Of(t: EnumType<E>, option: E)
      requires t.Valid() && option in t.constants
      ensures Valid() && Model() == OptionSets.Of(t, option)
    {
      optionType := t;
      options := {option};
      useAcronym := {};
    }

    constructor OfAll(t: EnumType<E>, first: E, rest: seq<E>)
      requires t.Valid() && first in t.constants
      requires forall x | x in rest :: x in t.constants
      ensures Valid() && Model() == OptionSets.OfAll(t, first, rest)
    {
      optionType := t;
      options := {first} + set x | x in rest;
      useAcronym := {};
    }

    constructor NoneOf(t: EnumType<E>)
      requires t.Valid()
      ensures Valid() && Model() == OptionSets.NoneOf(t)
    {
      optionType := t;
      options := {};
      useAcronym := {};
    }

    method Set(option: E) returns (self: DefaultOptionSet<E>)
      requires Valid() && option in optionType.constants
      modifies this
      ensures self == this && Valid()
      ensures Model() == OptionSets.Set(old(Model()), option)
    {
      options := options + {option};
      self := this;
    }

    method SetAllArray(xs: seq<E>) returns (self: DefaultOptionSet<E>)
      requires Valid() && Bulk.AllOfType(Model(), xs)
      modifies this
      ensures self == this && Valid()
      ensures Model() == Bulk.SetEach(old(Model()), xs)
    {
      var r := Bulk.SetAllArray(Model(), xs);
      options := r.options;
      useAcronym := r.useAcronym;
      self := this;
    }

    method SetAllCollection(xs: multiset<E>) returns (self: DefaultOptionSet<E>)
      requires Valid() && forall x | x in xs :: x in optionType.constants
      modifies this
      ensures self == this && Valid()
      ensures forall x :: OptionSets.IsSet(Model(), x) <==> OptionSets.IsSet(old(Model()), x) || x in xs
      ensures forall x :: OptionSets.UseAcronymFor(Model(), x) == OptionSets.UseAcronymFor(old(Model()), x)
    {
      var r := Bulk.SetAllCollection(Model(), xs);
      options := r.options;
      useAcronym := r.useAcronym;
      self := this;
    }

    /** `other` may be this very object: its state is read before any write. */
    method SetAllOptionSet(other: DefaultOptionSet<E>) returns (self: DefaultOptionSet<E>)
      requires Valid() && other.Valid() && other.optionType == optionType
      modifies this
      ensures self == this && Valid()
      ensures Model() == OptionSets.SetAllFrom(old(Model()), old(other.Model()))
    {
      var r := Bulk.SetAllOptionSet(Model(), other.Model());
      options := r.options;
      useAcronym := r.useAcronym;
      self := this;
    }

    method SetUseAcronymFor(option: E, flag: bool)
      requires Valid() && option in optionType.constants
      modifies this
      ensures Valid()
      ensures Model() == OptionSets.SetUseAcronymFor(old(Model()), option, flag)
    {
      useAcronym := if flag then useAcronym + {option} else useAcronym - {option};
    }

    method SetUseAcronymForAll(flag: bool)
      requires Valid()
      modifies this
      ensures Valid()
      ensures Model() == OptionSets.SetUseAcronymForAll(old(Model()), flag)
    {
      useAcronym := if flag then useAcronym + (optionType.Domain() - useAcronym) else useAcronym - useAcronym;
    }

    /** A new object with the same enum type and copies of both sets. */
    method Clone() returns (c: DefaultOptionSet<E>)
      requires Valid()
      ensures fresh(c) && c.Valid()
      ensures c.Model() == Model()
    {
      c := new DefaultOptionSet.NoneOf(optionType);
      c.options := options;
      c.useAcronym := useAcronym;
    }

    method Copy() returns (c: DefaultOptionSet<E>)
      requires Valid()
      ensures fresh(c) && c.Valid()
      ensures c.Model() == Model()
    {
      c := Clone();
    }
  }

  /** A copy and its original evolve separately: each sees only its own
      updates, to the selection and to the acronym flags alike. */
  method CopyIsIndependent<E(==,!new)>(a: DefaultOptionSet<E>, x: E, y: E, flag: bool)
    returns (c: DefaultOptionSet<E>)
    requires a.Valid() && x in a.optionType.constants && y in a.optionType.constants
    modifies a
    ensures fresh(c) && c != a
    ensures c.Model() == OptionSets.SetUseAcronymForAll(OptionSets.Set(old(a.Model()), x), flag)
    ensures a.Model() == OptionSets.Set(old(a.Model()), y)
  {
    c := a.Copy();
    var _ := c.Set(x);
    c.SetUseAcronymForAll(flag);
    assert a.Model() == old(a.Model());
    var _ := a.Set(y);
  }

  /** `setAll` on a copy leaves the original as it was, while the copy ends
      with the union of both selections and the other set's flags. */
  method CopyThenSetAll<E(==,!new)>(a: DefaultOptionSet<E>, b: DefaultOptionSet<E>)
    returns (c: DefaultOptionSet<E>)
    requires a.Valid() && b.Valid() && b.optionType == a.optionType
    ensures fresh(c)
    ensures a.Model() == old(a.Model()) && b.Model() == old(b.Model())
    ensures c.Model() == OptionSets.SetAllFrom(a.Model(), b.Model())
  {
    c := a.Copy();
    var _ := c.SetAllOptionSet(b);
  }
}
