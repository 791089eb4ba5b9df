/** The fixed, finite domain an option set draws its options from: a Java
    enum type, reduced to the list of its constants in declaration order. */
module EnumTypes {

  /** No element occurs twice in `s`. */
  predicate Distinct<E(==,!new)>(s: seq<E>) {
    forall i, j | 0 <= i < j < |s| :: s[i] != s[j]
  }

  /** An enumeration type given by its constants in declaration order: the
      order in which `getEnumConstants` lists them and an enum set iterates. */
  datatype EnumType<E(==,!new)> = EnumType(constants: seq<E>)
  {
    /** The constants of one enum type are pairwise distinct. */
    predicate Valid() {
      Distinct(constants)
    }

    /** Every constant of the type, as a set. */
    function Domain(): set<E> {
      set x | x in constants
    }
  }

  /** The members of `opts` that occur in `cs`, listed in the order of `cs`:
      the order in which an enum set over constants `cs` yields `opts`. */
  function InOrder<E(==,!new)>(cs: seq<E>, opts: set<E>): (r: seq<E>)
    ensures forall x :: x in r <==> x in cs && x in opts
    ensures |r| <= |cs|
    decreases |cs|
  {
    if |cs| == 0 then []
    else
      var last := cs[|cs| - 1];
      var init := InOrder(cs[..|cs| - 1], opts);
      if last in opts then init + [last] else init
  }

  /** Filtering a list without repetitions yields a list without repetitions. */
  lemma {:induction false} InOrderDistinct<E(!new)>(cs: seq<E>, opts: set<E>)
    requires Distinct(cs)
    ensures Distinct(InOrder(cs, opts))
  {
    if |cs| > 0 {
      var init := cs[..|cs| - 1];
      var last := cs[|cs| - 1];
      assert Distinct(init) by {
        forall i, j | 0 <= i < j < |init| ensures init[i] != init[j] {
          assert init[i] == cs[i] && init[j] == cs[j];
        }
      }
      InOrderDistinct(init, opts);
      assert last !in init by {
        forall k | 0 <= k < |init| ensures init[k] != last {
          assert init[k] == cs[k];
        }
      }
    }
  }

  /** Filtering keeps the order of `cs`: whatever precedes in the result
      also precedes in `cs`. */
  lemma {:induction false} InOrderKeepsOrder<E(!new)>(cs: seq<E>, opts: set<E>, i: nat, j: nat)
    requires i < j < |InOrder(cs, opts)|
    ensures exists p, q :: 0 <= p < q < |cs| && cs[p] == InOrder(cs, opts)[i] && cs[q] == InOrder(cs, opts)[j]
  {
    var init := cs[..|cs| - 1];
    var last := cs[|cs| - 1];
    var r := InOrder(cs, opts);
    var ri := InOrder(init, opts);
    if j < |ri| {
      InOrderKeepsOrder(init, opts, i, j);
      var p, q :| 0 <= p < q < |init| && init[p] == ri[i] && init[q] == ri[j];
      assert cs[p] == r[i] && cs[q] == r[j];
    } else {
      assert r[j] == last;
      assert r[i] == ri[i] && r[i] in init;
      var p :| 0 <= p < |init| && init[p] == r[i];
      assert cs[p] == r[i] && cs[|cs| - 1] == r[j];
    }
  }

  /** A list without repetitions has as many elements as the set of its elements. */
  lemma {:induction false} DistinctCard<E(!new)>(s: seq<E>)
    requires Distinct(s)
    ensures |set x | x in s| == |s|
  {
    if |s| > 0 {
      var init := s[..|s| - 1];
      var last := s[|s| - 1];
      assert Distinct(init) by {
        forall i, j | 0 <= i < j < |init| ensures init[i] != init[j] {
          assert init[i] == s[i] && init[j] == s[j];
        }
      }
      DistinctCard(init);
      assert last !in init by {
        forall k | 0 <= k < |init| ensures init[k] != last {
          assert init[k] == s[k];
        }
      }
      assert (set x | x in s) == (set x | x in init) + {last};
    }
  }

  /** The set of a list's elements is never larger than the list. */
  lemma {:induction false} SeqSetCard<E(!new)>(s: seq<E>)
    ensures |set x | x in s| <= |s|
  {
    if |s| > 0 {
      var init := s[..|s| - 1];
      SeqSetCard(init);
      assert (set x | x in s) == (set x | x in init) + {s[|s| - 1]};
    }
  }

  /** Filtering a list without repetitions by a set of its elements yields a
      list exactly as long as that set is large. */
  lemma InOrderLength<E(!new)>(cs: seq<E>, opts: set<E>)
    requires Distinct(cs)
    requires forall x | x in opts :: x in cs
    ensures |InOrder(cs, opts)| == |opts|
  {
    var r := InOrder(cs, opts);
    InOrderDistinct(cs, opts);
    DistinctCard(r);
    assert (set x | x in r) == opts;
  }

  /** Selecting every constant yields the constants in declaration order. */
  lemma {:induction false} InOrderAll<E(!new)>(cs: seq<E>, opts: set<E>)
    requires forall x | x in cs :: x in opts
    ensures InOrder(cs, opts) == cs
  {
    if |cs| > 0 {
      InOrderAll(cs[..|cs| - 1], opts);
      assert cs == cs[..|cs| - 1] + [cs[|cs| - 1]];
    }
  }
}
