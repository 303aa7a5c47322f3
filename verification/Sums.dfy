/** Sums of natural numbers over finite sets of identifiers. */
module Sums {
  import opened Collections

  ghost function Sum(s: set<nat>, f: nat -> nat): nat {
    if s == {} then 0 else var x := Least(s); f(x) + Sum(s - {x}, f)
  }

  lemma {:induction false} SumSplit(s: set<nat>, f: nat -> nat, x: nat)
    requires x in s
    ensures Sum(s, f) == f(x) + Sum(s - {x}, f)
  {
    var y := Least(s);
    if x != y {
      SumSplit(s - {y}, f, x);
      SumSplit(s - {x}, f, y);
      assert s - {y} - {x} == s - {x} - {y};
    }
  }

  lemma {:induction false} SumAtMost(s: set<nat>, f: nat -> nat, g: nat -> nat)
    requires forall x :: x in s ==> f(x) <= g(x)
    ensures Sum(s, f) <= Sum(s, g)
  {
    if s != {} { SumAtMost(s - {Least(s)}, f, g); }
  }

  lemma {:induction false} SumSubset(s: set<nat>, t: set<nat>, f: nat -> nat)
    requires s <= t
    ensures Sum(s, f) <= Sum(t, f)
  {
    if s != {} {
      var x := Least(s);
      SumSplit(t, f, x);
      SumSubset(s - {x}, t - {x}, f);
    }
  }

  lemma {:induction false} SumUnion(s: set<nat>, t: set<nat>, f: nat -> nat)
    ensures Sum(s + t, f) <= Sum(s, f) + Sum(t, f)
    ensures s !! t ==> Sum(s + t, f) == Sum(s, f) + Sum(t, f)
  {
    if s == {} {
      assert s + t == t;
    } else {
      var x := Least(s);
      SumUnion(s - {x}, t, f);
      if x in t {
        assert s + t == (s - {x}) + t;
      } else {
        SumSplit(s + t, f, x);
        assert s + t - {x} == (s - {x}) + t;
      }
    }
  }

  lemma {:induction false} SumBounded(s: set<nat>, f: nat -> nat, bound: nat)
    requires forall x :: x in s ==> f(x) <= bound
    ensures Sum(s, f) <= |s| * bound
  {
    if s != {} {
      var rest := s - {Least(s)};
      SumBounded(rest, f, bound);
      OneMore(|rest|, bound);
    }
  }

  lemma OneMore(n: nat, bound: nat)
    ensures (n + 1) * bound == n * bound + bound
  {
  }

  ghost function UnionOf(index: set<nat>, family: nat -> set<nat>): set<nat> {
    set i, x | i in index && x in family(i) :: x
  }

  ghost function SumEach(family: nat -> set<nat>, f: nat -> nat): nat -> nat {
    i => Sum(family(i), f)
  }

  /** A sum over a union is at most the sum of the sums. */
  lemma {:induction false} SumUnionOf(index: set<nat>, family: nat -> set<nat>, f: nat -> nat)
    ensures Sum(UnionOf(index, family), f) <= Sum(index, SumEach(family, f))
  {
    if index == {} {
      assert UnionOf(index, family) == {};
    } else {
      var i := Least(index);
      SumUnionOf(index - {i}, family, f);
      SumUnion(family(i), UnionOf(index - {i}, family), f);
      assert UnionOf(index, family) == family(i) + UnionOf(index - {i}, family);
    }
  }
}
