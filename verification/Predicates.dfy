/** Canonical conjunctions over condition expressions, and when two of them exclude each other. */
module Predicates {
  import opened Options

  datatype Atom = Atom(condition: nat, expected: bool)

  /** What a predicate says: nothing holds it, or every atom has its expected truth value. */
  datatype Conjunction = Impossible | All(atoms: seq<Atom>)

  /** The truth of every condition expression; conditions are independent of each other. */
  type Valuation = nat -> bool

  predicate Sorted(a: seq<Atom>) { forall i, j :: 0 <= i < j < |a| ==> a[i].condition < a[j].condition }

  predicate Canonical(c: Conjunction) { c.All? ==> Sorted(c.atoms) }

  ghost predicate Holds(c: Conjunction, v: Valuation) {
    c.All? && forall i :: 0 <= i < |c.atoms| ==> v(c.atoms[i].condition) == c.atoms[i].expected
  }

  // ----- a conjunction is determined by the valuations that satisfy it

  function Lookup(a: seq<Atom>, condition: nat, other: bool): bool {
    if a == [] then other else if a[0].condition == condition then a[0].expected else Lookup(a[1..], condition, other)
  }

  lemma {:induction false} LookupFinds(a: seq<Atom>, i: nat, other: bool)
    requires Sorted(a) && i < |a|
    ensures Lookup(a, a[i].condition, other) == a[i].expected
  {
    if i > 0 {
      LookupFinds(a[1..], i - 1, other);
    }
  }

  lemma {:induction false} LookupMisses(a: seq<Atom>, condition: nat, other: bool)
    requires forall i :: 0 <= i < |a| ==> a[i].condition != condition
    ensures Lookup(a, condition, other) == other
  {
    if a != [] {
      LookupMisses(a[1..], condition, other);
    }
  }

  /** A satisfying valuation of a sorted list of atoms; conditions it does not mention follow `rest`. */
  function Model(a: seq<Atom>, rest: Valuation): Valuation { (c: nat) => Lookup(a, c, rest(c)) }

  lemma ModelSatisfies(a: seq<Atom>, rest: Valuation)
    requires Sorted(a)
    ensures Holds(All(a), Model(a, rest))
  {
    forall i | 0 <= i < |a|
      ensures Model(a, rest)(a[i].condition) == a[i].expected
    {
      LookupFinds(a, i, rest(a[i].condition));
    }
  }

  lemma ImpliedAtomIsPresent(a: seq<Atom>, b: seq<Atom>, i: nat)
    requires Sorted(a) && i < |b| && forall v :: Holds(All(a), v) ==> Holds(All(b), v)
    ensures b[i] in a
  {
    var rest: Valuation := c => !b[i].expected;
    ModelSatisfies(a, rest);
    var v := Model(a, rest);
    assert Holds(All(b), v) && v(b[i].condition) == b[i].expected;
    if forall j :: 0 <= j < |a| ==> a[j].condition != b[i].condition {
      LookupMisses(a, b[i].condition, !b[i].expected);
      assert false;
    } else {
      var j :| 0 <= j < |a| && a[j].condition == b[i].condition;
      LookupFinds(a, j, !b[i].expected);
      assert a[j] == b[i];
    }
  }

  /** Sorted lists with the same members are equal. */
  lemma {:induction false} SortedMembersUnique(a: seq<Atom>, b: seq<Atom>)
    requires Sorted(a) && Sorted(b) && (forall x :: x in a ==> x in b) && (forall x :: x in b ==> x in a)
    ensures a == b
    decreases |a|
  {
    assert |b| > 0 ==> b[0] in a;
    if a != [] {
      assert a[0] in b && b[0] in a;
      assert a[0] == b[0];
      forall x | x in a[1..]
        ensures x in b[1..]
      {
        assert x in b && x != b[0];
      }
      forall x | x in b[1..]
        ensures x in a[1..]
      {
        assert x in a && x != a[0];
      }
      SortedMembersUnique(a[1..], b[1..]);
      assert a == [a[0]] + a[1..] && b == [b[0]] + b[1..];
    }
  }

  ghost predicate SameMeaning(a: Conjunction, b: Conjunction) { forall v :: Holds(a, v) <==> Holds(b, v) }

  /** Two canonical conjunctions are the same exactly when the same valuations satisfy them. */
  lemma MeaningIsCanonical(a: Conjunction, b: Conjunction)
    requires Canonical(a) && Canonical(b)
    ensures a == b <==> SameMeaning(a, b)
  {
    if SameMeaning(a, b) {
      if a.All? {
        ModelSatisfies(a.atoms, c => true);
      }
      if b.All? {
        ModelSatisfies(b.atoms, c => true);
      }
      if a.All? && b.All? {
        forall x | x in a.atoms
          ensures x in b.atoms
        {
          var i :| 0 <= i < |a.atoms| && a.atoms[i] == x;
          ImpliedAtomIsPresent(b.atoms, a.atoms, i);
        }
        forall x | x in b.atoms
          ensures x in a.atoms
        {
          var i :| 0 <= i < |b.atoms| && b.atoms[i] == x;
          ImpliedAtomIsPresent(a.atoms, b.atoms, i);
        }
        SortedMembersUnique(a.atoms, b.atoms);
      }
    }
  }

  // ----- adding a condition

  /** Where a condition belongs in a sorted list: everything before is smaller, everything after is not. */
  ghost predicate IsPlace(a: seq<Atom>, condition: nat, at: nat) {
    && at <= |a|
    && (forall i :: 0 <= i < at ==> a[i].condition < condition)
    && (forall i :: at <= i < |a| ==> condition <= a[i].condition)
  }

  function PlaceOf(a: seq<Atom>, condition: nat): (at: nat)
    ensures at <= |a|
    ensures Sorted(a) ==> IsPlace(a, condition, at)
  {
    if a == [] || condition <= a[0].condition then 0 else 1 + PlaceOf(a[1..], condition)
  }

  lemma {:induction false} PlaceIsFound(a: seq<Atom>, condition: nat, at: nat)
    requires Sorted(a) && IsPlace(a, condition, at)
    ensures PlaceOf(a, condition) == at
  {
    if at > 0 {
      PlaceIsFound(a[1..], condition, at - 1);
    }
  }

  /** The linear search for that place. */
  method FindPlace(a: seq<Atom>, condition: nat) returns (at: nat)
    requires Sorted(a)
    ensures at == PlaceOf(a, condition)
  {
    at := 0;
    while at < |a| && a[at].condition < condition
      invariant 0 <= at <= |a|
      invariant forall k :: 0 <= k < at ==> a[k].condition < condition
    {
      at := at + 1;
    }
    PlaceIsFound(a, condition, at);
  }

  /** The conjunction of c with one condition. */
  function Conjoin(c: Conjunction, condition: nat, expected: bool): (r: Conjunction)
    requires Canonical(c)
    ensures Canonical(r)
  {
    if c.Impossible? then c
    else
      var at := PlaceOf(c.atoms, condition);
      if at < |c.atoms| && c.atoms[at].condition == condition then
        if c.atoms[at].expected == expected then c else Impossible
      else All(c.atoms[..at] + [Atom(condition, expected)] + c.atoms[at..])
  }

  /** Conjoining means what it says. */
  lemma ConjoinMeans(c: Conjunction, condition: nat, expected: bool, v: Valuation)
    requires Canonical(c)
    ensures Holds(Conjoin(c, condition, expected), v) <==> Holds(c, v) && v(condition) == expected
  {
    if c.All? {
      var at := PlaceOf(c.atoms, condition);
      var r := Conjoin(c, condition, expected);
      if at < |c.atoms| && c.atoms[at].condition == condition {
      } else {
        assert r.atoms[at] == Atom(condition, expected);
        if Holds(r, v) {
          forall i | 0 <= i < |c.atoms|
            ensures v(c.atoms[i].condition) == c.atoms[i].expected
          {
            assert c.atoms[i] == r.atoms[if i < at then i else i + 1];
          }
        }
      }
    }
  }

  function ConjoinAll(c: Conjunction, added: seq<Atom>): (r: Conjunction)
    requires Canonical(c)
    ensures Canonical(r)
    decreases |added|
  {
    if added == [] then c
    else ConjoinAll(Conjoin(c, added[0].condition, added[0].expected), added[1..])
  }

  lemma {:induction false} ConjoinAllMeans(c: Conjunction, added: seq<Atom>, v: Valuation)
    requires Canonical(c)
    ensures Holds(ConjoinAll(c, added), v) <==>
            Holds(c, v) && forall x :: x in added ==> v(x.condition) == x.expected
    decreases |added|
  {
    if added != [] {
      ConjoinMeans(c, added[0].condition, added[0].expected, v);
      ConjoinAllMeans(Conjoin(c, added[0].condition, added[0].expected), added[1..], v);
      assert added == [added[0]] + added[1..];
    }
  }

  /** The order in which conditions are added, and repetitions among them, do not matter. */
  lemma OrderDoesNotMatter(c: Conjunction, xs: seq<Atom>, ys: seq<Atom>)
    requires Canonical(c) && forall x :: x in xs <==> x in ys
    ensures ConjoinAll(c, xs) == ConjoinAll(c, ys)
  {
    var a, b := ConjoinAll(c, xs), ConjoinAll(c, ys);
    forall v: Valuation
      ensures Holds(a, v) <==> Holds(b, v)
    {
      ConjoinAllMeans(c, xs, v);
      ConjoinAllMeans(c, ys, v);
    }
    MeaningIsCanonical(a, b);
  }

  // ----- exclusion

  /** No valuation satisfies both. */
  ghost predicate Exclude(a: Conjunction, b: Conjunction) { forall v :: !(Holds(a, v) && Holds(b, v)) }

  ghost predicate Agree(a: seq<Atom>, b: seq<Atom>) {
    forall i, j :: 0 <= i < |a| && 0 <= j < |b| && a[i].condition == b[j].condition ==> a[i].expected == b[j].expected
  }

  /** Sorted lists without opposite atoms have a common satisfying valuation. */
  lemma AgreeingAreSatisfiable(a: seq<Atom>, b: seq<Atom>)
    requires Sorted(a) && Sorted(b) && Agree(a, b)
    ensures !Exclude(All(a), All(b))
  {
    var w := Model(b, c => true);
    var v := Model(a, w);
    ModelSatisfies(b, c => true);
    ModelSatisfies(a, w);
    forall j | 0 <= j < |b|
      ensures v(b[j].condition) == b[j].expected
    {
      if i :| 0 <= i < |a| && a[i].condition == b[j].condition {
        assert v(a[i].condition) == a[i].expected;
      } else {
        LookupMisses(a, b[j].condition, w(b[j].condition));
      }
    }
    assert Holds(All(a), v) && Holds(All(b), v);
  }

  lemma DisagreeingExclude(a: seq<Atom>, b: seq<Atom>, i: nat, j: nat)
    requires i < |a| && j < |b| && a[i].condition == b[j].condition && a[i].expected != b[j].expected
    ensures Exclude(All(a), All(b))
  {
  }

  /** The two-index merge over sorted atoms. */
  method Conflict(a: seq<Atom>, b: seq<Atom>) returns (found: bool)
    requires Sorted(a) && Sorted(b)
    ensures found <==> Exclude(All(a), All(b))
  {
    var i, j := 0, 0;
    while i < |a| && j < |b|
      invariant 0 <= i <= |a| && 0 <= j <= |b|
      invariant forall p, q :: 0 <= p < |a| && 0 <= q < |b| && (p < i || q < j) && a[p].condition == b[q].condition ==>
        a[p].expected == b[q].expected
      decreases |a| - i + |b| - j
    {
      if a[i].condition < b[j].condition {
        i := i + 1;
      } else if a[i].condition > b[j].condition {
        j := j + 1;
      } else {
        if a[i].expected != b[j].expected {
          DisagreeingExclude(a, b, i, j);
          return true;
        }
        i, j := i + 1, j + 1;
      }
    }
    AgreeingAreSatisfiable(a, b);
    return false;
  }

  // ----- the arena of predicates

  datatype Stored = Stored(firstAtom: nat, atomCount: nat, impossible: bool)

  ghost predicate InArena(p: Stored, atoms: seq<Atom>) {
    p.firstAtom + p.atomCount <= |atoms| && (p.impossible ==> p.atomCount == 0)
  }

  function Meaning(p: Stored, atoms: seq<Atom>): Conjunction
    requires InArena(p, atoms)
  {
    if p.impossible then Impossible else All(atoms[p.firstAtom..p.firstAtom + p.atomCount])
  }

  lemma MeaningStays(p: Stored, atoms: seq<Atom>, more: seq<Atom>)
    requires InArena(p, atoms) && atoms <= more
    ensures InArena(p, more) && Meaning(p, more) == Meaning(p, atoms)
  {
    if !p.impossible {
      assert more[p.firstAtom..p.firstAtom + p.atomCount] == atoms[p.firstAtom..p.firstAtom + p.atomCount];
    }
  }

  ghost predicate Interned(predicates: seq<Stored>, atoms: seq<Atom>) {
    && (forall i :: 0 <= i < |predicates| ==> InArena(predicates[i], atoms) && Canonical(Meaning(predicates[i], atoms)))
    && (forall i, j :: 0 <= i < j < |predicates| ==> Meaning(predicates[i], atoms) != Meaning(predicates[j], atoms))
  }

  lemma InternedAppend(predicates: seq<Stored>, atoms: seq<Atom>, p: Stored, added: seq<Atom>)
    requires Interned(predicates, atoms)
    requires InArena(p, atoms + added) && Canonical(Meaning(p, atoms + added))
    requires forall i :: 0 <= i < |predicates| ==> Meaning(predicates[i], atoms) != Meaning(p, atoms + added)
    ensures Interned(predicates + [p], atoms + added)
  {
    forall i | 0 <= i < |predicates|
      ensures InArena(predicates[i], atoms + added)
      ensures Meaning(predicates[i], atoms + added) == Meaning(predicates[i], atoms)
    {
      MeaningStays(predicates[i], atoms, atoms + added);
    }
  }

  class PredicateModel {
    /** Which expression ids denote integral conditions. */
    const integral: seq<bool>
    var predicates: seq<Stored>
    var atoms: seq<Atom>
    var truePredicate: Option<nat>
    var falsePredicate: Option<nat>

    ghost predicate Valid()
      reads this
    {
      && Interned(predicates, atoms)
      && (truePredicate.Some? ==> truePredicate.value < |predicates| && MeaningOf(truePredicate.value) == All([]))
      && (falsePredicate.Some? ==> falsePredicate.value < |predicates| && MeaningOf(falsePredicate.value) == Impossible)
    }

    function MeaningOf(id: nat): Conjunction
      requires id < |predicates| && InArena(predicates[id], atoms)
      reads this
    {
      Meaning(predicates[id], atoms)
    }

    constructor (integral: seq<bool>)
      ensures Valid() && this.integral == integral && predicates == []
    {
      this.integral := integral;
      predicates, atoms, truePredicate, falsePredicate := [], [], None, None;
    }

    method SameAtoms(known: Stored, xs: seq<Atom>) returns (same: bool)
      requires InArena(known, atoms)
      ensures same <==> atoms[known.firstAtom..known.firstAtom + known.atomCount] == xs
    {
      if known.atomCount != |xs| {
        return false;
      }
      var i := 0;
      while i < |xs|
        invariant 0 <= i <= |xs|
        invariant forall k :: 0 <= k < i ==> atoms[known.firstAtom + k] == xs[k]
      {
        if atoms[known.firstAtom + i] != xs[i] {
          assert atoms[known.firstAtom..known.firstAtom + known.atomCount][i] != xs[i];
          return false;
        }
        i := i + 1;
      }
      return true;
    }

    method Find(impossible: bool, xs: seq<Atom>) returns (found: Option<nat>)
      requires Interned(predicates, atoms) && (impossible ==> xs == [])
      ensures found.Some? ==>
                found.value < |predicates| && MeaningOf(found.value) == (if impossible then Impossible else All(xs))
      ensures found.None? ==>
                forall i :: 0 <= i < |predicates| ==> MeaningOf(i) != (if impossible then Impossible else All(xs))
    {
      var i := 0;
      while i < |predicates|
        invariant 0 <= i <= |predicates|
        invariant forall k :: 0 <= k < i ==> MeaningOf(k) != (if impossible then Impossible else All(xs))
      {
        var same := SameAtoms(predicates[i], xs);
        if predicates[i].impossible == impossible && same {
          return Some(i);
        }
        i := i + 1;
      }
      return None;
    }

    method Intern(impossible: bool, xs: seq<Atom>) returns (id: nat)
      requires Interned(predicates, atoms) && Sorted(xs) && (impossible ==> xs == [])
      modifies this`predicates, this`atoms
      ensures Interned(predicates, atoms) && old(predicates) <= predicates && old(atoms) <= atoms
      ensures id < |predicates| && MeaningOf(id) == (if impossible then Impossible else All(xs))
      ensures forall i :: 0 <= i < |old(predicates)| ==> MeaningOf(i) == old(MeaningOf(i))
      ensures id < |old(predicates)| ==> predicates == old(predicates) && atoms == old(atoms)
    {
      var found := Find(impossible, xs);
      if found.Some? {
        return found.value;
      }
      var p := Stored(|atoms|, |xs|, impossible);
      assert (atoms + xs)[|atoms|..|atoms| + |xs|] == xs;
      assert Meaning(p, atoms + xs) == if impossible then Impossible else All(xs);
      assert forall i :: 0 <= i < |predicates| ==> Meaning(predicates[i], atoms) == MeaningOf(i);
      InternedAppend(predicates, atoms, p, xs);
      forall i | 0 <= i < |predicates|
        ensures InArena(predicates[i], atoms + xs) && Meaning(predicates[i], atoms + xs) == MeaningOf(i)
      {
        MeaningStays(predicates[i], atoms, atoms + xs);
      }
      id := |predicates|;
      predicates, atoms := predicates + [p], atoms + xs;
    }

    /** Nothing already interned changes. */
    twostate predicate Grows()
      reads this
    {
      && old(predicates) <= predicates && old(atoms) <= atoms
      && old(Valid()) && Valid()
    }

    method True() returns (id: nat)
      requires Valid()
      modifies this
      ensures Grows()
      ensures id < |predicates| && MeaningOf(id) == All([])
    {
      if truePredicate.None? {
        var interned := Intern(false, []);
        truePredicate := Some(interned);
      }
      id := truePredicate.value;
    }

    method False() returns (id: nat)
      requires Valid()
      modifies this
      ensures Grows()
      ensures id < |predicates| && MeaningOf(id) == Impossible
    {
      if falsePredicate.None? {
        var interned := Intern(true, []);
        falsePredicate := Some(interned);
      }
      id := falsePredicate.value;
    }

    /**
     * The id of the conjunction with one more condition; none for an unknown predicate or a condition that is not
     * an integral expression.
     */
    method AndCondition(predicateId: nat, condition: nat, expected: bool) returns (id: Option<nat>)
      requires Valid()
      modifies this
      ensures Grows()
      ensures id.Some? <==> predicateId < |old(predicates)| && condition < |integral| && integral[condition]
      ensures id.Some? ==>
                && id.value < |predicates|
                && MeaningOf(id.value) == Conjoin(old(MeaningOf(predicateId)), condition, expected)
    {
      if predicateId >= |predicates| || condition >= |integral| || !integral[condition] {
        return None;
      }
      hide Sorted, PlaceOf, IsPlace;
      var base := predicates[predicateId];
      if base.impossible {
        return Some(predicateId);
      }
      var known := atoms[base.firstAtom..base.firstAtom + base.atomCount];
      var at := FindPlace(known, condition);
      if at < |known| && known[at].condition == condition {
        if known[at].expected == expected {
          return Some(predicateId);
        }
        var no := False();
        return Some(no);
      }
      assert Canonical(Conjoin(All(known), condition, expected));
      var interned := Intern(false, known[..at] + [Atom(condition, expected)] + known[at..]);
      id := Some(interned);
    }

    /** Whether no valuation satisfies both; false for unknown ids. */
    method MutuallyExclusive(left: nat, right: nat) returns (exclusive: bool)
      requires Valid()
      ensures exclusive <==>
              left < |predicates| && right < |predicates| && Exclude(MeaningOf(left), MeaningOf(right))
    {
      if left >= |predicates| || right >= |predicates| {
        return false;
      }
      var l, r := predicates[left], predicates[right];
      if l.impossible || r.impossible {
        return true;
      }
      exclusive := Conflict(atoms[l.firstAtom..l.firstAtom + l.atomCount], atoms[r.firstAtom..r.firstAtom + r.atomCount]);
    }

    /** Equal ids are equal meanings. */
    lemma IdsAreMeanings(a: nat, b: nat)
      requires Valid() && a < |predicates| && b < |predicates|
      ensures a == b <==> SameMeaning(MeaningOf(a), MeaningOf(b))
    {
      assert MeaningOf(a) == Meaning(predicates[a], atoms) && MeaningOf(b) == Meaning(predicates[b], atoms);
      MeaningIsCanonical(MeaningOf(a), MeaningOf(b));
    }
  }
}
