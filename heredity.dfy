/**
 * Exact inference of gene copies and trait over a family: the probability
 * table PROBS, the joint probability of one assignment of copies and trait to
 * everybody, and the accumulation and normalisation of the per-person
 * distributions over every assignment that agrees with the known traits.
 *
 * Probabilities are exact reals; the source's floating point is not modelled.
 */
module Heredity {
  import opened Wrappers
  import opened Folds
  import opened Subsets

  type Name = string

  /** A number of copies of the gene. */
  type Copies = g: int | 0 <= g <= 2

  /** One row of the input: the parents' names, if any, and the trait when known. */
  datatype Person = Person(mother: Option<Name>, father: Option<Name>, observed: Option<bool>)

  /** The family, by name. */
  type People = map<Name, Person>

  /** Both parents named and in the family, or neither named, as the input format promises. */
  predicate WellFormed(people: People)
  {
    forall n | n in people ::
      (people[n].mother.None? && people[n].father.None?) ||
      (people[n].mother.Some? && people[n].father.Some? &&
       people[n].mother.value in people && people[n].father.value in people)
  }

  // PROBS

  /** PROBS["gene"][g]: the unconditional probability of g copies. */
  function GenePrior(g: Copies): real
  {
    if g == 2 then 0.01 else if g == 1 then 0.03 else 0.96
  }

  /** PROBS["trait"][g][shows]: the probability of showing the trait, or not, with g copies. */
  function TraitGiven(g: Copies, shows: bool): real
  {
    if g == 2 then (if shows then 0.65 else 0.35)
    else if g == 1 then (if shows then 0.56 else 0.44)
    else (if shows then 0.01 else 0.99)
  }

  /** PROBS["mutation"]: the probability that a passed gene flips. */
  const Mutation: real := 0.01

  /** The prior and every trait row are probability distributions, with no zero entry. */
  lemma ProbsWellFormed()
    ensures GenePrior(0) + GenePrior(1) + GenePrior(2) == 1.0
    ensures forall g: Copies :: TraitGiven(g, true) + TraitGiven(g, false) == 1.0
    ensures forall g: Copies :: 0.0 < GenePrior(g) && 0.0 < TraitGiven(g, true) && 0.0 < TraitGiven(g, false)
    ensures 0.0 < Mutation < 1.0
  {
  }

  // Inheritance

  /**
   * The probability that a parent with g copies passes the gene on: only by
   * mutation with none, one half with one, unless it mutates away with two.
   */
  function Passes(mu: real, g: Copies): real
  {
    if g == 0 then mu else if g == 1 then 0.5 else 1.0 - mu
  }

  /**
   * The reference distribution of a child's copies: one gene from each parent,
   * passed independently with probabilities pm and pf.
   */
  function Inherit(mu: real, c: Copies, m: Copies, f: Copies): real
  {
    var pm := Passes(mu, m);
    var pf := Passes(mu, f);
    if c == 0 then (1.0 - pm) * (1.0 - pf)
    else if c == 1 then pm * (1.0 - pf) + (1.0 - pm) * pf
    else pm * pf
  }

  /** The case table for a child with no copy, by the mother's and the father's copies, as written. */
  function NoCopyTable(mu: real, m: Copies, f: Copies): real
  {
    var notGetFrom0 := 1.0 - mu;
    var notGetFrom1 := 1.0 - 0.5;
    var notGetFrom2 := mu;
    if m == 0 && f == 0 then notGetFrom0 * notGetFrom0
    else if m == 0 && f == 1 then notGetFrom0 * notGetFrom1
    else if m == 0 && f == 2 then notGetFrom0 * notGetFrom2
    else if m == 1 && f == 0 then notGetFrom1 * notGetFrom0
    else if m == 1 && f == 1 then notGetFrom1 * notGetFrom1
    else if m == 1 && f == 2 then notGetFrom2 * notGetFrom1
    else if m == 2 && f == 0 then notGetFrom0 * notGetFrom2
    else if m == 2 && f == 1 then notGetFrom2 * notGetFrom1
    else notGetFrom2 * notGetFrom2
  }

  /** The case table for a child with one copy, as written. */
  function OneCopyTable(mu: real, m: Copies, f: Copies): real
  {
    var getFrom0 := mu;
    var notGetFrom0 := 1.0 - mu;
    var getFrom1 := 0.5;
    var notGetFrom1 := 1.0 - getFrom1;
    var getFrom2 := 1.0 - mu;
    var notGetFrom2 := mu;
    if m == 0 && f == 0 then getFrom0 * notGetFrom0 + getFrom0 * notGetFrom0
    else if m == 0 && f == 1 then getFrom0 * notGetFrom1 + getFrom1 * notGetFrom0
    else if m == 0 && f == 2 then getFrom0 * notGetFrom2 + getFrom2 * notGetFrom0
    else if m == 1 && f == 0 then getFrom1 * notGetFrom0 + getFrom0 * notGetFrom1
    else if m == 1 && f == 1 then getFrom1 * notGetFrom1 + getFrom1 * notGetFrom1
    else if m == 1 && f == 2 then getFrom1 * notGetFrom2 + getFrom2 * notGetFrom1
    else if m == 2 && f == 0 then getFrom2 * notGetFrom0 + getFrom0 * notGetFrom2
    else if m == 2 && f == 1 then getFrom2 * notGetFrom1 + getFrom1 * notGetFrom2
    else getFrom2 * notGetFrom2 + getFrom2 * notGetFrom2
  }

  /** The case table for a child with two copies, as written. */
  function TwoCopyTable(mu: real, m: Copies, f: Copies): real
  {
    var getFrom0 := mu;
    var getFrom1 := 0.5;
    var getFrom2 := 1.0 - mu;
    if m == 0 && f == 0 then getFrom0 * getFrom0
    else if m == 0 && f == 1 then getFrom0 * getFrom1
    else if m == 0 && f == 2 then getFrom0 * getFrom2
    else if m == 1 && f == 0 then getFrom1 * getFrom0
    else if m == 1 && f == 1 then getFrom1 * getFrom1
    else if m == 1 && f == 2 then getFrom1 * getFrom2
    else if m == 2 && f == 0 then getFrom2 * getFrom0
    else if m == 2 && f == 1 then getFrom2 * getFrom1
    else getFrom2 * getFrom2
  }

  /** The table for a child with c copies. */
  function ChildTable(mu: real, c: Copies, m: Copies, f: Copies): real
  {
    if c == 0 then NoCopyTable(mu, m, f)
    else if c == 1 then OneCopyTable(mu, m, f)
    else TwoCopyTable(mu, m, f)
  }

  lemma NoCopyTableIsInheritance(mu: real, m: Copies, f: Copies)
    ensures NoCopyTable(mu, m, f) == Inherit(mu, 0, m, f)
  {
  }

  lemma OneCopyTableIsInheritance(mu: real, m: Copies, f: Copies)
    ensures OneCopyTable(mu, m, f) == Inherit(mu, 1, m, f)
  {
  }

  lemma TwoCopyTableIsInheritance(mu: real, m: Copies, f: Copies)
    ensures TwoCopyTable(mu, m, f) == Inherit(mu, 2, m, f)
  {
  }

  /** Every entry of the three tables is the reference inheritance probability, for any mutation rate. */
  lemma ChildTableIsInheritance(mu: real, c: Copies, m: Copies, f: Copies)
    ensures ChildTable(mu, c, m, f) == Inherit(mu, c, m, f)
  {
    if c == 0 {
      NoCopyTableIsInheritance(mu, m, f);
    } else if c == 1 {
      OneCopyTableIsInheritance(mu, m, f);
    } else {
      TwoCopyTableIsInheritance(mu, m, f);
    }
  }

  /** For any parents, the child's three outcomes add up to 1. */
  lemma InheritSumsToOne(mu: real, m: Copies, f: Copies)
    ensures Inherit(mu, 0, m, f) + Inherit(mu, 1, m, f) + Inherit(mu, 2, m, f) == 1.0
  {
    var pm := Passes(mu, m);
    var pf := Passes(mu, f);
    assert (1.0 - pm) * (1.0 - pf) + (pm * (1.0 - pf) + (1.0 - pm) * pf) + pm * pf
      == (1.0 - pm) * ((1.0 - pf) + pf) + pm * ((1.0 - pf) + pf);
  }

  /** Swapping the mother's and the father's copies changes no outcome. */
  lemma InheritSymmetric(mu: real, c: Copies, m: Copies, f: Copies)
    ensures Inherit(mu, c, m, f) == Inherit(mu, c, f, m)
  {
  }

  /** Two independent events of probability strictly between 0 and 1: each of the three outcomes is possible. */
  lemma OutcomesPositive(p: real, q: real)
    requires 0.0 < p < 1.0 && 0.0 < q < 1.0
    ensures 0.0 < (1.0 - p) * (1.0 - q)
    ensures 0.0 < p * (1.0 - q) + (1.0 - p) * q
    ensures 0.0 < p * q
  {
    var np, nq := 1.0 - p, 1.0 - q;
    MultiplyPositive(np, nq);
    MultiplyPositive(p, nq);
    MultiplyPositive(np, q);
    MultiplyPositive(p, q);
    var neither, mine, theirs := np * nq, p * nq, np * q;
    assert 0.0 < neither && 0.0 < mine + theirs;
  }

  /** With a mutation rate strictly between 0 and 1, every outcome is possible. */
  lemma InheritPositive(mu: real, c: Copies, m: Copies, f: Copies)
    requires 0.0 < mu < 1.0
    ensures 0.0 < Inherit(mu, c, m, f)
  {
    var pm, pf := Passes(mu, m), Passes(mu, f);
    OutcomesPositive(pm, pf);
    if c == 0 {
      assert Inherit(mu, c, m, f) == (1.0 - pm) * (1.0 - pf);
    } else if c == 1 {
      assert Inherit(mu, c, m, f) == pm * (1.0 - pf) + (1.0 - pm) * pf;
    } else {
      assert Inherit(mu, c, m, f) == pm * pf;
    }
  }

  /** Each of three positive numbers adding up to 1 lies in (0, 1]. */
  lemma PartOfWhole(x: real, a: real, b: real, c: real)
    requires x == a || x == b || x == c
    requires 0.0 < a && 0.0 < b && 0.0 < c && a + b + c == 1.0
    ensures 0.0 < x <= 1.0
  {
  }

  /** With a mutation rate strictly between 0 and 1, every outcome is possible and at most certain. */
  lemma InheritBounds(mu: real, c: Copies, m: Copies, f: Copies)
    requires 0.0 < mu < 1.0
    ensures 0.0 < Inherit(mu, c, m, f) <= 1.0
  {
    InheritSumsToOne(mu, m, f);
    InheritPositive(mu, 0, m, f);
    InheritPositive(mu, 1, m, f);
    InheritPositive(mu, 2, m, f);
    PartOfWhole(Inherit(mu, c, m, f), Inherit(mu, 0, m, f), Inherit(mu, 1, m, f), Inherit(mu, 2, m, f));
  }

  /** The source's tables: each sums to 1 over the child's copies and is symmetric in the parents. */
  lemma ChildTablesDistribution(m: Copies, f: Copies)
    ensures ChildTable(Mutation, 0, m, f) + ChildTable(Mutation, 1, m, f) + ChildTable(Mutation, 2, m, f) == 1.0
    ensures forall c: Copies :: ChildTable(Mutation, c, m, f) == ChildTable(Mutation, c, f, m)
    ensures forall c: Copies :: 0.0 < ChildTable(Mutation, c, m, f) <= 1.0
  {
    forall c: Copies ensures ChildTable(Mutation, c, m, f) == Inherit(Mutation, c, m, f)
      && ChildTable(Mutation, c, f, m) == Inherit(Mutation, c, f, m)
      && 0.0 < Inherit(Mutation, c, m, f) <= 1.0
    {
      ChildTableIsInheritance(Mutation, c, m, f);
      ChildTableIsInheritance(Mutation, c, f, m);
      InheritSymmetric(Mutation, c, m, f);
      InheritBounds(Mutation, c, m, f);
    }
    InheritSumsToOne(Mutation, m, f);
  }

  // Joint probability

  /** One assignment of copies and trait to everybody: joint_probability's three sets. */
  datatype World = World(one: set<Name>, two: set<Name>, haveTrait: set<Name>)

  /**
   * The copies a world gives a person: one copy when in `one`, else two when
   * in `two`, else none (`one` is tested first throughout the source).
   */
  function CopiesOf(w: World, n: Name): Copies
  {
    if n in w.one then 1 else if n in w.two then 2 else 0
  }

  /**
   * The gene part of a person's factor: the prior for a person with neither
   * parent named; the case table when both parents are in the family; and 1
   * otherwise, since no case of the table matches then.
   */
  function GeneFactor(people: People, w: World, n: Name): real
    requires n in people
  {
    var person := people[n];
    var g := CopiesOf(w, n);
    if person.mother.None? && person.father.None? then GenePrior(g)
    else if person.mother.Some? && person.father.Some? && person.mother.value in people && person.father.value in people then
      ChildTable(Mutation, g, CopiesOf(w, person.mother.value), CopiesOf(w, person.father.value))
    else 1.0
  }

  /** A person's factor: the gene part times the probability of the trait as the world has it. */
  function PersonFactor(people: People, w: World, n: Name): real
  {
    if n in people then GeneFactor(people, w, n) * TraitGiven(CopiesOf(w, n), n in w.haveTrait) else 1.0
  }

  function Factors(people: People, w: World): Name -> real
  {
    n => PersonFactor(people, w, n)
  }

  /** The probability of a world: one factor per member of the family. */
  ghost function Joint(people: People, w: World): real
  {
    SetProduct(people.Keys, Factors(people, w))
  }

  /**
   * In a well-formed family the gene part of a person's factor is the prior
   * (parentless) or the reference inheritance probability (child).
   */
  lemma GeneFactorCases(people: People, w: World, n: Name)
    requires WellFormed(people) && n in people
    ensures var person := people[n];
      var g := CopiesOf(w, n);
      GeneFactor(people, w, n) ==
        if person.mother.None? then GenePrior(g)
        else Inherit(Mutation, g, CopiesOf(w, person.mother.value), CopiesOf(w, person.father.value))
  {
    var person := people[n];
    if person.mother.Some? {
      ChildTableIsInheritance(Mutation, CopiesOf(w, n), CopiesOf(w, person.mother.value), CopiesOf(w, person.father.value));
    }
  }

  /** Every factor, and so every world, has a positive probability. */
  lemma PersonFactorPositive(people: People, w: World, n: Name)
    ensures 0.0 < PersonFactor(people, w, n)
  {
    if n in people {
      var person := people[n];
      var g := CopiesOf(w, n);
      if person.mother.Some? && person.father.Some? && person.mother.value in people && person.father.value in people {
        ChildTablesDistribution(CopiesOf(w, person.mother.value), CopiesOf(w, person.father.value));
      }
      MultiplyPositive(GeneFactor(people, w, n), TraitGiven(g, n in w.haveTrait));
    }
  }

  lemma JointPositive(people: People, w: World)
    ensures 0.0 < Joint(people, w)
  {
    forall n | n in people.Keys ensures 0.0 < Factors(people, w)(n) {
      PersonFactorPositive(people, w, n);
    }
    SetProductPositive(people.Keys, Factors(people, w));
  }

  /** A world over nobody has probability 1. */
  lemma JointOfNobody(w: World)
    ensures Joint(map[], w) == 1.0
  {
  }

  /**
   * The first loop of joint_probability and of update: the people in neither
   * gene set, and the people outside the trait set.
   */
  method Partition(names: set<Name>, w: World) returns (zero: set<Name>, notHave: set<Name>)
    ensures zero == names - w.one - w.two
    ensures notHave == names - w.haveTrait
  {
    zero := {};
    notHave := {};
    var rest := names;
    while rest != {}
      invariant rest <= names
      invariant forall n :: n in zero <==> n in names && n !in rest && n !in w.one && n !in w.two
      invariant forall n :: n in notHave <==> n in names && n !in rest && n !in w.haveTrait
      decreases |rest|
    {
      var person :| person in rest;
      if person !in w.one && person !in w.two {
        zero := zero + {person};
      }
      if person !in w.haveTrait {
        notHave := notHave + {person};
      }
      rest := rest - {person};
    }
  }

  /** How a parent is looked up: in the zero-copy set first, then one, then two; absent when in none. */
  function ParentCopies(parent: Option<Name>, zero: set<Name>, one: set<Name>, two: set<Name>): Option<Copies>
  {
    if parent.None? then None
    else if parent.value in zero then Some(0)
    else if parent.value in one then Some(1)
    else if parent.value in two then Some(2)
    else None
  }

  /** The factor the source appends for one person with g copies. */
  method FactorOf(people: People, w: World, zero: set<Name>, notHave: set<Name>, person: Name, g: Copies)
    returns (factor: real)
    requires w.one <= people.Keys && w.two <= people.Keys
    requires zero == people.Keys - w.one - w.two && notHave == people.Keys - w.haveTrait
    requires person in people && CopiesOf(w, person) == g
    ensures factor == PersonFactor(people, w, person)
  {
    var mother := people[person].mother;
    var father := people[person].father;
    var prob: real;
    if mother.None? && father.None? {
      prob := GenePrior(g);
    } else {
      var m := ParentCopies(mother, zero, w.one, w.two);
      var f := ParentCopies(father, zero, w.one, w.two);
      if m.Some? && f.Some? {
        prob := ChildTable(Mutation, g, m.value, f.value);
      } else {
        prob := 1.0;
      }
    }
    if person in w.haveTrait {
      factor := prob * TraitGiven(g, true);
    } else {
      assert person in notHave;
      factor := prob * TraitGiven(g, false);
    }
  }

  /** Appending the next person's factor extends the list of terms by that person. */
  lemma AppendTerm(factors: seq<real>, done: seq<Name>, f: Name -> real, more: seq<real>, person: Name, factor: real)
    requires more == factors + Terms(done, f) && factor == f(person)
    ensures more + [factor] == factors + Terms(done + [person], f)
  {
    TermsAppend(done, [person], f);
  }

  /**
   * One of the source's three loops: a factor per member of `group`, all with
   * g copies, appended to the list; `done` lists the members in the order taken.
   */
  method AppendFactors(people: People, w: World, zero: set<Name>, notHave: set<Name>, group: set<Name>, g: Copies,
                       factors: seq<real>) returns (more: seq<real>, ghost done: seq<Name>)
    requires w.one <= people.Keys && w.two <= people.Keys
    requires zero == people.Keys - w.one - w.two && notHave == people.Keys - w.haveTrait
    requires group <= people.Keys
    requires forall n | n in group :: CopiesOf(w, n) == g
    ensures more == factors + Terms(done, Factors(people, w))
    ensures Distinct(done) && Elements(done) == group
  {
    more, done := factors, [];
    var rest := group;
    while rest != {}
      invariant rest <= group
      invariant more == factors + Terms(done, Factors(people, w))
      invariant Distinct(done) && Elements(done) == group - rest
      decreases |rest|
    {
      var person :| person in rest;
      var factor := FactorOf(people, w, zero, notHave, person, g);
      DistinctSnoc(done, person);
      AppendTerm(factors, done, Factors(people, w), more, person, factor);
      more, done := more + [factor], done + [person];
      rest := rest - {person};
    }
  }

  /** The final loop of joint_probability: multiply the factors, starting from 1. */
  method Multiply(factors: seq<real>) returns (product: real)
    ensures product == Product(factors)
  {
    product := 1.0;
    for i := 0 to |factors|
      invariant product == Product(factors[..i])
    {
      assert factors[..i + 1][..i] == factors[..i];
      product := product * factors[i];
    }
    assert factors[..|factors|] == factors;
  }

  /**
   * joint_probability: the factors of the zero-copy, then one-copy, then
   * two-copy people, multiplied together; one factor per person.
   */
  method JointProbability(people: People, one: set<Name>, two: set<Name>, haveTrait: set<Name>) returns (joint: real)
    requires one <= people.Keys && two <= people.Keys && one !! two
    ensures joint == Joint(people, World(one, two, haveTrait))
  {
    var w := World(one, two, haveTrait);
    var zero, notHave := Partition(people.Keys, w);
    var factors: seq<real> := [];
    ghost var zeros, ones, twos;
    factors, zeros := AppendFactors(people, w, zero, notHave, zero, 0, factors);
    factors, ones := AppendFactors(people, w, zero, notHave, one, 1, factors);
    factors, twos := AppendFactors(people, w, zero, notHave, two, 2, factors);
    ghost var f := Factors(people, w);
    TermsAppend(zeros, ones, f);
    TermsAppend(zeros + ones, twos, f);
    assert factors == Terms(zeros + ones + twos, f);
    DistinctGroups(zeros, ones, twos);
    assert Elements(zeros + ones + twos) == people.Keys;
    ProductOfTerms(zeros + ones + twos, f);
    joint := Multiply(factors);
  }

  /** Three lists without repetitions and without common elements concatenate to one without repetitions. */
  lemma DistinctGroups(xs: seq<Name>, ys: seq<Name>, zs: seq<Name>)
    requires Distinct(xs) && Distinct(ys) && Distinct(zs)
    requires Elements(xs) !! Elements(ys) && Elements(xs) !! Elements(zs) && Elements(ys) !! Elements(zs)
    ensures Distinct(xs + ys + zs) && Elements(xs + ys + zs) == Elements(xs) + Elements(ys) + Elements(zs)
  {
    forall i, j | 0 <= i < |xs| && 0 <= j < |ys| ensures xs[i] != ys[j] {
      assert xs[i] in Elements(xs) && ys[j] in Elements(ys);
    }
    DistinctAppend(xs, ys);
    forall i, j | 0 <= i < |xs + ys| && 0 <= j < |zs| ensures (xs + ys)[i] != zs[j] {
      assert (xs + ys)[i] in Elements(xs) + Elements(ys) && zs[j] in Elements(zs);
    }
    DistinctAppend(xs + ys, zs);
  }
}
