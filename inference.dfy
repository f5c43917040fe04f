/**
 * The inference part of heredity: the per-person table of gene and trait
 * distributions, `update` (add one world's probability), `normalize`
 * (rescale every distribution to sum to 1), and the triple loop of `main`
 * over every trait set that agrees with the evidence and every split of the
 * family into one-copy and two-copy people.
 */
module Inference {
  import opened Wrappers
  import opened Folds
  import opened Subsets
  import opened Heredity

  // Distributions

  /**
   * One person's entry of `probabilities`: the "gene" buckets for 0, 1 and 2
   * copies and the "trait" buckets for True and False. The source's inner
   * dicts always hold exactly these keys, so they are fields here.
   */
  datatype Distribution = Distribution(noCopy: real, oneCopy: real, twoCopies: real, shows: real, lacks: real)

  /** probabilities[person]["gene"][g] */
  function Gene(d: Distribution, g: Copies): real
  {
    if g == 0 then d.noCopy else if g == 1 then d.oneCopy else d.twoCopies
  }

  /** probabilities[person]["trait"][b] */
  function Trait(d: Distribution, b: bool): real
  {
    if b then d.shows else d.lacks
  }

  /** The entry with gene bucket g set to v. */
  function WithGene(d: Distribution, g: Copies, v: real): (r: Distribution)
    ensures Gene(r, g) == v && forall h: Copies | h != g :: Gene(r, h) == Gene(d, h)
    ensures forall b: bool :: Trait(r, b) == Trait(d, b)
  {
    if g == 0 then d.(noCopy := v) else if g == 1 then d.(oneCopy := v) else d.(twoCopies := v)
  }

  /** The entry with trait bucket b set to v. */
  function WithTrait(d: Distribution, b: bool, v: real): (r: Distribution)
    ensures Trait(r, b) == v && Trait(r, !b) == Trait(d, !b)
    ensures forall h: Copies :: Gene(r, h) == Gene(d, h)
  {
    if b then d.(shows := v) else d.(lacks := v)
  }

  function GeneTotal(d: Distribution): real
  {
    Gene(d, 0) + Gene(d, 1) + Gene(d, 2)
  }

  function TraitTotal(d: Distribution): real
  {
    Trait(d, true) + Trait(d, false)
  }

  /** The starting entry of main: every bucket at 0. */
  function Unobserved(): (d: Distribution)
    ensures forall g: Copies :: Gene(d, g) == 0.0
    ensures forall b: bool :: Trait(d, b) == 0.0
  {
    Distribution(0.0, 0.0, 0.0, 0.0, 0.0)
  }

  /** One entry after update: p added to gene bucket g and to trait bucket `b`. */
  function Record(d: Distribution, g: Copies, b: bool, p: real): Distribution
  {
    WithTrait(WithGene(d, g, Gene(d, g) + p), b, Trait(d, b) + p)
  }

  /** Exactly one gene bucket and one trait bucket grow by p; both totals grow by p. */
  lemma RecordTouchesOneBucket(d: Distribution, g: Copies, b: bool, p: real)
    ensures forall h: Copies :: Gene(Record(d, g, b, p), h) == Gene(d, h) + (if h == g then p else 0.0)
    ensures forall c: bool :: Trait(Record(d, g, b, p), c) == Trait(d, c) + (if c == b then p else 0.0)
    ensures GeneTotal(Record(d, g, b, p)) == GeneTotal(d) + p
    ensures TraitTotal(Record(d, g, b, p)) == TraitTotal(d) + p
  {
  }

  /** The whole table after update(probabilities, one, two, have_trait, p). */
  function Updated(table: map<Name, Distribution>, w: World, p: real): (r: map<Name, Distribution>)
    ensures r.Keys == table.Keys
  {
    map n | n in table :: Record(table[n], CopiesOf(w, n), n in w.haveTrait, p)
  }

  /** 1 / x, the source's normalizer. */
  function Inverse(x: real): real
    requires x != 0.0
  {
    1.0 / x
  }

  /** The gene buckets after normalize: each times 1 / (their total). */
  function GenesRescaled(d: Distribution): Distribution
    requires GeneTotal(d) != 0.0
  {
    var s := Inverse(GeneTotal(d));
    d.(noCopy := d.noCopy * s, oneCopy := d.oneCopy * s, twoCopies := d.twoCopies * s)
  }

  /** The trait buckets after normalize: each times 1 / (their total). */
  function TraitsRescaled(d: Distribution): Distribution
    requires TraitTotal(d) != 0.0
  {
    var s := Inverse(TraitTotal(d));
    d.(shows := d.shows * s, lacks := d.lacks * s)
  }

  /** The entry after normalize: the gene buckets rescaled, then the trait buckets. */
  function Rescaled(d: Distribution): Distribution
    requires GeneTotal(d) != 0.0 && TraitTotal(d) != 0.0
  {
    TraitsRescaled(GenesRescaled(d))
  }

  /** Three parts scaled by the inverse of their total add up to 1. */
  lemma ScaledSum(a: real, b: real, c: real, total: real, s: real)
    requires total == a + b + c && total != 0.0 && s == Inverse(total)
    ensures a * s + b * s + c * s == 1.0
  {
    assert s * total == 1.0;
    assert a * s + b * s + c * s == (a + b + c) * s;
  }

  /** Scaling by the inverse of the total and back gives the part again. */
  lemma ScaledRatio(a: real, total: real, s: real)
    requires total != 0.0 && s == Inverse(total)
    ensures a * s * total == a
  {
    assert s * total == 1.0;
  }

  /** A part of a non-negative total, scaled by its inverse, lies in [0, 1]. */
  lemma ScaledPartBounds(a: real, rest: real, total: real, s: real)
    requires 0.0 <= a && 0.0 <= rest && total == a + rest && total != 0.0 && s == Inverse(total)
    ensures 0.0 <= a * s <= 1.0
  {
    assert 0.0 < s;
    assert a * s <= a * s + rest * s == total * s == 1.0;
  }

  /** normalize's promise for one person: both distributions sum to 1. */
  lemma RescaledSumsToOne(d: Distribution)
    requires GeneTotal(d) != 0.0 && TraitTotal(d) != 0.0
    ensures GeneTotal(Rescaled(d)) == 1.0 && TraitTotal(Rescaled(d)) == 1.0
  {
    ScaledSum(d.noCopy, d.oneCopy, d.twoCopies, GeneTotal(d), Inverse(GeneTotal(d)));
    ScaledSum(d.shows, d.lacks, 0.0, TraitTotal(d), Inverse(TraitTotal(d)));
  }

  /** normalize keeps proportions: every bucket times the old total gives the accumulated value back. */
  lemma RescaledKeepsRatios(d: Distribution)
    requires GeneTotal(d) != 0.0 && TraitTotal(d) != 0.0
    ensures forall h: Copies :: Gene(Rescaled(d), h) * GeneTotal(d) == Gene(d, h)
    ensures forall b: bool :: Trait(Rescaled(d), b) * TraitTotal(d) == Trait(d, b)
  {
    forall h: Copies ensures Gene(Rescaled(d), h) * GeneTotal(d) == Gene(d, h) {
      ScaledRatio(Gene(d, h), GeneTotal(d), Inverse(GeneTotal(d)));
    }
    forall b: bool ensures Trait(Rescaled(d), b) * TraitTotal(d) == Trait(d, b) {
      ScaledRatio(Trait(d, b), TraitTotal(d), Inverse(TraitTotal(d)));
    }
  }

  /** With non-negative buckets, every bucket after normalize is a probability. */
  lemma RescaledBounds(d: Distribution)
    requires GeneTotal(d) != 0.0 && TraitTotal(d) != 0.0
    requires forall h: Copies :: 0.0 <= Gene(d, h)
    requires forall b: bool :: 0.0 <= Trait(d, b)
    ensures forall h: Copies :: 0.0 <= Gene(Rescaled(d), h) <= 1.0
    ensures forall b: bool :: 0.0 <= Trait(Rescaled(d), b) <= 1.0
  {
    var (g0, g1, g2) := (Gene(d, 0), Gene(d, 1), Gene(d, 2));
    var (t, f) := (Trait(d, true), Trait(d, false));
    var (gs, ts) := (Inverse(GeneTotal(d)), Inverse(TraitTotal(d)));
    ScaledPartBounds(g0, g1 + g2, GeneTotal(d), gs);
    ScaledPartBounds(g1, g0 + g2, GeneTotal(d), gs);
    ScaledPartBounds(g2, g0 + g1, GeneTotal(d), gs);
    ScaledPartBounds(t, f, TraitTotal(d), ts);
    ScaledPartBounds(f, t, TraitTotal(d), ts);
  }

  predicate Normalizable(table: map<Name, Distribution>)
  {
    forall n | n in table :: GeneTotal(table[n]) != 0.0 && TraitTotal(table[n]) != 0.0
  }

  /** The whole table after normalize. */
  function Normalized(table: map<Name, Distribution>): (r: map<Name, Distribution>)
    requires Normalizable(table)
    ensures r.Keys == table.Keys
  {
    map n | n in table :: Rescaled(table[n])
  }

  /** A map with the entries outside `rest` replaced by f. */
  function Patched<K, V>(table: map<K, V>, f: K -> V, rest: set<K>): map<K, V>
  {
    map k | k in table :: if k in rest then table[k] else f(k)
  }

  /** Replacing one more entry. */
  lemma PatchedStep<K, V>(table: map<K, V>, f: K -> V, rest: set<K>, k: K)
    requires k in rest && k in table
    ensures Patched(table, f, rest)[k := f(k)] == Patched(table, f, rest - {k})
  {
    var before, after := Patched(table, f, rest)[k := f(k)], Patched(table, f, rest - {k});
    assert before.Keys == after.Keys;
    forall j | j in after ensures before[j] == after[j] {
    }
  }

  /** The update of one person's entry, as a function of the name. */
  function RecordFor(table: map<Name, Distribution>, w: World, p: real): Name -> Distribution
  {
    n => if n in table then Record(table[n], CopiesOf(w, n), n in w.haveTrait, p) else Unobserved()
  }

  /** The normalisation of one person's entry, as a function of the name. */
  function RescaledFor(table: map<Name, Distribution>): Name -> Distribution
  {
    n => if n in table && GeneTotal(table[n]) != 0.0 && TraitTotal(table[n]) != 0.0 then Rescaled(table[n])
         else Unobserved()
  }

  lemma UpdatedAll(table: map<Name, Distribution>, w: World, p: real)
    ensures Patched(table, RecordFor(table, w, p), {}) == Updated(table, w, p)
  {
  }

  lemma NormalizedAll(table: map<Name, Distribution>)
    requires Normalizable(table)
    ensures Patched(table, RescaledFor(table), {}) == Normalized(table)
  {
  }

  /**
   * update for one person: the zero-copy bucket when in `zero`, else the
   * one-copy bucket when in `one`, else the two-copy bucket; the True bucket
   * when in `have_trait`, else the False bucket.
   */
  method AddToBuckets(d: Distribution, person: Name, w: World, zero: set<Name>, notHave: set<Name>, p: real)
    returns (r: Distribution)
    requires person in zero <==> person !in w.one && person !in w.two
    requires person in notHave <==> person !in w.haveTrait
    ensures r == Record(d, CopiesOf(w, person), person in w.haveTrait, p)
  {
    r := d;
    if person in zero {
      r := WithGene(r, 0, Gene(r, 0) + p);
    } else if person in w.one {
      r := WithGene(r, 1, Gene(r, 1) + p);
    } else if person in w.two {
      r := WithGene(r, 2, Gene(r, 2) + p);
    }
    if person in w.haveTrait {
      r := WithTrait(r, true, Trait(r, true) + p);
    } else if person in notHave {
      r := WithTrait(r, false, Trait(r, false) + p);
    }
  }

  /** The gene buckets below i multiplied by s. */
  function GenesScaledBelow(d: Distribution, s: real, i: int): Distribution
  {
    d.(noCopy := if 0 < i then d.noCopy * s else d.noCopy, oneCopy := if 1 < i then d.oneCopy * s else d.oneCopy,
       twoCopies := if 2 < i then d.twoCopies * s else d.twoCopies)
  }

  /** The trait buckets listed in `done` multiplied by s. */
  function TraitsScaledAmong(d: Distribution, s: real, done: seq<bool>): Distribution
  {
    d.(shows := if true in done then d.shows * s else d.shows, lacks := if false in done then d.lacks * s else d.lacks)
  }

  /** The first half of normalize for one person: the three gene buckets summed, then each scaled. */
  method RescaleGenes(d: Distribution) returns (r: Distribution)
    requires GeneTotal(d) != 0.0
    ensures r == GenesRescaled(d)
  {
    var total := 0.0;
    for i := 0 to 3
      invariant total == if i == 0 then 0.0 else if i == 1 then Gene(d, 0) else if i == 2 then Gene(d, 0) + Gene(d, 1)
                         else GeneTotal(d)
    {
      total := total + Gene(d, i);
    }
    var normalizer := 1.0 / total;
    r := d;
    for i := 0 to 3
      invariant r == GenesScaledBelow(d, normalizer, i)
    {
      r := WithGene(r, i, Gene(r, i) * normalizer);
    }
  }

  /** The second half: the two trait buckets summed, then each scaled. */
  method RescaleTraits(d: Distribution) returns (r: Distribution)
    requires TraitTotal(d) != 0.0
    ensures r == TraitsRescaled(d)
  {
    var values := [true, false];
    var total := 0.0;
    for i := 0 to 2
      invariant total == if i == 0 then 0.0 else if i == 1 then Trait(d, true) else TraitTotal(d)
    {
      total := total + Trait(d, values[i]);
    }
    var normalizer := 1.0 / total;
    r := d;
    for i := 0 to 2
      invariant r == TraitsScaledAmong(d, normalizer, values[..i])
    {
      r := WithTrait(r, values[i], Trait(r, values[i]) * normalizer);
    }
    assert values[..2] == values && values[0] && !values[1];
  }

  /** normalize for one person. */
  method Rescale(d: Distribution) returns (r: Distribution)
    requires GeneTotal(d) != 0.0 && TraitTotal(d) != 0.0
    ensures r == Rescaled(d)
  {
    r := RescaleGenes(d);
    r := RescaleTraits(r);
  }

  /** The source's `probabilities` dict: a distribution per person, updated in place. */
  class Probabilities {
    var table: map<Name, Distribution>

    /** Every bucket of every person at 0. */
    constructor(people: People)
      ensures table == map n | n in people :: Unobserved()
    {
      table := map n | n in people :: Unobserved();
    }

    /**
     * update: each person's bucket for their copies in `w` (zero-copy people
     * first, then `one`, then `two`) and their trait bucket grow by p.
     */
    method Update(w: World, p: real)
      modifies this
      ensures table == Updated(old(table), w, p)
    {
      var zero, notHave := Partition(table.Keys, w);
      ghost var before := table;
      var rest := table.Keys;
      while rest != {}
        invariant rest <= before.Keys
        invariant table == Patched(before, RecordFor(before, w, p), rest)
        decreases |rest|
      {
        var person :| person in rest;
        var entry := AddToBuckets(table[person], person, w, zero, notHave, p);
        PatchedStep(before, RecordFor(before, w, p), rest, person);
        table := table[person := entry];
        rest := rest - {person};
      }
      UpdatedAll(before, w, p);
    }

    /** normalize: every person's two distributions rescaled to sum to 1. */
    method Normalize()
      requires Normalizable(table)
      modifies this
      ensures table == Normalized(old(table))
    {
      ghost var before := table;
      var rest := table.Keys;
      while rest != {}
        invariant rest <= before.Keys
        invariant table == Patched(before, RescaledFor(before), rest)
        decreases |rest|
      {
        var person :| person in rest;
        var rescaled := Rescale(table[person]);
        PatchedStep(before, RescaledFor(before), rest, person);
        table := table[person := rescaled];
        rest := rest - {person};
      }
      NormalizedAll(before);
    }
  }

  // The inference loop of main

  /** The `any(...)` test: some person's known trait disagrees with the trait set. */
  predicate FailsEvidence(people: People, haveTrait: set<Name>)
  {
    exists n | n in people :: people[n].observed.Some? && people[n].observed.value != (n in haveTrait)
  }

  /** The people known to show the trait. */
  function ObservedTrait(people: People): set<Name>
  {
    set n | n in people && people[n].observed == Some(true)
  }

  /** The known traits themselves never fail the evidence. */
  lemma ObservedTraitAgrees(people: People)
    ensures ObservedTrait(people) <= people.Keys && !FailsEvidence(people, ObservedTrait(people))
  {
  }

  /** When every trait is known, exactly one trait set passes the test: the people known to show it. */
  lemma KnownTraitsAcceptOneSet(people: People, haveTrait: set<Name>)
    requires forall n | n in people :: people[n].observed.Some?
    requires haveTrait <= people.Keys
    ensures !FailsEvidence(people, haveTrait) <==> haveTrait == ObservedTrait(people)
  {
    if !FailsEvidence(people, haveTrait) {
      forall n | n in people ensures n in haveTrait <==> n in ObservedTrait(people) {
        assert people[n].observed.value == (n in haveTrait);
      }
    }
  }

  /**
   * A trait set passes the evidence test exactly when it holds everybody known
   * to show the trait and nobody known not to.
   */
  lemma PassesEvidence(people: People, haveTrait: set<Name>)
    ensures !FailsEvidence(people, haveTrait) <==>
      ObservedTrait(people) <= haveTrait &&
      forall n | n in people && people[n].observed == Some(false) :: n !in haveTrait
  {
  }

  /** The worlds main visits: a trait set that passes the test, a one-copy set, and a two-copy set among the rest. */
  ghost predicate Admissible(people: People, w: World)
  {
    w.haveTrait <= people.Keys && !FailsEvidence(people, w.haveTrait) &&
    w.one <= people.Keys && w.two <= people.Keys - w.one
  }

  /** The probability of each world. */
  ghost function JointTerm(people: People): World -> real
  {
    w => Joint(people, w)
  }

  /** The probability of each world in which n has g copies, and 0 for the others. */
  ghost function GeneTerm(people: People, n: Name, g: Copies): World -> real
  {
    w => if CopiesOf(w, n) == g then Joint(people, w) else 0.0
  }

  /** The probability of each world in which n shows the trait as `b` says, and 0 for the others. */
  ghost function TraitTerm(people: People, n: Name, b: bool): World -> real
  {
    (w: World) => if (n in w.haveTrait) == b then Joint(people, w) else 0.0
  }

  /** Every bucket of everybody holds the probability mass of its event over `worlds`. */
  ghost predicate Tallied(people: People, table: map<Name, Distribution>, worlds: seq<World>)
  {
    table.Keys == people.Keys &&
    (forall n, g: Copies | n in table :: Gene(table[n], g) == Sum(worlds, GeneTerm(people, n, g))) &&
    (forall n, b: bool | n in table :: Trait(table[n], b) == Sum(worlds, TraitTerm(people, n, b)))
  }

  /** The starting table has tallied no world. */
  lemma TalliedStart(people: People)
    ensures Tallied(people, map n | n in people :: Unobserved(), [])
  {
  }

  /** Adding a world's probability to one entry tallies that world in each of its buckets. */
  lemma TallyEntry(people: People, d: Distribution, worlds: seq<World>, w: World, p: real, n: Name)
    requires p == Joint(people, w)
    requires forall g: Copies :: Gene(d, g) == Sum(worlds, GeneTerm(people, n, g))
    requires forall b: bool :: Trait(d, b) == Sum(worlds, TraitTerm(people, n, b))
    ensures forall g: Copies ::
      Gene(Record(d, CopiesOf(w, n), n in w.haveTrait, p), g) == Sum(worlds + [w], GeneTerm(people, n, g))
    ensures forall b: bool ::
      Trait(Record(d, CopiesOf(w, n), n in w.haveTrait, p), b) == Sum(worlds + [w], TraitTerm(people, n, b))
  {
    RecordTouchesOneBucket(d, CopiesOf(w, n), n in w.haveTrait, p);
    forall g: Copies ensures Sum(worlds + [w], GeneTerm(people, n, g)) == Sum(worlds, GeneTerm(people, n, g)) + GeneTerm(people, n, g)(w) {
      SumSnoc(worlds, w, GeneTerm(people, n, g));
    }
    forall b: bool ensures Sum(worlds + [w], TraitTerm(people, n, b)) == Sum(worlds, TraitTerm(people, n, b)) + TraitTerm(people, n, b)(w) {
      SumSnoc(worlds, w, TraitTerm(people, n, b));
    }
  }

  /** Adding a world's probability with update tallies that world too. */
  lemma TallyStep(people: People, table: map<Name, Distribution>, worlds: seq<World>, w: World, p: real)
    requires Tallied(people, table, worlds) && p == Joint(people, w)
    ensures Tallied(people, Updated(table, w, p), worlds + [w])
  {
    forall n | n in table
      ensures forall g: Copies :: Gene(Updated(table, w, p)[n], g) == Sum(worlds + [w], GeneTerm(people, n, g))
      ensures forall b: bool :: Trait(Updated(table, w, p)[n], b) == Sum(worlds + [w], TraitTerm(people, n, b))
    {
      TallyEntry(people, table[n], worlds, w, p, n);
    }
  }

  /** Over any worlds, a person's three gene events together carry the whole mass. */
  lemma {:induction false} GeneTermsAddUp(people: People, n: Name, worlds: seq<World>)
    ensures Sum(worlds, GeneTerm(people, n, 0)) + Sum(worlds, GeneTerm(people, n, 1)) + Sum(worlds, GeneTerm(people, n, 2))
         == Sum(worlds, JointTerm(people))
  {
    if worlds != [] {
      GeneTermsAddUp(people, n, worlds[..|worlds| - 1]);
    }
  }

  /** Over any worlds, a person's two trait events together carry the whole mass. */
  lemma {:induction false} TraitTermsAddUp(people: People, n: Name, worlds: seq<World>)
    ensures Sum(worlds, TraitTerm(people, n, true)) + Sum(worlds, TraitTerm(people, n, false))
         == Sum(worlds, JointTerm(people))
  {
    if worlds != [] {
      TraitTermsAddUp(people, n, worlds[..|worlds| - 1]);
    }
  }

  /** Some world main visits has every known trait right, and it has positive probability. */
  lemma EvidencePositive(people: People, worlds: seq<World>)
    requires forall w :: Admissible(people, w) ==> w in worlds
    ensures 0.0 < Sum(worlds, JointTerm(people))
  {
    var w := World({}, {}, ObservedTrait(people));
    ObservedTraitAgrees(people);
    assert Admissible(people, w);
    var k :| 0 <= k < |worlds| && worlds[k] == w;
    forall i | 0 <= i < |worlds| ensures 0.0 <= JointTerm(people)(worlds[i]) {
      JointPositive(people, worlds[i]);
    }
    JointPositive(people, w);
    SumBoundsTerm(worlds, JointTerm(people), k);
  }

  /** x times 1 / y is x / y. */
  lemma DivideByInverse(x: real, y: real)
    requires y != 0.0
    ensures x * Inverse(y) == x / y
  {
  }

  /** In a tallied table, each person's two totals are the mass of all the worlds. */
  lemma TalliedTotals(people: People, table: map<Name, Distribution>, worlds: seq<World>, n: Name)
    requires Tallied(people, table, worlds) && n in table
    ensures GeneTotal(table[n]) == Sum(worlds, JointTerm(people))
    ensures TraitTotal(table[n]) == Sum(worlds, JointTerm(people))
  {
    GeneTermsAddUp(people, n, worlds);
    TraitTermsAddUp(people, n, worlds);
  }

  /** One bucket of an entry after normalize: its old value over its distribution's old total. */
  lemma RescaledBucket(d: Distribution, g: Copies, b: bool)
    requires GeneTotal(d) != 0.0 && TraitTotal(d) != 0.0
    ensures Gene(Rescaled(d), g) == Gene(d, g) / GeneTotal(d)
    ensures Trait(Rescaled(d), b) == Trait(d, b) / TraitTotal(d)
  {
    DivideByInverse(Gene(d, g), GeneTotal(d));
    DivideByInverse(Trait(d, b), TraitTotal(d));
  }

  /**
   * After normalize, a tallied table holds the posterior of every bucket: the
   * mass of its event over the mass of all the worlds.
   */
  lemma TalliedPosterior(people: People, table: map<Name, Distribution>, worlds: seq<World>)
    requires Tallied(people, table, worlds) && 0.0 < Sum(worlds, JointTerm(people))
    ensures Normalizable(table)
    ensures forall n, g: Copies | n in people ::
      Gene(Normalized(table)[n], g) == Sum(worlds, GeneTerm(people, n, g)) / Sum(worlds, JointTerm(people))
    ensures forall n, b: bool | n in people ::
      Trait(Normalized(table)[n], b) == Sum(worlds, TraitTerm(people, n, b)) / Sum(worlds, JointTerm(people))
    ensures forall n | n in people :: GeneTotal(Normalized(table)[n]) == 1.0 && TraitTotal(Normalized(table)[n]) == 1.0
  {
    forall n | n in table ensures GeneTotal(table[n]) != 0.0 && TraitTotal(table[n]) != 0.0 {
      TalliedTotals(people, table, worlds, n);
    }
    forall n, g: Copies | n in people
      ensures Gene(Normalized(table)[n], g) == Sum(worlds, GeneTerm(people, n, g)) / Sum(worlds, JointTerm(people))
    {
      TalliedTotals(people, table, worlds, n);
      RescaledBucket(table[n], g, true);
    }
    forall n, b: bool | n in people
      ensures Trait(Normalized(table)[n], b) == Sum(worlds, TraitTerm(people, n, b)) / Sum(worlds, JointTerm(people))
    {
      TalliedTotals(people, table, worlds, n);
      RescaledBucket(table[n], 0, b);
    }
    forall n | n in people ensures GeneTotal(Normalized(table)[n]) == 1.0 && TraitTotal(Normalized(table)[n]) == 1.0 {
      RescaledSumsToOne(table[n]);
    }
  }

  /**
   * Each accepted trait set accounts for 3^N worlds: listed without repetition,
   * the worlds with that trait set and every split into one-copy and two-copy
   * people are as many as the splits of N names.
   */
  lemma WorldsPerTraitSet(people: People, haveTrait: set<Name>, seen: seq<World>)
    requires Distinct(seen)
    requires forall w :: w in seen <==> w.haveTrait == haveTrait && w.one <= people.Keys && w.two <= people.Keys - w.one
    ensures |seen| == Pow3(|people|)
  {
    var names := Listing(people.Keys);
    DistinctCardinality(names, people.Keys);
    var splits := Splits(names);
    SplitsCount(names);
    SplitsMembers(names);
    SplitsDistinct(names);
    var listed := seq(|splits|, i requires 0 <= i < |splits| => World(splits[i].0, splits[i].1, haveTrait));
    forall i, j | 0 <= i < j < |listed| ensures listed[i] != listed[j] {
      assert splits[i] != splits[j];
    }
    var all := Elements(seen);
    forall w ensures w in all <==> w in listed {
      if w in listed {
        var i :| 0 <= i < |listed| && listed[i] == w;
        assert splits[i] in splits;
      }
      if w in seen {
        assert IsSplit(people.Keys, (w.one, w.two));
        var i :| 0 <= i < |splits| && splits[i] == (w.one, w.two);
        assert listed[i] == w;
      }
    }
    DistinctCardinality(seen, all);
    DistinctCardinality(listed, all);
  }

  /** When every trait is known, main visits 3^N worlds in all. */
  lemma KnownTraitsWorldCount(people: People, worlds: seq<World>)
    requires forall n | n in people :: people[n].observed.Some?
    requires Distinct(worlds) && forall w :: w in worlds <==> Admissible(people, w)
    ensures |worlds| == Pow3(|people|)
  {
    var known := ObservedTrait(people);
    ObservedTraitAgrees(people);
    forall w ensures w in worlds <==> w.haveTrait == known && w.one <= people.Keys && w.two <= people.Keys - w.one {
      if w.haveTrait <= people.Keys {
        KnownTraitsAcceptOneSet(people, w.haveTrait);
      }
    }
    WorldsPerTraitSet(people, known, worlds);
  }

  /** Joining two batches of worlds told apart by a key keeps the worlds distinct. */
  lemma AppendBatch(seen: seq<World>, batch: seq<World>, key: World -> set<Name>, earlier: seq<set<Name>>, now: set<Name>)
    requires Distinct(seen) && Distinct(batch) && now !in earlier
    requires forall w | w in seen :: key(w) in earlier
    requires forall w | w in batch :: key(w) == now
    ensures Distinct(seen + batch)
  {
    forall i, j | 0 <= i < |seen| && 0 <= j < |batch| ensures seen[i] != batch[j] {
      assert key(seen[i]) in earlier;
    }
    DistinctAppend(seen, batch);
  }

  /** The body of the innermost loop of main: one world's joint probability added with update. */
  method Accumulate(people: People, probabilities: Probabilities, w: World, ghost worlds: seq<World>)
    requires w.one <= people.Keys && w.two <= people.Keys && w.one !! w.two
    requires Tallied(people, probabilities.table, worlds)
    modifies probabilities
    ensures Tallied(people, probabilities.table, worlds + [w])
  {
    var p := JointProbability(people, w.one, w.two, w.haveTrait);
    TallyStep(people, probabilities.table, worlds, w, p);
    probabilities.Update(w, p);
  }

  /** The innermost loop of main: every two-copy set among the people outside `one`. */
  method AccumulateTwos(people: People, probabilities: Probabilities, haveTrait: set<Name>, one: set<Name>,
                        ghost worlds: seq<World>) returns (ghost seen: seq<World>)
    requires one <= people.Keys && Tallied(people, probabilities.table, worlds)
    modifies probabilities
    ensures Tallied(people, probabilities.table, worlds + seen)
    ensures Distinct(seen)
    ensures forall w :: w in seen <==> w.haveTrait == haveTrait && w.one == one && w.two <= people.Keys - one
  {
    var twoSets := PowersetOf(people.Keys - one);
    seen := [];
    assert worlds + seen == worlds;
    for k := 0 to |twoSets|
      invariant Tallied(people, probabilities.table, worlds + seen) && Distinct(seen)
      invariant forall w :: w in seen <==> w.haveTrait == haveTrait && w.one == one && w.two in twoSets[..k]
    {
      var two := twoSets[k];
      assert two in twoSets;
      var w := World(one, two, haveTrait);
      Accumulate(people, probabilities, w, worlds + seen);
      assert twoSets[..k + 1] == twoSets[..k] + [two];
      assert two !in twoSets[..k];
      DistinctSnoc(seen, w);
      AppendAssociates(worlds, seen, [w]);
      seen := seen + [w];
    }
    assert twoSets[..|twoSets|] == twoSets;
  }

  /** The middle loop of main: every one-copy set, each followed by the innermost loop. */
  method AccumulateOnes(people: People, probabilities: Probabilities, haveTrait: set<Name>, ghost worlds: seq<World>)
    returns (ghost seen: seq<World>)
    requires Tallied(people, probabilities.table, worlds)
    modifies probabilities
    ensures Tallied(people, probabilities.table, worlds + seen)
    ensures Distinct(seen)
    ensures forall w :: w in seen <==> w.haveTrait == haveTrait && w.one <= people.Keys && w.two <= people.Keys - w.one
    ensures |seen| == Pow3(|people|)
  {
    var oneSets := PowersetOf(people.Keys);
    seen := [];
    assert worlds + seen == worlds;
    for j := 0 to |oneSets|
      invariant Tallied(people, probabilities.table, worlds + seen) && Distinct(seen)
      invariant forall w :: w in seen <==> w.haveTrait == haveTrait && w.one in oneSets[..j] && w.two <= people.Keys - w.one
    {
      var one := oneSets[j];
      assert one in oneSets;
      var batch := AccumulateTwos(people, probabilities, haveTrait, one, worlds + seen);
      assert oneSets[..j + 1] == oneSets[..j] + [one];
      assert one !in oneSets[..j];
      AppendBatch(seen, batch, (w: World) => w.one, oneSets[..j], one);
      AppendAssociates(worlds, seen, batch);
      seen := seen + batch;
    }
    assert oneSets[..|oneSets|] == oneSets;
    WorldsPerTraitSet(people, haveTrait, seen);
  }

  /**
   * The outer loop of main: every trait set that agrees with the known traits,
   * followed by the middle loop. `worlds` lists the worlds in the order visited.
   */
  method AccumulateAll(people: People, probabilities: Probabilities) returns (ghost worlds: seq<World>)
    requires Tallied(people, probabilities.table, [])
    modifies probabilities
    ensures Tallied(people, probabilities.table, worlds)
    ensures Distinct(worlds) && forall w :: w in worlds <==> Admissible(people, w)
  {
    var names := people.Keys;
    var traitSets := PowersetOf(names);
    worlds := [];
    for i := 0 to |traitSets|
      invariant Tallied(people, probabilities.table, worlds) && Distinct(worlds)
      invariant forall w :: w in worlds <==> Admissible(people, w) && w.haveTrait in traitSets[..i]
    {
      var haveTrait := traitSets[i];
      assert traitSets[..i + 1] == traitSets[..i] + [haveTrait];
      if FailsEvidence(people, haveTrait) {
        continue;
      }
      var batch := AccumulateOnes(people, probabilities, haveTrait, worlds);
      assert haveTrait !in traitSets[..i];
      AppendBatch(worlds, batch, (w: World) => w.haveTrait, traitSets[..i], haveTrait);
      worlds := worlds + batch;
    }
    assert traitSets[..|traitSets|] == traitSets;
  }

  /**
   * The inference of main: the table starts at 0, the joint probability of
   * every admissible world is added with update, and the table is normalized.
   * Each bucket then holds the posterior of its event given the evidence.
   */
  method Infer(people: People) returns (probabilities: Probabilities, ghost worlds: seq<World>)
    ensures Distinct(worlds) && forall w :: w in worlds <==> Admissible(people, w)
    ensures 0.0 < Sum(worlds, JointTerm(people))
    ensures probabilities.table.Keys == people.Keys
    ensures forall n, g: Copies | n in people ::
      Gene(probabilities.table[n], g) == Sum(worlds, GeneTerm(people, n, g)) / Sum(worlds, JointTerm(people))
    ensures forall n, b: bool | n in people ::
      Trait(probabilities.table[n], b) == Sum(worlds, TraitTerm(people, n, b)) / Sum(worlds, JointTerm(people))
    ensures forall n | n in people ::
      GeneTotal(probabilities.table[n]) == 1.0 && TraitTotal(probabilities.table[n]) == 1.0
  {
    probabilities := new Probabilities(people);
    TalliedStart(people);
    worlds := AccumulateAll(people, probabilities);
    EvidencePositive(people, worlds);
    TalliedPosterior(people, probabilities.table, worlds);
    probabilities.Normalize();
  }
}
