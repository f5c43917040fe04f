/**
 * PageRank of pagerank/pagerank.py: the random surfer's transition model and
 * the iterative computation (`iterate_pagerank`).
 *
 * A corpus maps every page to the set of pages it links to. Probabilities and
 * ranks are reals; `list(corpus.keys())`, the order in which the iteration
 * visits pages, is the sequence `pages`.
 */
module PageRank {
  import opened Wrappers
  import opened Folds

  type Page = string

  /** DAMPING: the probability of following a link rather than jumping anywhere. */
  const Damping: real := 0.85

  /** The entry of m for p, and 0 where m has none. */
  function Lookup(m: map<Page, real>): Page -> real
  {
    p => if p in m then m[p] else 0.0
  }

  /**
   * transition_model: from `page`, with a link, each linked page is reached with
   * probability d / |links| + (1 - d) / N and every other page with (1 - d) / N;
   * without a link, every page is reached with probability 1 / N.
   */
  function TransitionModel(corpus: map<Page, set<Page>>, page: Page, d: real): (r: map<Page, real>)
    requires page in corpus
    ensures r.Keys == corpus.Keys + corpus[page]
    ensures corpus[page] == {} ==> forall p :: p in r ==> r[p] == 1.0 / |corpus| as real
    ensures corpus[page] != {} ==> forall p :: p in r ==>
      r[p] == (if p in corpus[page] then d / |corpus[page]| as real else 0.0) + (1.0 - d) / |corpus| as real
  {
    var keys := corpus.Keys;
    var noOfPages := |corpus|;
    assert page in keys;
    if |corpus[page]| != 0 then
      var links := corpus[page];
      var chooseLinkProbability := d / |links| as real;
      var choosePageProbability := (1.0 - d) / noOfPages as real;
      var withPage := map[page := choosePageProbability];
      var withLinks := withPage + map link | link in links :: chooseLinkProbability + choosePageProbability;
      withLinks + map key | key in keys && key !in withLinks :: choosePageProbability
    else
      var choosePageProbability := 1.0 / noOfPages as real;
      map key | key in keys :: choosePageProbability
  }

  /**
   * When 0 <= d <= 1 every probability of the transition model lies in [0, 1].
   */
  lemma {:induction false} TransitionModelBounds(corpus: map<Page, set<Page>>, page: Page, d: real)
    requires page in corpus && 0.0 <= d <= 1.0
    ensures forall p :: p in TransitionModel(corpus, page, d) ==>
      0.0 <= TransitionModel(corpus, page, d)[p] <= 1.0
  {
    var n := |corpus| as real;
    assert page in corpus.Keys;
    assert n >= 1.0;
    DivisionBounds(1.0 - d, n);
    DivisionBounds(1.0, n);
    if corpus[page] != {} {
      DivisionBounds(d, |corpus[page]| as real);
    }
  }

  /** Over N pages, terms of 1 / N each add up to 1. */
  lemma {:induction false} UniformSum(pages: seq<Page>, f: Page -> real)
    requires |pages| > 0
    requires forall i :: 0 <= i < |pages| ==> f(pages[i]) == 1.0 / |pages| as real
    ensures Sum(pages, f) == 1.0
  {
    SumConstant(pages, f, 1.0 / |pages| as real);
    UnitShares(|pages|, Sum(pages, f));
  }

  /** N shares of 1 / N make 1. */
  lemma {:induction false} UnitShares(n: nat, total: real)
    requires n > 0 && total == n as real * (1.0 / n as real)
    ensures total == 1.0
  {
    Cancel(1.0, n as real);
  }

  /**
   * Over N distinct pages, a jump term (1 - d) / N for every page plus d / |links|
   * for every linked page add up to 1.
   */
  lemma {:induction false} DampedSum(pages: seq<Page>, f: Page -> real, links: set<Page>, d: real, c: real, a: real)
    requires Distinct(pages) && |pages| > 0 && links != {}
    requires forall p :: p in links ==> p in pages
    requires c == (1.0 - d) / |pages| as real && a == d / |links| as real
    requires AffineTerms(pages, f, Indicator(links, 1.0), c, a)
    ensures Sum(pages, f) == 1.0
  {
    SumAffineTerms(pages, f, Indicator(links, 1.0), c, a);
    CountIndicator(pages, links);
    DampedTotal(pages, f, Indicator(links, 1.0), c, a, |links|, d);
  }

  lemma {:induction false} DampedTotal(pages: seq<Page>, f: Page -> real, g: Page -> real, c: real, a: real, l: nat, d: real)
    requires |pages| > 0 && l > 0
    requires c == (1.0 - d) / |pages| as real && a == d / l as real
    requires Sum(pages, g) == l as real
    requires Sum(pages, f) == |pages| as real * c + a * Sum(pages, g)
    ensures Sum(pages, f) == 1.0
  {
    Cancel(1.0 - d, |pages| as real);
    Cancel(d, l as real);
  }

  lemma {:induction false} Cancel(x: real, n: real)
    requires n != 0.0
    ensures n * (x / n) == x && x / n * n == x
  {
  }

  /** Dividing a non-negative number by at least 1 leaves it non-negative and no larger. */
  lemma {:induction false} DivisionBounds(x: real, n: real)
    requires 0.0 <= x && 1.0 <= n
    ensures 0.0 <= x / n <= x
  {
    assert x / n * n == x;
  }

  /**
   * When the page's links stay inside the corpus, the transition model's
   * probabilities over any listing of the pages add up to 1.
   */
  lemma {:induction false} TransitionModelSum(corpus: map<Page, set<Page>>, page: Page, d: real, pages: seq<Page>)
    requires page in corpus && corpus[page] <= corpus.Keys
    requires Distinct(pages) && forall p :: p in corpus <==> p in pages
    ensures Sum(pages, Lookup(TransitionModel(corpus, page, d))) == 1.0
  {
    var r := TransitionModel(corpus, page, d);
    DistinctCardinality(pages, corpus.Keys);
    assert page in corpus.Keys;
    var links := corpus[page];
    if links == {} {
      UniformSum(pages, Lookup(r));
    } else {
      DampedSum(pages, Lookup(r), links, d, (1.0 - d) / |pages| as real, d / |links| as real);
    }
  }



  /** Every link points to a page of the corpus (what `crawl` guarantees). */
  ghost predicate LinksInside(links: map<Page, set<Page>>, pages: seq<Page>)
  {
    forall p, q :: p in links && q in links[p] ==> q in pages
  }

  /** Every page has at least one link, and every link points into the corpus. */
  ghost predicate EveryPageLinks(links: map<Page, set<Page>>, pages: seq<Page>)
  {
    LinksInside(links, pages) && forall p :: p in pages ==> p in links && links[p] != {}
  }

  /** The corpus after the dangling-page patch: a page without links links to every page. */
  function Patched(links: map<Page, set<Page>>, pages: seq<Page>): map<Page, set<Page>>
  {
    map p | p in links :: if links[p] == {} then PageSet(pages) else links[p]
  }

  /** The corpus with only the pages listed in `done` patched. */
  function PatchedAmong(links: map<Page, set<Page>>, pages: seq<Page>, done: seq<Page>): map<Page, set<Page>>
  {
    map p | p in links :: if p in done && links[p] == {} then PageSet(pages) else links[p]
  }

  /** Patching one more page updates that page's entry only. */
  lemma {:induction false} PatchStep(links: map<Page, set<Page>>, pages: seq<Page>, done: seq<Page>, pg: Page)
    requires pg in links && pg !in done
    ensures PatchedAmong(links, pages, done)[pg] == links[pg]
    ensures PatchedAmong(links, pages, done + [pg]) ==
      PatchedAmong(links, pages, done)[pg := if links[pg] == {} then links[pg] + PageSet(pages) else links[pg]]
  {
    var before := PatchedAmong(links, pages, done);
    var after := PatchedAmong(links, pages, done + [pg]);
    var updated := before[pg := if links[pg] == {} then links[pg] + PageSet(pages) else links[pg]];
    forall p | p in after ensures after[p] == updated[p] {
      assert p in done + [pg] <==> p in done || p == pg;
    }
    assert after.Keys == updated.Keys;
  }

  /** Patching every listed page, when the listing covers the corpus, is the whole patch. */
  lemma {:induction false} PatchedAll(links: map<Page, set<Page>>, pages: seq<Page>)
    requires forall p :: p in links ==> p in pages
    ensures PatchedAmong(links, pages, pages) == Patched(links, pages)
  {
  }

  /** The pages of a listing, as a set. */
  function PageSet(pages: seq<Page>): set<Page>
  {
    set q | q in pages
  }

  /** After the patch, a non-empty corpus whose links stay inside it has a link out of every page. */
  lemma {:induction false} PatchedLinks(links: map<Page, set<Page>>, pages: seq<Page>)
    requires |pages| > 0 && LinksInside(links, pages)
    requires forall p :: p in links <==> p in pages
    ensures EveryPageLinks(Patched(links, pages), pages)
    ensures forall p :: p in links ==> links[p] <= Patched(links, pages)[p]
  {
    var patched := Patched(links, pages);
    forall p | p in pages ensures p in patched && patched[p] != {} {
      assert pages[0] in PageSet(pages);
    }
  }

  /** A corpus whose link sets `iterate_pagerank` updates in place. */
  class Corpus {
    /** `list(corpus.keys())`: every page once, in the dict's order. */
    const pages: seq<Page>
    var links: map<Page, set<Page>>

    ghost predicate Valid()
      reads this
    {
      Distinct(pages) && forall p :: p in links <==> p in pages
    }

    constructor(pages: seq<Page>, links: map<Page, set<Page>>)
      requires Distinct(pages) && forall p :: p in links <==> p in pages
      ensures this.pages == pages && this.links == links && Valid()
    {
      this.pages := pages;
      this.links := links;
    }

    /**
     * The dangling-page patch of iterate_pagerank: every page without links is
     * given a link to every page, itself included.
     */
    method PatchDanglingPages()
      requires Valid()
      modifies this
      ensures Valid()
      ensures links == Patched(old(links), pages)
    {
      for i := 0 to |pages|
        invariant Valid()
        invariant links == PatchedAmong(old(links), pages, pages[..i])
      {
        var pg := pages[i];
        assert pg !in pages[..i] by {
          forall k | 0 <= k < i ensures pages[k] != pg {
            assert pages[k] != pages[i];
          }
        }
        PatchStep(old(links), pages, pages[..i], pg);
        assert pages[..i + 1] == pages[..i] + [pg];
        if |links[pg]| == 0 {
          LinkToAll(pg);
        }
      }
      assert pages[..|pages|] == pages;
      PatchedAll(old(links), pages);
    }

    /** The inner loop of the patch: `pg` gets a link to every page. */
    method LinkToAll(pg: Page)
      requires Valid() && pg in links
      modifies this
      ensures Valid()
      ensures links == old(links)[pg := old(links)[pg] + PageSet(pages)]
    {
      for j := 0 to |pages|
        invariant Valid()
        invariant links[pg] == old(links)[pg] + PageSet(pages[..j])
        invariant forall p :: p in links && p != pg ==> links[p] == old(links)[p]
      {
        assert pages[..j + 1] == pages[..j] + [pages[j]];
        assert PageSet(pages[..j + 1]) == PageSet(pages[..j]) + {pages[j]};
        links := links[pg := links[pg] + {pages[j]}];
      }
      assert pages[..|pages|] == pages;
    }
  }

  /** What `source` passes on to `target`: its rank shared equally among its links. */
  function ShareOf(links: map<Page, set<Page>>, ranks: map<Page, real>, source: Page, target: Page): real
  {
    if source in links && target in links[source] && source in ranks
    then ranks[source] / |links[source]| as real
    else 0.0
  }

  /** All shares, indexed by target and then source. */
  function Shares(links: map<Page, set<Page>>, ranks: map<Page, real>): (Page, Page) -> real
  {
    (target, source) => ShareOf(links, ranks, source, target)
  }

  /** The shares flowing into `target`, as a term per source page. */
  function Incoming(links: map<Page, set<Page>>, ranks: map<Page, real>, target: Page): Page -> real
  {
    Row(Shares(links, ranks), target)
  }

  /** The shares flowing out of `source`, as a term per target page. */
  function Outgoing(links: map<Page, set<Page>>, ranks: map<Page, real>, source: Page): Page -> real
  {
    Column(Shares(links, ranks), source)
  }

  /** The pages, in order, that link to `target` (the list `linkedTo`). */
  function LinkedTo(links: map<Page, set<Page>>, pages: seq<Page>, target: Page): (r: seq<Page>)
    ensures forall q :: q in r ==> q in pages && q in links && target in links[q]
    ensures forall q :: q in pages && q in links && target in links[q] ==> q in r
  {
    if pages == [] then []
    else
      var init := pages[..|pages| - 1];
      var last := pages[|pages| - 1];
      assert pages == init + [last];
      LinkedTo(links, init, target) + (if last in links && target in links[last] then [last] else [])
  }

  /** Summing the shares over the linking pages only is summing them over all pages. */
  lemma {:induction false} SumLinkedTo(links: map<Page, set<Page>>, ranks: map<Page, real>, pages: seq<Page>, target: Page)
    ensures Sum(LinkedTo(links, pages, target), Incoming(links, ranks, target)) ==
      Sum(pages, Incoming(links, ranks, target))
  {
    if pages != [] {
      var init := pages[..|pages| - 1];
      var last := pages[|pages| - 1];
      var f := Incoming(links, ranks, target);
      SumLinkedTo(links, ranks, init, target);
      if last in links && target in links[last] {
        SumAppend(LinkedTo(links, init, target), [last], f);
        assert [last][..0] == [];
      } else {
        assert LinkedTo(links, pages, target) == LinkedTo(links, init, target);
      }
    }
  }

  /** A page's new rank in one round: (1 - d) / N plus d times the shares flowing into it. */
  function RoundRank(links: map<Page, set<Page>>, pages: seq<Page>, ranks: map<Page, real>, d: real, target: Page): real
    requires |pages| > 0
  {
    (1.0 - d) / |pages| as real + d * InflowSum(links, ranks, target, pages)
  }

  /** A page's new rank, with the inflow written as a sum of the incoming shares. */
  lemma {:induction false} RoundRankSum(links: map<Page, set<Page>>, pages: seq<Page>, ranks: map<Page, real>, d: real, target: Page)
    requires |pages| > 0
    ensures RoundRank(links, pages, ranks, d, target) ==
      (1.0 - d) / |pages| as real + d * Sum(pages, Incoming(links, ranks, target))
  {
    InflowSumIsSum(links, ranks, target, pages);
  }

  /** The shares the pages of `sources` pass on to `target`, added up left to right. */
  function InflowSum(links: map<Page, set<Page>>, ranks: map<Page, real>, target: Page, sources: seq<Page>): real
  {
    if sources == [] then 0.0
    else InflowSum(links, ranks, target, sources[..|sources| - 1]) + ShareOf(links, ranks, sources[|sources| - 1], target)
  }

  /** InflowSum is the sum of the incoming shares. */
  lemma {:induction false} InflowSumIsSum(links: map<Page, set<Page>>, ranks: map<Page, real>, target: Page, sources: seq<Page>)
    ensures InflowSum(links, ranks, target, sources) == Sum(sources, Incoming(links, ranks, target))
  {
    if sources != [] {
      InflowSumIsSum(links, ranks, target, sources[..|sources| - 1]);
    }
  }

  /** The ranks after one round. */
  function Round(links: map<Page, set<Page>>, pages: seq<Page>, ranks: map<Page, real>, d: real): (r: map<Page, real>)
    requires |pages| > 0
    ensures forall p :: p in r <==> p in pages
  {
    map p | p in pages :: RoundRank(links, pages, ranks, d, p)
  }

  /** The initial ranks, 1 / N for every page. */
  function Initial(pages: seq<Page>): (r: map<Page, real>)
    requires |pages| > 0
    ensures forall p :: p in r <==> p in pages
  {
    map p | p in pages :: 1.0 / |pages| as real
  }

  /** The ranks after k rounds. */
  function Iterate(links: map<Page, set<Page>>, pages: seq<Page>, d: real, k: nat): (r: map<Page, real>)
    requires |pages| > 0
    ensures forall p :: p in r <==> p in pages
  {
    if k == 0 then Initial(pages) else Round(links, pages, Iterate(links, pages, d, k - 1), d)
  }

  function Abs(x: real): real
  {
    if x < 0.0 then -x else x
  }

  /** The stopping test: some page (not every page) changed by less than 0.001. */
  predicate Settled(pages: seq<Page>, before: map<Page, real>, after: map<Page, real>)
    requires forall p :: p in pages ==> p in before && p in after
  {
    exists k :: 0 <= k < |pages| && SettledPage(pages, before, after, k)
  }

  /** The k-th page changed by less than 0.001. */
  predicate SettledPage(pages: seq<Page>, before: map<Page, real>, after: map<Page, real>, k: int)
    requires forall p :: p in pages ==> p in before && p in after
    requires 0 <= k < |pages|
  {
    Abs(after[pages[k]] - before[pages[k]]) < 0.001
  }

  /** Round j (counting from 1) is the one after which the loop stops. */
  ghost predicate SettledAt(links: map<Page, set<Page>>, pages: seq<Page>, d: real, j: nat)
    requires |pages| > 0
  {
    1 <= j && Settled(pages, Iterate(links, pages, d, j - 1), Iterate(links, pages, d, j))
  }

  /** One round of iterate_pagerank's `while` loop (the `for page in pages` loop). */
  method UpdateRound(corpus: Corpus, ranks: map<Page, real>, d: real) returns (next: map<Page, real>)
    requires corpus.Valid() && |corpus.pages| > 0
    requires forall p :: p in corpus.pages ==> p in ranks
    ensures next == Round(corpus.links, corpus.pages, ranks, d)
  {
    var pages := corpus.pages;
    next := map[];
    for i := 0 to |pages|
      invariant forall p :: p in next <==> p in pages[..i]
      invariant forall p :: p in next ==> next[p] == RoundRank(corpus.links, pages, ranks, d, p)
    {
      var page := pages[i];
      var pagerank := PageRankOf(corpus, ranks, d, page);
      next := next[page := pagerank];
      assert pages[..i + 1] == pages[..i] + [page];
    }
    assert pages[..|pages|] == pages;
    SameRanks(next, Round(corpus.links, pages, ranks, d));
  }

  /** Maps with the same keys and the same value at every key are equal. */
  lemma {:induction false} SameRanks(a: map<Page, real>, b: map<Page, real>)
    requires forall p :: p in a <==> p in b
    requires forall p :: p in a ==> a[p] == b[p]
    ensures a == b
  {
  }

  /** The body of that loop: the new rank of one page. */
  method PageRankOf(corpus: Corpus, ranks: map<Page, real>, d: real, page: Page) returns (pagerank: real)
    requires corpus.Valid() && |corpus.pages| > 0
    requires forall p :: p in corpus.pages ==> p in ranks
    ensures pagerank == RoundRank(corpus.links, corpus.pages, ranks, d, page)
  {
    var firstPart := (1.0 - d) / |corpus.pages| as real;
    var linkedTo := LinkingPages(corpus, page);
    var ratio := SharesInto(corpus, ranks, page, linkedTo);
    pagerank := firstPart + (d * ratio);
    RoundRankSum(corpus.links, corpus.pages, ranks, d, page);
  }

  /** The loop collecting `linkedTo`: the pages that link to `page`, in order. */
  method LinkingPages(corpus: Corpus, page: Page) returns (linkedTo: seq<Page>)
    requires corpus.Valid()
    ensures linkedTo == LinkedTo(corpus.links, corpus.pages, page)
  {
    var pages := corpus.pages;
    linkedTo := [];
    for j := 0 to |pages|
      invariant linkedTo == LinkedTo(corpus.links, pages[..j], page)
    {
      var page1 := pages[j];
      assert pages[..j + 1][..j] == pages[..j];
      if page in corpus.links[page1] {
        linkedTo := linkedTo + [page1];
      }
    }
    assert pages[..|pages|] == pages;
  }

  /** The loop summing `ratio`: the shares the linking pages pass on to `page`. */
  method SharesInto(corpus: Corpus, ranks: map<Page, real>, page: Page, linkedTo: seq<Page>) returns (ratio: real)
    requires corpus.Valid() && linkedTo == LinkedTo(corpus.links, corpus.pages, page)
    requires forall p :: p in corpus.pages ==> p in ranks
    ensures ratio == Sum(corpus.pages, Incoming(corpus.links, ranks, page))
  {
    ratio := 0.0;
    for k := 0 to |linkedTo|
      invariant ratio == Sum(linkedTo[..k], Incoming(corpus.links, ranks, page))
    {
      var link := linkedTo[k];
      assert link in linkedTo;
      var linksNumber := |corpus.links[link]|;
      ratio := ratio + ranks[link] / linksNumber as real;
      assert linkedTo[..k + 1][..k] == linkedTo[..k];
    }
    assert linkedTo[..|linkedTo|] == linkedTo;
    SumLinkedTo(corpus.links, ranks, corpus.pages, page);
  }

  /**
   * iterate_pagerank: the ranks start at 1 / N, link-less pages are patched, and
   * rounds are applied until, after some round, at least one page changed by
   * less than 0.001. The result is the ranks after that round (`rounds` of them);
   * `fuel` bounds the number of rounds, and `None` means it ran out first. When
   * every link stays inside the corpus and 0 <= d <= 1, the result is a
   * probability distribution over the pages.
   */
  method IteratePageRank(corpus: Corpus, d: real, fuel: nat) returns (ranks: Option<map<Page, real>>, rounds: nat)
    requires corpus.Valid() && |corpus.pages| > 0
    modifies corpus
    ensures corpus.Valid() && corpus.links == Patched(old(corpus.links), corpus.pages)
    ensures rounds <= fuel
    ensures NoneSettledBefore(corpus.links, corpus.pages, d, rounds)
    ensures ranks.Some? <==>
      SettledAt(corpus.links, corpus.pages, d, rounds)
    ensures ranks.None? ==> rounds == fuel
    ensures ranks.Some? ==> ranks.value == Iterate(corpus.links, corpus.pages, d, rounds)
    ensures ranks.Some? && LinksInside(old(corpus.links), corpus.pages) && 0.0 <= d <= 1.0 ==>
      Distribution(corpus.pages, ranks.value)
  {
    var pages := corpus.pages;
    var pageRank1 := InitialRanks(pages);
    corpus.PatchDanglingPages();
    var stop, pageRank2;
    stop, pageRank2, rounds := RunRounds(corpus, pageRank1, d, fuel);
    if stop {
      ranks := Some(pageRank2);
      if LinksInside(old(corpus.links), pages) && 0.0 <= d <= 1.0 {
        PatchedLinks(old(corpus.links), pages);
        IterateDistribution(corpus.links, pages, d, rounds);
      }
    } else {
      ranks := None;
    }
  }

  /**
   * The `while` loop of iterate_pagerank: rounds until one of them settles, or
   * until `fuel` rounds have been made.
   */
  method RunRounds(corpus: Corpus, initial: map<Page, real>, d: real, fuel: nat)
    returns (stop: bool, ranks: map<Page, real>, rounds: nat)
    requires corpus.Valid() && |corpus.pages| > 0 && initial == Initial(corpus.pages)
    ensures rounds <= fuel && (!stop ==> rounds == fuel)
    ensures NoneSettledBefore(corpus.links, corpus.pages, d, rounds)
    ensures stop <==>
      SettledAt(corpus.links, corpus.pages, d, rounds)
    ensures ranks == Iterate(corpus.links, corpus.pages, d, rounds)
  {
    var pages := corpus.pages;
    var links := corpus.links;
    var pageRank1 := initial;
    stop := false;
    ranks := initial;
    rounds := 0;
    while !stop && rounds < fuel
      invariant rounds <= fuel
      invariant pageRank1 == Iterate(links, pages, d, rounds) && ranks == pageRank1
      invariant NoneSettledBefore(links, pages, d, rounds)
      invariant stop <==> SettledAt(links, pages, d, rounds)
      decreases fuel - rounds
    {
      var pageRank2;
      pageRank2, stop := NextRound(corpus, pageRank1, d, rounds);
      pageRank1 := pageRank2;
      ranks := pageRank2;
      rounds := rounds + 1;
    }
  }

  /** No round before round r settled: the loop did not stop early. */
  ghost predicate NoneSettledBefore(links: map<Page, set<Page>>, pages: seq<Page>, d: real, r: nat)
    requires |pages| > 0
  {
    r <= 1 || (!SettledAt(links, pages, d, r - 1) && NoneSettledBefore(links, pages, d, r - 1))
  }

  /** What NoneSettledBefore says about each earlier round. */
  lemma {:induction false} NotSettledBefore(links: map<Page, set<Page>>, pages: seq<Page>, d: real, r: nat, j: nat)
    requires |pages| > 0 && NoneSettledBefore(links, pages, d, r) && 1 <= j < r
    ensures !SettledAt(links, pages, d, j)
    decreases r
  {
    if j < r - 1 {
      NotSettledBefore(links, pages, d, r - 1, j);
    }
  }

  /** One pass of the `while` loop: the next round, and whether it settles. */
  method NextRound(corpus: Corpus, pageRank1: map<Page, real>, d: real, ghost k: nat)
    returns (pageRank2: map<Page, real>, stop: bool)
    requires corpus.Valid() && |corpus.pages| > 0
    requires pageRank1 == Iterate(corpus.links, corpus.pages, d, k)
    ensures pageRank2 == Iterate(corpus.links, corpus.pages, d, k + 1)
    ensures stop == SettledAt(corpus.links, corpus.pages, d, k + 1)
  {
    pageRank2 := UpdateRound(corpus, pageRank1, d);
    stop := AnySettled(corpus.pages, pageRank1, pageRank2);
  }

  /** The initial loop of iterate_pagerank: every page starts at 1 / N. */
  method InitialRanks(pages: seq<Page>) returns (ranks: map<Page, real>)
    requires |pages| > 0
    ensures ranks == Initial(pages)
  {
    var noOfPages := |pages|;
    ranks := map[];
    for i := 0 to noOfPages
      invariant forall p :: p in ranks <==> p in pages[..i]
      invariant forall p :: p in ranks ==> ranks[p] == 1.0 / noOfPages as real
    {
      assert pages[..i + 1] == pages[..i] + [pages[i]];
      ranks := ranks[pages[i] := 1.0 / noOfPages as real];
    }
    assert pages[..noOfPages] == pages;
    SameRanks(ranks, Initial(pages));
  }

  /** The stopping loop of iterate_pagerank: does any page's rank differ by less than 0.001? */
  method AnySettled(pages: seq<Page>, before: map<Page, real>, after: map<Page, real>) returns (stop: bool)
    requires forall p :: p in pages ==> p in before && p in after
    ensures stop == Settled(pages, before, after)
  {
    stop := false;
    var k := 0;
    while k < |pages|
      invariant 0 <= k <= |pages|
      invariant stop <==> exists m :: 0 <= m < k && SettledPage(pages, before, after, m)
    {
      var page := pages[k];
      if Abs(after[page] - before[page]) < 0.001 {
        assert SettledPage(pages, before, after, k);
        stop := true;
      }
      k := k + 1;
    }
  }

  /** Ranks that lie in [0, 1] and add up to 1 over the pages. */
  ghost predicate Distribution(pages: seq<Page>, ranks: map<Page, real>)
  {
    Sum(pages, Lookup(ranks)) == 1.0 && forall p :: p in ranks ==> 0.0 <= ranks[p] <= 1.0
  }

  /**
   * Flow conservation: when every page links to at least one page of the corpus,
   * the shares flowing into all pages add up to the ranks flowing out of them.
   */
  lemma {:induction false} InflowTotal(links: map<Page, set<Page>>, pages: seq<Page>, ranks: map<Page, real>)
    requires Distinct(pages) && EveryPageLinks(links, pages)
    requires forall p :: p in pages ==> p in ranks
    ensures Sum(pages, Inflow(links, pages, ranks)) == Sum(pages, Lookup(ranks))
  {
    var g := Shares(links, ranks);
    SumSwap(pages, pages, g);
    forall i | 0 <= i < |pages| ensures ColumnSums(g, pages)(pages[i]) == Lookup(ranks)(pages[i]) {
      OutflowTotal(links, pages, ranks, pages[i]);
    }
    SumCongruent(pages, ColumnSums(g, pages), Lookup(ranks));
  }

  /** The shares flowing into each page, as a term per page. */
  function Inflow(links: map<Page, set<Page>>, pages: seq<Page>, ranks: map<Page, real>): Page -> real
  {
    RowSums(Shares(links, ranks), pages)
  }

  /** A page with links passes on exactly its rank. */
  lemma {:induction false} OutflowTotal(links: map<Page, set<Page>>, pages: seq<Page>, ranks: map<Page, real>, source: Page)
    requires Distinct(pages) && EveryPageLinks(links, pages)
    requires source in pages && source in ranks
    ensures Sum(pages, Outgoing(links, ranks, source)) == ranks[source]
  {
    var out := links[source];
    var share := ranks[source] / |out| as real;
    forall i | 0 <= i < |pages| ensures Outgoing(links, ranks, source)(pages[i]) == Indicator(out, share)(pages[i]) {
    }
    SumCongruent(pages, Outgoing(links, ranks, source), Indicator(out, share));
    SumIndicator(pages, out, share);
    Cancel(ranks[source], |out| as real);
  }

  /** One round maps a rank total of T to (1 - d) + d * T. */
  lemma {:induction false} RoundTotal(links: map<Page, set<Page>>, pages: seq<Page>, ranks: map<Page, real>, d: real, total: real)
    requires Distinct(pages) && |pages| > 0 && EveryPageLinks(links, pages)
    requires forall p :: p in pages ==> p in ranks
    requires Sum(pages, Lookup(ranks)) == total
    ensures Sum(pages, Lookup(Round(links, pages, ranks, d))) == (1.0 - d) + d * total
  {
    RoundLookup(links, pages, ranks, d);
    InflowTotal(links, pages, ranks);
    JumpSum(pages, Inflow(links, pages, ranks), d, total);
  }

  /** With terms adding up to T, the terms (1 - d) / N + d * term add up to (1 - d) + d * T. */
  lemma {:induction false} JumpSum(pages: seq<Page>, g: Page -> real, d: real, total: real)
    requires |pages| > 0 && Sum(pages, g) == total
    ensures Sum(pages, Affine(g, (1.0 - d) / |pages| as real, d)) == (1.0 - d) + d * total
  {
    SumAffine(pages, g, (1.0 - d) / |pages| as real, d);
    Cancel(1.0 - d, |pages| as real);
  }

  /** The new ranks of one round, as a term per page: the jump term plus d times the inflow. */
  function NewRanks(links: map<Page, set<Page>>, pages: seq<Page>, ranks: map<Page, real>, d: real): Page -> real
    requires |pages| > 0
  {
    Affine(Inflow(links, pages, ranks), (1.0 - d) / |pages| as real, d)
  }

  /** Adding up the round's map over the pages is adding up the new ranks. */
  lemma {:induction false} RoundLookup(links: map<Page, set<Page>>, pages: seq<Page>, ranks: map<Page, real>, d: real)
    requires |pages| > 0
    ensures Sum(pages, Lookup(Round(links, pages, ranks, d))) == Sum(pages, NewRanks(links, pages, ranks, d))
  {
    var r := Round(links, pages, ranks, d);
    forall i | 0 <= i < |pages| ensures Lookup(r)(pages[i]) == NewRanks(links, pages, ranks, d)(pages[i]) {
      RoundLookupAt(links, pages, ranks, d, pages[i]);
    }
    SumCongruent(pages, Lookup(r), NewRanks(links, pages, ranks, d));
  }

  /** The round's map and the new-rank term agree on every page. */
  lemma {:induction false} RoundLookupAt(links: map<Page, set<Page>>, pages: seq<Page>, ranks: map<Page, real>, d: real, p: Page)
    requires |pages| > 0 && p in pages
    ensures Lookup(Round(links, pages, ranks, d))(p) == NewRanks(links, pages, ranks, d)(p)
  {
    assert Inflow(links, pages, ranks)(p) == Sum(pages, Incoming(links, ranks, p));
    assert NewRanks(links, pages, ranks, d)(p) ==
      (1.0 - d) / |pages| as real + d * Sum(pages, Incoming(links, ranks, p));
    assert Lookup(Round(links, pages, ranks, d))(p) == RoundRank(links, pages, ranks, d, p);
    RoundRankSum(links, pages, ranks, d, p);
  }

  /**
   * With a link out of every page, all inside the corpus, and 0 <= d <= 1, the
   * ranks after any number of rounds are a probability distribution: each lies
   * in [0, 1] and together they add up to 1.
   */
  lemma {:induction false} IterateDistribution(links: map<Page, set<Page>>, pages: seq<Page>, d: real, k: nat)
    requires Distinct(pages) && |pages| > 0 && EveryPageLinks(links, pages)
    requires 0.0 <= d <= 1.0
    ensures Distribution(pages, Iterate(links, pages, d, k))
  {
    if k == 0 {
      InitialDistribution(pages);
    } else {
      IterateDistribution(links, pages, d, k - 1);
      RoundDistribution(links, pages, Iterate(links, pages, d, k - 1), d);
    }
  }

  /** The initial ranks are a probability distribution. */
  lemma {:induction false} InitialDistribution(pages: seq<Page>)
    requires Distinct(pages) && |pages| > 0
    ensures Distribution(pages, Initial(pages))
  {
    UniformSum(pages, Lookup(Initial(pages)));
    DivisionBounds(1.0, |pages| as real);
  }

  /** With a link out of every page, all inside the corpus, a round keeps ranks a probability distribution. */
  lemma {:induction false} RoundDistribution(links: map<Page, set<Page>>, pages: seq<Page>, ranks: map<Page, real>, d: real)
    requires Distinct(pages) && |pages| > 0 && EveryPageLinks(links, pages)
    requires 0.0 <= d <= 1.0
    requires forall p :: p in ranks <==> p in pages
    requires Distribution(pages, ranks)
    ensures Distribution(pages, Round(links, pages, ranks, d))
  {
    RoundUnit(links, pages, ranks, d);
    RoundNonNegative(links, pages, ranks, d);
    TermsBounded(pages, Round(links, pages, ranks, d));
  }

  /** Ranks adding up to 1 still add up to 1 after a round. */
  lemma {:induction false} RoundUnit(links: map<Page, set<Page>>, pages: seq<Page>, ranks: map<Page, real>, d: real)
    requires Distinct(pages) && |pages| > 0 && EveryPageLinks(links, pages)
    requires forall p :: p in pages ==> p in ranks
    requires Sum(pages, Lookup(ranks)) == 1.0
    ensures Sum(pages, Lookup(Round(links, pages, ranks, d))) == 1.0
  {
    RoundTotal(links, pages, ranks, d, 1.0);
    UnitTotal(d, Sum(pages, Lookup(Round(links, pages, ranks, d))));
  }

  /** A total of 1 is a fixed point of T |-> (1 - d) + d * T. */
  lemma {:induction false} UnitTotal(d: real, total: real)
    requires total == (1.0 - d) + d * 1.0
    ensures total == 1.0
  {
  }

  /** Non-negative ranks stay non-negative after a round. */
  lemma {:induction false} RoundNonNegative(links: map<Page, set<Page>>, pages: seq<Page>, ranks: map<Page, real>, d: real)
    requires |pages| > 0 && 0.0 <= d <= 1.0
    requires forall p :: p in ranks ==> 0.0 <= ranks[p]
    ensures forall p :: p in Round(links, pages, ranks, d) ==> 0.0 <= Round(links, pages, ranks, d)[p]
  {
    forall p | p in pages ensures 0.0 <= RoundRank(links, pages, ranks, d, p) {
      forall i | 0 <= i < |pages| ensures 0.0 <= Incoming(links, ranks, p)(pages[i]) {
        ShareNonNegative(links, ranks, pages[i], p);
      }
      SumNonNegative(pages, Incoming(links, ranks, p));
      RoundRankSum(links, pages, ranks, d, p);
      DivisionBounds(1.0 - d, |pages| as real);
      ScaledNonNegative(d, Sum(pages, Incoming(links, ranks, p)));
    }
  }

  lemma {:induction false} ScaledNonNegative(a: real, b: real)
    requires 0.0 <= a && 0.0 <= b
    ensures 0.0 <= a * b
  {
  }

  /** Non-negative ranks that add up to 1 over the pages are each at most 1. */
  lemma {:induction false} TermsBounded(pages: seq<Page>, ranks: map<Page, real>)
    requires forall p :: p in ranks <==> p in pages
    requires forall p :: p in ranks ==> 0.0 <= ranks[p]
    requires Sum(pages, Lookup(ranks)) == 1.0
    ensures forall p :: p in ranks ==> ranks[p] <= 1.0
  {
    forall p | p in ranks ensures ranks[p] <= 1.0 {
      var i :| 0 <= i < |pages| && pages[i] == p;
      SumBoundsTerm(pages, Lookup(ranks), i);
    }
  }

  lemma {:induction false} ShareNonNegative(links: map<Page, set<Page>>, ranks: map<Page, real>, source: Page, target: Page)
    requires source in ranks ==> 0.0 <= ranks[source]
    ensures 0.0 <= ShareOf(links, ranks, source, target)
  {
    if source in links && target in links[source] && source in ranks {
      DivisionBounds(ranks[source], |links[source]| as real);
    }
  }
}
