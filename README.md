# cs50-AI cores in Dafny

This project models the four self-contained cores of the cs50-AI projects:

- **heredity**: exact Bayesian inference over a family tree.
  - The probability table `PROBS`.
  - `powerset`.
  - `joint_probability`: the probability of one world, where a world is an assignment of gene copies and of the trait to everybody.
  - `update`: adds a world's probability to each person's buckets.
  - `normalize`: rescales each person's distributions to sum to 1.
  - The inference loop of `main`: every world that agrees with the known traits.
- **tictactoe**: the game rules (`initial_state`, `lookInBoard`, `player`, `actions`, `result`, `winner`, `terminal`, `utility`) and the minimax search (`minimax`, `maxValue`, `minValue`).
- **pagerank**: the random-surfer `transition_model` and `iterate_pagerank`: initial ranks, the dangling-page patch, rounds and the stopping test.
- **questions**: TF-IDF retrieval: `compute_idfs`, `top_files` and `top_sentences`.

How the model is written:
- Probabilities, ranks and scores are exact `real`s.
- A Python dict whose key order matters is a `map` together with a sequence of its keys in insertion order.
- A Python set that is iterated is visited with `:|`, so no order is assumed.
- Code that updates state keeps that form:
  - `update` and `normalize` change a `Probabilities` object in place;
  - the dangling-page patch changes a `Corpus` object in place;
  - loops are `while` or `for` loops, each proved against a specification function.

Files:
- `wrappers.dfy`: `Option` and `Result`.
- `folds.dfy`: sums and products over sequences and sets, used by all four cores.
- `subsets.dfy`: `powerset`.
- `heredity.dfy`: `PROBS` and `joint_probability`.
- `inference.dfy`: `update`, `normalize` and the loop of `main`.
- `tictactoe.dfy`: the game rules and the minimax search.
- `pagerank.dfy`: the transition model and `iterate_pagerank`.
- `questions.dfy` and `ranking.dfy`: TF-IDF retrieval, and the stable descending sort with the `[:n]` slice that it uses.

Two places where the program's own comments and its code disagree; the model follows the code:
- The docstring of `load_data` (heredity/heredity.py:100) says a person's mother and father are both blank or both valid names. `joint_probability` does not rely on that (heredity/heredity.py:170-203): a person with one parent named, or with a parent missing from the family, matches no row of the case table, so the gene part of that person's factor stays 1. `Heredity.GeneFactor` keeps this fallback. For families where both parents are named and present, or neither is, `Heredity.GeneFactorCases` shows the factor is the prior or the inheritance probability.
- The loop of `iterate_pagerank` is meant to repeat until the ranks settle, but its test (pagerank/pagerank.py:194-196) sets `stop` when *some* page, not every page, changed by less than 0.001. `PageRank.AnySettled` states the test as written.

## Model

| member | source | states |
|---|---|---|
| Heredity.ProbsWellFormed | heredity/heredity.py:5-37 | The gene prior sums to 1, each trait row sums to 1, every entry is positive, and the mutation rate lies strictly between 0 and 1. |
| Subsets.CombinationsCount | heredity/heredity.py:123-126 | `combinations(s, r)` yields C(\|s\|, r) selections. |
| Subsets.CombinationsSubsets | heredity/heredity.py:123-126 | Over a list without repetitions, every selection of size r is an r-element subset of the list's elements. |
| Subsets.CombinationsComplete | heredity/heredity.py:123-126 | Every subset of the list's elements is among the selections of its size. |
| Subsets.CombinationsDistinct | heredity/heredity.py:123-126 | Over a list without repetitions, no selection is produced twice. |
| Subsets.PowersetExactlyOnce | heredity/heredity.py:118-127 | `powerset` of a list without repetitions has 2^n entries, no two equal, and a set is among them exactly when it is a subset. |
| Subsets.PowersetOf | heredity/heredity.py:118-127 | `powerset(s)` of a set returns each of the 2^\|s\| subsets of `s` exactly once. |
| Subsets.SplitsCount | heredity/heredity.py:76-77 | The reference enumeration of (one-copy, two-copy) splits of n names, each name in neither set, the first or the second, has 3^n entries. |
| Subsets.SplitsMembers | heredity/heredity.py:76-77 | Over names without repetitions, a pair is listed exactly when its first set is a subset of the names and its second a subset of the names outside the first. |
| Subsets.SplitsDistinct | heredity/heredity.py:76-77 | Over names without repetitions, no split is listed twice. |
| Heredity.NoCopyTableIsInheritance | heredity/heredity.py:171-202 | Each of the nine zero-copy cases equals (1 - pm)(1 - pf), where pm and pf are the parents' chances of passing the gene (μ, 0.5 or 1 - μ). |
| Heredity.OneCopyTableIsInheritance | heredity/heredity.py:230-265 | Each of the nine one-copy cases equals pm(1 - pf) + (1 - pm)pf. |
| Heredity.TwoCopyTableIsInheritance | heredity/heredity.py:294-324 | Each of the nine two-copy cases equals pm·pf. |
| Heredity.ChildTableIsInheritance | heredity/heredity.py:171-324 | The three case tables together are the two-independent-parents inheritance model, for any mutation rate. |
| Heredity.InheritSumsToOne | heredity/heredity.py:171-324 | For any parents' copies, the child's zero-, one- and two-copy probabilities sum to 1. |
| Heredity.InheritSymmetric | heredity/heredity.py:171-324 | Swapping the mother's and the father's copies changes no outcome. |
| Heredity.InheritPositive | heredity/heredity.py:171-324 | With 0 < μ < 1, every child outcome has positive probability. |
| Heredity.InheritBounds | heredity/heredity.py:171-324 | With 0 < μ < 1, every child outcome lies in (0, 1]. |
| Heredity.ChildTablesDistribution | heredity/heredity.py:171-324 | With PROBS' μ, the tables as written sum to 1 over the child's copies, are symmetric in the parents, and lie in (0, 1]. |
| Heredity.GeneFactorCases | heredity/heredity.py:155-332 | In a family where both parents are named and present, or neither is, a person's gene factor is the prior (no parents) or the inheritance probability given the parents' copies in the same world. |
| Heredity.PersonFactorPositive | heredity/heredity.py:155-332 | Every person's factor, gene part times trait part, is positive. |
| Heredity.JointPositive | heredity/heredity.py:130-339 | Every world has positive joint probability. |
| Heredity.JointOfNobody | heredity/heredity.py:335-339 | Over an empty family the joint probability is 1, the empty product. |
| Heredity.Partition | heredity/heredity.py:141-150 | The zero-copy people are those in neither gene set, and the people without the trait are those outside the trait set. |
| Heredity.FactorOf | heredity/heredity.py:155-332 | The factor appended for one person is the prior or the case-table entry (1 when the parents are not found), times the trait probability for that person's copies. |
| Heredity.AppendFactors | heredity/heredity.py:155-332 | One of the three loops appends exactly one factor per member of its group, each member once. |
| Heredity.Multiply | heredity/heredity.py:335-339 | The final loop computes the product of the factor list. |
| Folds.SetSumNonNegative | questions/questions.py:128-134 | A sum over a set of non-negative terms is non-negative. |
| Folds.SetSumZero | questions/questions.py:128-134 | A sum over a set of zero terms is zero. |
| Folds.ProductPermutation | heredity/heredity.py:335-339 | The product of one term per person does not depend on the order in which the people are listed. |
| Folds.ProductOfTerms | heredity/heredity.py:335-339 | A product over a listing without repetitions equals the product over the listed set. |
| Heredity.JointProbability | heredity/heredity.py:130-339 | For disjoint one-copy and two-copy sets of people, `joint_probability` is the product, over the whole family, of one factor per person. |
| Inference.RecordTouchesOneBucket | heredity/heredity.py:360-373 | Adding p to one person changes exactly one gene bucket and exactly one trait bucket, by p, so each total grows by p. |
| Inference.Updated | heredity/heredity.py:343-373 | `update` neither adds nor removes a person. |
| Inference.AddToBuckets | heredity/heredity.py:360-373 | For one person, the zero-copy, one-copy or two-copy bucket is chosen in the source's order, then the True or False bucket. |
| Inference.Probabilities.constructor | heredity/heredity.py:47-60 | Every person starts with all five buckets at 0. |
| Inference.Probabilities.Update | heredity/heredity.py:343-373 | Every person's entry is updated as one `Record` of the world's p, and nobody is added or removed. |
| Inference.Normalized | heredity/heredity.py:376-399 | `normalize` neither adds nor removes a person. |
| Inference.RescaledSumsToOne | heredity/heredity.py:376-399 | After `normalize`, each person's gene buckets sum to 1 and their trait buckets sum to 1. |
| Inference.RescaledKeepsRatios | heredity/heredity.py:376-399 | `normalize` keeps proportions: every new bucket times the old total is the old bucket. |
| Inference.RescaledBounds | heredity/heredity.py:376-399 | With non-negative buckets, every bucket after `normalize` lies in [0, 1]. |
| Inference.RescaleGenes | heredity/heredity.py:383-391 | The gene half of `normalize` for one person: sum the three buckets, then multiply each by 1 / total. |
| Inference.RescaleTraits | heredity/heredity.py:393-399 | The trait half: sum the True and False buckets, then multiply each by 1 / total. |
| Inference.Rescale | heredity/heredity.py:382-399 | `normalize` of one person, provided both totals are non-zero. |
| Inference.Probabilities.Normalize | heredity/heredity.py:376-399 | When no total is zero, every person's entry is rescaled. |
| Inference.ObservedTraitAgrees | heredity/heredity.py:66-73 | The set of people known to show the trait always passes the evidence test. |
| Inference.PassesEvidence | heredity/heredity.py:66-73 | A trait set passes the evidence test exactly when it holds everybody known to show the trait and nobody known not to. |
| Inference.KnownTraitsAcceptOneSet | heredity/heredity.py:63-73 | When every trait is known, a trait set passes the test exactly when it is the set of people known to show the trait. |
| Inference.TalliedStart | heredity/heredity.py:47-60 | The starting table has tallied no world. |
| Inference.TallyEntry | heredity/heredity.py:79-81 | Adding a world's probability to one person makes each of their buckets hold that bucket's probability mass over one more world. |
| Inference.TallyStep | heredity/heredity.py:79-81 | After `update` with a world's joint probability, every bucket of everybody holds its event's probability mass over the worlds seen so far, that world included. |
| Inference.GeneTermsAddUp | heredity/heredity.py:343-373 | Over any worlds, the masses of a person's three gene events add up to the mass of all the worlds. |
| Inference.TraitTermsAddUp | heredity/heredity.py:343-373 | Over any worlds, the masses of a person's two trait events add up to the mass of all the worlds. |
| Inference.EvidencePositive | heredity/heredity.py:62-84 | The worlds that pass the evidence test have positive total probability, so `normalize` never divides by zero. |
| Inference.TalliedTotals | heredity/heredity.py:83-84 | In a tallied table, both totals of every person equal the mass of all the worlds. |
| Inference.RescaledBucket | heredity/heredity.py:376-399 | After `normalize`, a bucket is its old value over its distribution's old total. |
| Inference.TalliedPosterior | heredity/heredity.py:83-84 | After `normalize`, a tallied table holds each bucket's posterior (its event's mass over the mass of all the worlds), and each distribution sums to 1. |
| Inference.Accumulate | heredity/heredity.py:79-81 | The innermost loop body adds one world's `joint_probability` with `update`, which tallies that world. |
| Inference.AccumulateTwos | heredity/heredity.py:77-81 | The innermost loop visits every two-copy set outside `one_gene` exactly once and tallies each world. |
| Inference.AccumulateOnes | heredity/heredity.py:76-81 | The middle loop visits every pair (one-copy set, disjoint two-copy set) exactly once, 3^N worlds for N people, and tallies each world. |
| Inference.WorldsPerTraitSet | heredity/heredity.py:76-81 | For one trait set, a repetition-free list of exactly the worlds with every one-copy set and every two-copy set outside it has 3^N entries. |
| Inference.KnownTraitsWorldCount | heredity/heredity.py:63-81 | When every trait is known, the loops of `main` visit 3^N worlds in all, since exactly one trait set passes the test. |
| Inference.AccumulateAll | heredity/heredity.py:62-81 | The outer loop visits exactly the worlds whose trait set passes the evidence test, each once, and tallies them. |
| Inference.Infer | heredity/heredity.py:46-84 | The inference of `main` leaves every person's buckets at the posterior of their event given the evidence, over exactly the admissible worlds, with each distribution summing to 1 and the evidence's probability positive. |
| TicTacToe.InitialState | tictactoe/tictactoe.py:16-22 | The starting board has every cell empty. |
| TicTacToe.LookInBoard | tictactoe/tictactoe.py:24-41 | The three counts are the exact numbers of empty cells, X's and O's, and they add up to 9. |
| TicTacToe.CountTotal | tictactoe/tictactoe.py:34-41 | On any board the three counts add up to 9. |
| TicTacToe.Result | tictactoe/tictactoe.py:77-94 | A row or column above 2 raises `InvalidAction` and an index below -3 fails. Otherwise the new board equals the old one except the played cell, which gets X on X's turn and O otherwise. |
| TicTacToe.Play | tictactoe/tictactoe.py:77-94 | A legal action fills exactly one empty cell. |
| TicTacToe.ResultPlays | tictactoe/tictactoe.py:77-94 | `result` accepts every legal action and plays it. |
| TicTacToe.PlayerFull | tictactoe/tictactoe.py:44-58 | `player` returns None exactly on a full board. |
| TicTacToe.InitialTurn | tictactoe/tictactoe.py:16-58 | X moves first, on a board that is not terminal and has nine empty cells. |
| TicTacToe.PlayAlternates | tictactoe/tictactoe.py:44-94 | From a board where X has as many marks as O, or one more, a legal action keeps it so and passes the turn to the other player. |
| TicTacToe.WinnerSound | tictactoe/tictactoe.py:99-135 | `winner` always names a mark that owns a complete line, and a board with a complete line has a winner. |
| TicTacToe.WinnerComplete | tictactoe/tictactoe.py:99-135 | When only one mark owns a complete line, that mark is the winner. |
| TicTacToe.FirstCompleteAt | tictactoe/tictactoe.py:99-135 | Within one group of lines, the first complete line in testing order gives the group's mark. |
| TicTacToe.FirstCompleteNone | tictactoe/tictactoe.py:99-135 | A group without a complete line reports no mark. |
| TicTacToe.DifferentMarksParallel | tictactoe/tictactoe.py:99-135 | On any board, a line owned by X and a line owned by O are both rows or both columns. |
| TicTacToe.UpperRowDecides | tictactoe/tictactoe.py:99-135 | On any board where the topmost complete row has mark c and a lower row is complete with the other mark, `winner` returns c. |
| TicTacToe.LeftColumnDecides | tictactoe/tictactoe.py:99-135 | On any board where the leftmost complete column has mark c and a column to its right is complete with the other mark, `winner` returns c. |
| TicTacToe.DiagonalDecides | tictactoe/tictactoe.py:99-135 | A complete diagonal decides `winner` whatever the rows and columns hold. |
| TicTacToe.TerminalLines | tictactoe/tictactoe.py:138-149 | `terminal` holds exactly when the board is full or some mark owns a complete line. |
| TicTacToe.Utility | tictactoe/tictactoe.py:152-163 | The utility lies in [-1, 1]; it is 1 exactly when X wins and -1 exactly when O wins. |
| TicTacToe.Actions | tictactoe/tictactoe.py:61-74 | `actions` returns no action on a terminal board, and otherwise every empty cell. |
| TicTacToe.ActionsExist | tictactoe/tictactoe.py:61-74 | The legal actions are empty exactly on a terminal board; otherwise they are exactly the empty cells. |
| TicTacToe.LargestInOrder | tictactoe/tictactoe.py:204-209 | Folding `max` over the actions in any order without repetition gives the maximum over the set. |
| TicTacToe.SmallestInOrder | tictactoe/tictactoe.py:217-222 | Folding `min` over the actions in any order without repetition gives the minimum over the set. |
| TicTacToe.OutcomeBounds | tictactoe/tictactoe.py:199-222 | Game values lie in [-1, 1]. |
| TicTacToe.MaxValue | tictactoe/tictactoe.py:199-209 | `maxValue` is the utility of a terminal board, and otherwise the largest `minValue` over the actions; the early `break` at 1 does not change it. |
| TicTacToe.LargestReply | tictactoe/tictactoe.py:204-209 | The loop of `maxValue` over the action set computes the largest reply value. |
| TicTacToe.LargestOver | tictactoe/tictactoe.py:204-209 | The loop over any order of the actions, stopping at 1, computes the maximum of the reply values. |
| TicTacToe.MinReply | tictactoe/tictactoe.py:206 | `minValue(result(board, action))` is the value of the legal action when O then minimises. |
| TicTacToe.MinValue | tictactoe/tictactoe.py:212-222 | `minValue` is the utility of a terminal board, and otherwise the smallest `maxValue` over the actions; the early `break` at -1 does not change it. |
| TicTacToe.SmallestReply | tictactoe/tictactoe.py:217-222 | The loop of `minValue` over the action set computes the smallest reply value. |
| TicTacToe.SmallestOver | tictactoe/tictactoe.py:217-222 | The loop over any order of the actions, stopping at -1, computes the minimum of the reply values. |
| TicTacToe.MaxReply | tictactoe/tictactoe.py:219 | `maxValue(result(board, action))` is the value of the legal action when X then maximises. |
| TicTacToe.Minimax | tictactoe/tictactoe.py:165-196 | `minimax` returns nothing exactly on a terminal board. Otherwise it returns a legal action whose resulting value is the game value for the player to move. |
| TicTacToe.BestForX | tictactoe/tictactoe.py:172-183 | X's branch returns a legal action of greatest reply value. |
| TicTacToe.ScanForX | tictactoe/tictactoe.py:175-183 | X's loop returns an action of the order whose value is the maximum, and every action before it in the order has a smaller value: the first action worth 1, or else the first of greatest value. |
| TicTacToe.LargestInBounds | tictactoe/tictactoe.py:175-183 | Every value among the first n actions is at most the running maximum. |
| TicTacToe.FirstAboveAt | tictactoe/tictactoe.py:175-183 | When the k-th action's value exceeds the running maximum of the actions before it, every earlier action has a smaller value. |
| TicTacToe.BestForO | tictactoe/tictactoe.py:185-196 | O's branch returns a legal action of least reply value. |
| TicTacToe.ScanForO | tictactoe/tictactoe.py:188-196 | O's loop returns an action of the order whose value is the minimum, and every action before it in the order has a larger value: the first action worth -1, or else the first of least value. |
| TicTacToe.SmallestInBounds | tictactoe/tictactoe.py:188-196 | Every value among the first n actions is at least the running minimum. |
| TicTacToe.FirstBelowAt | tictactoe/tictactoe.py:188-196 | When the k-th action's value is below the running minimum of the actions before it, every earlier action has a larger value. |
| PageRank.TransitionModel | pagerank/pagerank.py:53-97 | The keys are the corpus pages together with the pages the given page links to (a link outside the corpus gets an entry too). Without links every page gets 1/N. With links each linked page gets d/\|links\| + (1-d)/N and every other page (1-d)/N. |
| PageRank.TransitionModelBounds | pagerank/pagerank.py:53-97 | With 0 <= d <= 1, every probability lies in [0, 1]. |
| PageRank.TransitionModelSum | pagerank/pagerank.py:53-97 | When the page's links stay inside the corpus, the probabilities add up to 1. |
| PageRank.Corpus.PatchDanglingPages | pagerank/pagerank.py:166-170 | Every page without links gets a link to every page, itself included; pages with links keep theirs. |
| PageRank.Corpus.LinkToAll | pagerank/pagerank.py:169-170 | The inner loop adds every page to one page's links and changes nothing else. |
| PageRank.PatchedLinks | pagerank/pagerank.py:166-170 | After the patch, a corpus whose links stay inside it has a link out of every page, and no link was removed. |
| PageRank.InitialRanks | pagerank/pagerank.py:162-164 | Every page starts at 1/N. |
| PageRank.Initial | pagerank/pagerank.py:162-164 | The initial ranks have exactly the corpus pages as keys. |
| PageRank.InitialDistribution | pagerank/pagerank.py:162-164 | The initial ranks are a probability distribution. |
| PageRank.LinkedTo | pagerank/pagerank.py:179-182 | `linkedTo` lists exactly the pages that link to the target. |
| PageRank.LinkingPages | pagerank/pagerank.py:177-182 | The loop builds `linkedTo` in page order. |
| PageRank.SumLinkedTo | pagerank/pagerank.py:185-188 | Summing the shares over `linkedTo` is summing them over all pages. |
| PageRank.InflowSumIsSum | pagerank/pagerank.py:185-188 | Adding up the incoming shares one linking page at a time gives their sum over all pages. |
| PageRank.SharesInto | pagerank/pagerank.py:183-188 | `ratio` is the sum, over the pages linking to the target, of rank / outdegree. |
| PageRank.PageRankOf | pagerank/pagerank.py:176-192 | A page's new rank is (1-d)/N + d · ratio. |
| PageRank.RoundRankSum | pagerank/pagerank.py:176-190 | A page's new rank is (1-d)/N plus d times the sum of the shares flowing into it. |
| PageRank.Round | pagerank/pagerank.py:175-192 | A round gives a rank to exactly the corpus pages. |
| PageRank.UpdateRound | pagerank/pagerank.py:175-192 | One pass of the `for page in pages` loop computes the new rank of every page. |
| PageRank.Iterate | pagerank/pagerank.py:174-198 | The ranks after k rounds have exactly the corpus pages as keys. |
| PageRank.InflowTotal | pagerank/pagerank.py:185-190 | When every page has a link inside the corpus, the shares flowing into all pages add up to the total rank. |
| PageRank.OutflowTotal | pagerank/pagerank.py:185-188 | A page with links passes on exactly its rank. |
| PageRank.RoundTotal | pagerank/pagerank.py:175-192 | A round maps a rank total T to (1 - d) + d·T. |
| PageRank.RoundUnit | pagerank/pagerank.py:175-192 | Ranks adding up to 1 still add up to 1 after a round. |
| PageRank.RoundNonNegative | pagerank/pagerank.py:175-192 | Non-negative ranks stay non-negative after a round. |
| PageRank.RoundDistribution | pagerank/pagerank.py:175-192 | With a link out of every page, all inside the corpus, and 0 <= d <= 1, a round keeps the ranks a probability distribution. |
| PageRank.IterateDistribution | pagerank/pagerank.py:154-192 | Under the same conditions, the ranks after any number of rounds are a probability distribution. |
| PageRank.AnySettled | pagerank/pagerank.py:194-196 | The stopping test holds when some page, not every page, changed by less than 0.001. |
| PageRank.NextRound | pagerank/pagerank.py:175-196 | One pass of the `while` loop yields the ranks after the next round and whether that round settles. |
| PageRank.RunRounds | pagerank/pagerank.py:172-198 | The `while` loop returns the ranks after `rounds` rounds; it stopped exactly when round `rounds` settled, no earlier round settled, and otherwise the fuel ran out. |
| PageRank.NotSettledBefore | pagerank/pagerank.py:172-198 | A loop that reached round r without stopping saw no round j, 1 <= j < r, settle. |
| PageRank.IteratePageRank | pagerank/pagerank.py:148-200 | `iterate_pagerank` patches the corpus in place and returns the ranks after the first settling round. When the links stay inside the corpus and 0 <= d <= 1, these ranks are a probability distribution. |
| Questions.DocumentCountBounds | questions/questions.py:103-105 | A word that occurs somewhere occurs in between 1 and all of the documents. |
| Questions.ComputeIdfs | questions/questions.py:84-107 | The keys are exactly the words of all documents. Each value is log(documents / documents containing the word), with a ratio of at least 1. |
| Questions.IdfsOf | questions/questions.py:101-105 | The second loop gives each word of the documents the entry log(N / documents containing it), that count lying between 1 and N. |
| Questions.CountTerms | questions/questions.py:120-125 | `tf[f, w]` is the number of occurrences of w in file f, for every word of every file. |
| Questions.TfIdfBounds | questions/questions.py:128-134 | The `myfilter` score of a file without query words is 0, and with non-negative idfs no score is negative. |
| Questions.FileScore | questions/questions.py:128-134 | A file's score is the sum, over the query words in it, of tf · idf. |
| Questions.ScoreFiles | questions/questions.py:128-136 | Every file in order gets its tf-idf score. |
| Questions.TopFiles | questions/questions.py:110-138 | `top_files` returns min(n, \|files\|) distinct files, in non-increasing score order with ties in the files' original order. No file left out scores higher than one returned, and a file left out that ties with a returned one comes later in the original order. |
| Questions.FilesByScore | questions/questions.py:127-138 | The files taken in ranking order are min(n, \|files\|) distinct files, best score first, ties in key order, none left out scoring higher, and none left out tying with a selected file while coming before it. |
| Questions.ScoresOrdered | questions/questions.py:136-138 | The selected files are in non-increasing score order. |
| Questions.ScoresTied | questions/questions.py:136-138 | Selected files of equal score keep their original order. |
| Questions.ScoresOmitted | questions/questions.py:136-138 | No file left out scores higher than a selected one. |
| Questions.SelectionByScore | questions/questions.py:136-138 | The first n positions of the stable descending sort by score satisfy all of the above; at the cut, ties go to the earlier file. |
| Questions.ScoresCutTied | questions/questions.py:136-138 | At the cut of `[:n]`, a file left out that ties with a selected file comes after it in the original order. |
| Questions.MatchQuery | questions/questions.py:152-160 | The loop over the query computes the matching word measure and the number of matched query words. |
| Questions.QueryTermDensity | questions/questions.py:161 | The density lies in [0, 1] and is 0 exactly when no query word occurs. |
| Questions.SentenceKeyOrder | questions/questions.py:165 | Sentences compare by matching word measure, then by density. |
| Questions.SentenceKeys | questions/questions.py:152-162 | Every sentence in order gets its key; the loop fails with division by zero exactly when some sentence has no words. |
| Questions.TopSentences | questions/questions.py:141-168 | `top_sentences` fails exactly when some sentence has no words. Otherwise it returns min(n, \|sentences\|) distinct sentences, in non-increasing (measure, density) order with ties in original order. No sentence left out ranks higher, and one left out with an equal key comes later in the original order. |
| Questions.KeysOrdered | questions/questions.py:165-168 | The selected sentences are in non-increasing key order. |
| Questions.KeysTied | questions/questions.py:165-168 | Selected sentences of equal key keep their original order. |
| Questions.KeysOmitted | questions/questions.py:165-168 | No sentence left out has a larger key than a selected one. |
| Questions.KeysCutTied | questions/questions.py:165-168 | At the cut of `[:n]`, a sentence left out with the same key as a selected one comes after it in the original order. |
| Ranking.LexLessIrreflexive | questions/questions.py:165 | Tuple comparison is irreflexive. |
| Ranking.LexLessTransitive | questions/questions.py:165 | Tuple comparison is transitive. |
| Ranking.LexLessTotal | questions/questions.py:165 | Any two tuples are equal or one is smaller. |
| Ranking.PairLess | questions/questions.py:165 | Pairs compare by their first component, then by their second. |
| Ranking.InsertRanked | questions/questions.py:136 | Inserting an entry into a ranked list keeps it ranked and adds exactly that entry. |
| Ranking.InsertPermutes | questions/questions.py:136 | Inserting adds exactly the new entry and keeps every position in range. |
| Ranking.SortFrom | questions/questions.py:136 | The stable descending sort of a suffix is a ranked permutation of its positions. |
| Ranking.StableSortDescending | questions/questions.py:136 | `sort(reverse=True)` leaves every position exactly once, larger keys first and equal keys in their original order. |
| Ranking.ScoreKeysRanked | questions/questions.py:136 | With a single score as key, entry i goes before entry j when it scores higher, or scores the same and comes earlier. |
| Ranking.TopPositions | questions/questions.py:137-138 | The slice `[:n]` holds min(n, \|keys\|) distinct positions in ranking order, and none left out ranks before a selected one. |
| Ranking.SelectedEntries | questions/questions.py:136-138 | Mapped back to the entries, the selection is min(n, \|entries\|) distinct entries, ordered by key, with ties in original order. No entry left out has a larger key, and one left out with an equal key comes after the selected one. |
| Ranking.OmittedEntries | questions/questions.py:136-138 | An entry cut off by `[:n]` has no larger key than a selected entry, and when the keys are equal it comes later in the original order. |

## Left out

- Floating point: every probability, rank and score is an exact real. Rounding and summation-order effects are not modelled.
- `load_data` of heredity and questions' `load_files` (file input), `crawl` of pagerank (file system and regular expressions), command-line handling and all printing, including the print loop at the end of heredity's `main`.
- `sample_pagerank`: random sampling is not modelled.
- `tokenize` of questions (nltk); documents are given as word lists. The natural logarithm is a parameter `log` of `Questions.ComputeIdfs`.
- shopping/shopping.py is not part of this model.
- The order in which Python iterates a set: loops over sets pick any remaining element. For a given order, `TicTacToe.ScanForX` and `TicTacToe.ScanForO` return the first best action, but since the order itself is unknown, `minimax` is specified only by the value of its choice.
- tictactoe's module globals `emptyCount`, `XCount` and `OCount` are out-parameters of `TicTacToe.LookInBoard`, not shared state.
- minimax's implicit `None` for a player that is neither X nor O cannot arise, since a board that is not terminal has an empty cell.
- The `name` field of a heredity person is not modelled; the family is a map from names to persons.
- `Heredity.GeneFactor`: a child with only one parent named, or with a parent outside the family, keeps the source's fallback factor 1. Only families with both parents present or none are proved to follow the inheritance model.
- heredity's nested dicts `probabilities[person]["gene"]` and `["trait"]` always hold the same five keys, so they are the fields of `Inference.Distribution`.
- `PageRank.IteratePageRank`: termination of the `while` loop is not modelled; a `fuel` bound on the number of rounds stands in for it, and `None` means the bound was reached.
- `Questions.TopFiles` and `Questions.TopSentences` require every query word occurring in a document to have an idf, as `main` guarantees; the source would otherwise raise `KeyError`.
