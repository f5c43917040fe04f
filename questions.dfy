/**
 * TF-IDF retrieval of questions/questions.py: inverse document frequencies
 * (`compute_idfs`), file ranking by summed tf-idf (`top_files`) and sentence
 * ranking by summed idf with query-term density as tie-break (`top_sentences`).
 *
 * A dict is modelled as a `map` together with its key order (`order`, the keys
 * without repetition, in insertion order); a set of query words is a `set`,
 * visited in no particular order. The natural logarithm is a parameter `log`.
 */
module Questions {
  import opened Wrappers
  import opened Folds
  import opened Ranking

  type Word = string

  /** A file name, or the text of a sentence. */
  type Name = string

  /** `order` lists the keys of `documents`, each exactly once. */
  ghost predicate KeyOrder(order: seq<Name>, documents: map<Name, seq<Word>>)
  {
    Distinct(order) && (forall f :: f in documents <==> f in order)
  }

  /** Every word that occurs in at least one document. */
  function AllWords(documents: map<Name, seq<Word>>): set<Word>
  {
    set f, w | f in documents && w in documents[f] :: w
  }

  /** The number of documents in which `w` occurs. */
  function DocumentCount(documents: map<Name, seq<Word>>, w: Word): nat
  {
    |set f | f in documents && w in documents[f]|
  }

  /** A word that occurs somewhere occurs in between 1 and all of the documents. */
  lemma DocumentCountBounds(documents: map<Name, seq<Word>>, w: Word)
    requires w in AllWords(documents)
    ensures 1 <= DocumentCount(documents, w) <= |documents|
  {
    var holders := set f | f in documents && w in documents[f];
    var f :| f in documents && w in documents[f];
    assert holders == {f} + (holders - {f});
    SubsetCardinality(holders, documents.Keys);
  }

  /**
   * compute_idfs: every word of every document gets an entry, namely log of the
   * number of documents over the number of documents containing the word; that
   * ratio is at least 1.
   */
  method ComputeIdfs(documents: map<Name, seq<Word>>, log: real -> real) returns (idfs: map<Word, real>)
    ensures idfs.Keys == AllWords(documents)
    ensures forall w :: w in idfs ==> 1 <= DocumentCount(documents, w) <= |documents|
    ensures forall w :: w in idfs ==>
      idfs[w] == log(|documents| as real / DocumentCount(documents, w) as real)
  {
    var allWords: set<Word> := {};
    var remaining := documents.Keys;
    while remaining != {}
      invariant remaining <= documents.Keys
      invariant allWords == set f, w | f in documents && f !in remaining && w in documents[f] :: w
      decreases |remaining|
    {
      var filename :| filename in remaining;
      WordsStep(documents, remaining, allWords, filename);
      allWords := allWords + (set w | w in documents[filename]);
      remaining := remaining - {filename};
    }
    assert allWords == AllWords(documents);
    idfs := IdfsOf(documents, allWords, log);
  }

  /** The second loop of compute_idfs: one entry per word, log(N / number of documents with it). */
  method IdfsOf(documents: map<Name, seq<Word>>, allWords: set<Word>, log: real -> real) returns (idfs: map<Word, real>)
    requires allWords == AllWords(documents)
    ensures idfs.Keys == allWords
    ensures IdfEntries(documents, idfs, log)
  {
    var noOfDocuments := |documents|;
    idfs := map[];
    var words := allWords;
    while words != {}
      invariant words <= allWords
      invariant idfs.Keys == allWords - words
      invariant IdfEntries(documents, idfs, log)
      decreases |words|
    {
      var word :| word in words;
      DocumentCountBounds(documents, word);
      var count := DocumentCount(documents, word);
      IdfEntriesAdd(documents, idfs, log, word);
      idfs := idfs[word := log(noOfDocuments as real / count as real)];
      words := words - {word};
    }
  }

  /** Every entry is log(N / number of documents with the word), that number being 1 to N. */
  ghost predicate IdfEntries(documents: map<Name, seq<Word>>, idfs: map<Word, real>, log: real -> real)
  {
    forall w :: w in idfs ==>
      1 <= DocumentCount(documents, w) <= |documents| &&
      idfs[w] == log(|documents| as real / DocumentCount(documents, w) as real)
  }

  lemma IdfEntriesAdd(documents: map<Name, seq<Word>>, idfs: map<Word, real>, log: real -> real, word: Word)
    requires IdfEntries(documents, idfs, log)
    requires 1 <= DocumentCount(documents, word) <= |documents|
    ensures IdfEntries(documents,
      idfs[word := log(|documents| as real / DocumentCount(documents, word) as real)], log)
  {
  }

  /** Visiting one more document adds its words to those seen so far. */
  lemma WordsStep(documents: map<Name, seq<Word>>, remaining: set<Name>, allWords: set<Word>, filename: Name)
    requires filename in remaining && remaining <= documents.Keys
    requires allWords == set f, w | f in documents && f !in remaining && w in documents[f] :: w
    ensures allWords + (set w | w in documents[filename]) ==
      set f, w | f in documents && f !in remaining - {filename} && w in documents[f] :: w
  {
  }

  /** How often `w` occurs in `words`. */
  function Occurrences(words: seq<Word>, w: Word): nat
  {
    multiset(words)[w]
  }

  /** The tf-idf contribution of a query word to a file with the given words. */
  function TfIdfTerm(words: seq<Word>, idfs: map<Word, real>): Word -> real
  {
    w => if w in words && w in idfs then Product(Occurrences(words, w), idfs[w]) else 0.0
  }

  /** tf times idf. */
  function Product(tf: nat, idf: real): real
  {
    tf as real * idf
  }

  /** A file's score: the sum, over query words occurring in it, of tf times idf. */
  ghost function TfIdf(query: set<Word>, words: seq<Word>, idfs: map<Word, real>): real
  {
    SetSum(query, TfIdfTerm(words, idfs))
  }

  /**
   * A file holding none of the query words scores 0, and with non-negative
   * idfs no file scores below 0.
   */
  lemma TfIdfBounds(query: set<Word>, words: seq<Word>, idfs: map<Word, real>)
    ensures (forall w | w in query :: w !in words) ==> TfIdf(query, words, idfs) == 0.0
    ensures (forall w | w in idfs :: 0.0 <= idfs[w]) ==> 0.0 <= TfIdf(query, words, idfs)
  {
    var term := TfIdfTerm(words, idfs);
    if forall w | w in query :: w !in words {
      forall w | w in query ensures term(w) == 0.0 {
      }
      SetSumZero(query, term);
    }
    if forall w | w in idfs :: 0.0 <= idfs[w] {
      forall w | w in query ensures 0.0 <= term(w) {
      }
      SetSumNonNegative(query, term);
    }
  }

  /** `tf` holds, for every file and every word of it, the word's number of occurrences. */
  ghost predicate TermFrequencies(files: map<Name, seq<Word>>, tf: map<(Name, Word), nat>)
  {
    && (forall f, w :: (f, w) in tf <==> f in files && w in files[f])
    && (forall f, w :: (f, w) in tf ==> tf[(f, w)] == Occurrences(files[f], w))
  }

  /** The tf loop of top_files. */
  method CountTerms(files: map<Name, seq<Word>>, order: seq<Name>) returns (tf: map<(Name, Word), nat>)
    requires KeyOrder(order, files)
    ensures TermFrequencies(files, tf)
  {
    tf := map[];
    for i := 0 to |order|
      invariant forall f, w :: (f, w) in tf <==> f in order[..i] && w in files[f]
      invariant forall f, w :: (f, w) in tf ==> tf[(f, w)] == Occurrences(files[f], w)
    {
      var f := order[i];
      var words := files[f];
      assert f !in order[..i];
      for j := 0 to |words|
        invariant forall g, w :: (g, w) in tf <==> (g in order[..i] && w in files[g]) || (g == f && w in words[..j])
        invariant forall g, w :: (g, w) in tf && g != f ==> tf[(g, w)] == Occurrences(files[g], w)
        invariant forall w :: (f, w) in tf ==> tf[(f, w)] == multiset(words[..j])[w]
      {
        var word := words[j];
        assert words[..j + 1] == words[..j] + [word];
        if (f, word) !in tf {
          tf := tf[(f, word) := 1];
        } else {
          tf := tf[(f, word) := tf[(f, word)] + 1];
        }
      }
      assert words[..|words|] == words;
      assert order[..i + 1] == order[..i] + [f];
    }
    assert order[..|order|] == order;
  }

  /** The key function `myfilter` of top_files. */
  method FileScore(query: set<Word>, words: seq<Word>, f: Name, tf: map<(Name, Word), nat>, idfs: map<Word, real>) returns (score: real)
    requires forall w :: w in words ==> (f, w) in tf && tf[(f, w)] == Occurrences(words, w)
    requires forall w :: w in query && w in words ==> w in idfs
    ensures score == TfIdf(query, words, idfs)
  {
    score := 0.0;
    var remaining := query;
    while remaining != {}
      invariant remaining <= query
      invariant score + SetSum(remaining, TfIdfTerm(words, idfs)) == TfIdf(query, words, idfs)
      decreases |remaining|
    {
      var word :| word in remaining;
      SetSumRemove(remaining, TfIdfTerm(words, idfs), word);
      assert TfIdfTerm(words, idfs)(word) ==
        if word in words && word in idfs then Product(Occurrences(words, word), idfs[word]) else 0.0;
      if word in words {
        score := score + Product(tf[(f, word)], idfs[word]);
      }
      remaining := remaining - {word};
    }
  }

  /** The sort key `myfilter` applied to every file, in the files' order. */
  method ScoreFiles(query: set<Word>, files: map<Name, seq<Word>>, order: seq<Name>,
                    tf: map<(Name, Word), nat>, idfs: map<Word, real>) returns (scores: seq<real>)
    requires KeyOrder(order, files) && TermFrequencies(files, tf)
    requires forall f, w :: f in files && w in query && w in files[f] ==> w in idfs
    ensures |scores| == |order|
    ensures forall k :: 0 <= k < |order| ==> scores[k] == TfIdf(query, files[order[k]], idfs)
  {
    scores := [];
    for i := 0 to |order|
      invariant |scores| == i
      invariant forall k :: 0 <= k < i ==> scores[k] == TfIdf(query, files[order[k]], idfs)
    {
      var f := order[i];
      assert forall w :: w in files[f] ==> (f, w) in tf && tf[(f, w)] == Occurrences(files[f], w);
      var score := FileScore(query, files[f], f, tf, idfs);
      scores := scores + [score];
    }
  }

  /**
   * top_files: min(n, |files|) distinct file names, in non-increasing order of
   * tf-idf score, ties in the files' original order, and no file left out
   * scoring higher than one returned.
   */
  method TopFiles(query: set<Word>, files: map<Name, seq<Word>>, order: seq<Name>,
                  idfs: map<Word, real>, n: nat) returns (top: seq<Name>)
    requires KeyOrder(order, files)
    requires forall f, w :: f in files && w in query && w in files[f] ==> w in idfs
    ensures |top| == Min(n, |files|)
    ensures Distinct(top) && forall i :: 0 <= i < |top| ==> top[i] in files
    ensures forall i, j :: 0 <= i < j < |top| ==>
      TfIdf(query, files[top[j]], idfs) <= TfIdf(query, files[top[i]], idfs)
    ensures forall i, j, a, b ::
      (0 <= i < j < |top| && 0 <= a < |order| && 0 <= b < |order| &&
       top[i] == order[a] && top[j] == order[b] &&
       TfIdf(query, files[top[j]], idfs) == TfIdf(query, files[top[i]], idfs)) ==> a < b
    ensures forall i, f :: 0 <= i < |top| && f in files && f !in top ==>
      TfIdf(query, files[f], idfs) <= TfIdf(query, files[top[i]], idfs)
    ensures forall i, a, b ::
      (0 <= i < |top| && 0 <= a < |order| && 0 <= b < |order| && top[i] == order[a] && order[b] !in top &&
       TfIdf(query, files[order[b]], idfs) == TfIdf(query, files[top[i]], idfs)) ==> a < b
  {
    var tf := CountTerms(files, order);
    var scores := ScoreFiles(query, files, order, tf, idfs);
    var ranking := TopPositions(ScoreKeys(scores), n);
    top := seq(|ranking|, k requires 0 <= k < |ranking| => order[ranking[k]]);
    FilesByScore(query, files, order, idfs, n, scores, ranking, top);
  }

  /** The files in ranking order are the best-scoring ones, best first, ties in key order. */
  lemma FilesByScore(query: set<Word>, files: map<Name, seq<Word>>, order: seq<Name>,
                     idfs: map<Word, real>, n: nat, scores: seq<real>, ranking: seq<nat>, top: seq<Name>)
    requires KeyOrder(order, files) && |scores| == |order|
    requires forall k :: 0 <= k < |order| ==> scores[k] == TfIdf(query, files[order[k]], idfs)
    requires ranking == TopPositions(ScoreKeys(scores), n)
    requires |top| == |ranking| && forall k :: 0 <= k < |ranking| ==> top[k] == order[ranking[k]]
    ensures |top| == Min(n, |files|)
    ensures Distinct(top) && forall i :: 0 <= i < |top| ==> top[i] in files
    ensures forall i, j :: 0 <= i < j < |top| ==>
      TfIdf(query, files[top[j]], idfs) <= TfIdf(query, files[top[i]], idfs)
    ensures forall i, j, a, b ::
      (0 <= i < j < |top| && 0 <= a < |order| && 0 <= b < |order| &&
       top[i] == order[a] && top[j] == order[b] &&
       TfIdf(query, files[top[j]], idfs) == TfIdf(query, files[top[i]], idfs)) ==> a < b
    ensures forall i, f :: 0 <= i < |top| && f in files && f !in top ==>
      TfIdf(query, files[f], idfs) <= TfIdf(query, files[top[i]], idfs)
    ensures forall i, a, b ::
      (0 <= i < |top| && 0 <= a < |order| && 0 <= b < |order| && top[i] == order[a] && order[b] !in top &&
       TfIdf(query, files[order[b]], idfs) == TfIdf(query, files[top[i]], idfs)) ==> a < b
  {
    SelectionByScore(files.Keys, order, scores, n, ranking, top);
    ScoresOrdered(query, files, order, idfs, scores, ranking, top);
    ScoresTied(query, files, order, idfs, scores, ranking, top);
    ScoresOmitted(query, files, order, idfs, scores, ranking, top);
    ScoresCutTied(query, files, order, idfs, scores, ranking, top);
  }

  /* The selection's facts about positions, restated in terms of the files' scores. */

  lemma ScoresOrdered(query: set<Word>, files: map<Name, seq<Word>>, order: seq<Name>,
                      idfs: map<Word, real>, scores: seq<real>, ranking: seq<nat>, top: seq<Name>)
    requires KeyOrder(order, files) && |scores| == |order|
    requires forall k :: 0 <= k < |order| ==> scores[k] == TfIdf(query, files[order[k]], idfs)
    requires |top| == |ranking| && forall k :: 0 <= k < |ranking| ==> ranking[k] < |order| && top[k] == order[ranking[k]]
    requires forall i, j :: 0 <= i < j < |top| ==> scores[ranking[j]] <= scores[ranking[i]]
    ensures forall i, j :: 0 <= i < j < |top| ==>
      TfIdf(query, files[top[j]], idfs) <= TfIdf(query, files[top[i]], idfs)
  {
    forall k | 0 <= k < |top| ensures scores[ranking[k]] == TfIdf(query, files[top[k]], idfs) {
    }
  }

  lemma ScoresTied(query: set<Word>, files: map<Name, seq<Word>>, order: seq<Name>,
                      idfs: map<Word, real>, scores: seq<real>, ranking: seq<nat>, top: seq<Name>)
    requires KeyOrder(order, files) && |scores| == |order|
    requires forall k :: 0 <= k < |order| ==> scores[k] == TfIdf(query, files[order[k]], idfs)
    requires |top| == |ranking| && forall k :: 0 <= k < |ranking| ==> ranking[k] < |order| && top[k] == order[ranking[k]]
    requires forall i, j, a, b ::
      (0 <= i < j < |top| && 0 <= a < |order| && 0 <= b < |order| &&
       top[i] == order[a] && top[j] == order[b] && scores[ranking[j]] == scores[ranking[i]]) ==> a < b
    ensures forall i, j, a, b ::
      (0 <= i < j < |top| && 0 <= a < |order| && 0 <= b < |order| &&
       top[i] == order[a] && top[j] == order[b] &&
       TfIdf(query, files[top[j]], idfs) == TfIdf(query, files[top[i]], idfs)) ==> a < b
  {
    forall k | 0 <= k < |top| ensures scores[ranking[k]] == TfIdf(query, files[top[k]], idfs) {
    }
  }

  lemma ScoresOmitted(query: set<Word>, files: map<Name, seq<Word>>, order: seq<Name>,
                      idfs: map<Word, real>, scores: seq<real>, ranking: seq<nat>, top: seq<Name>)
    requires KeyOrder(order, files) && |scores| == |order|
    requires forall k :: 0 <= k < |order| ==> scores[k] == TfIdf(query, files[order[k]], idfs)
    requires |top| == |ranking| && forall k :: 0 <= k < |ranking| ==> ranking[k] < |order| && top[k] == order[ranking[k]]
    requires forall i, b :: 0 <= i < |top| && 0 <= b < |order| && order[b] !in top ==>
      scores[b] <= scores[ranking[i]]
    ensures forall i, f :: 0 <= i < |top| && f in files && f !in top ==>
      TfIdf(query, files[f], idfs) <= TfIdf(query, files[top[i]], idfs)
  {
    forall k | 0 <= k < |top| ensures scores[ranking[k]] == TfIdf(query, files[top[k]], idfs) {
    }
    forall i, f | 0 <= i < |top| && f in files && f !in top
      ensures TfIdf(query, files[f], idfs) <= TfIdf(query, files[top[i]], idfs)
    {
      var b :| 0 <= b < |order| && order[b] == f;
      assert scores[b] <= scores[ranking[i]];
    }
  }

  lemma ScoresCutTied(query: set<Word>, files: map<Name, seq<Word>>, order: seq<Name>,
                      idfs: map<Word, real>, scores: seq<real>, ranking: seq<nat>, top: seq<Name>)
    requires KeyOrder(order, files) && |scores| == |order|
    requires forall k :: 0 <= k < |order| ==> scores[k] == TfIdf(query, files[order[k]], idfs)
    requires |top| == |ranking| && forall k :: 0 <= k < |ranking| ==> ranking[k] < |order| && top[k] == order[ranking[k]]
    requires forall i, a, b ::
      (0 <= i < |top| && 0 <= a < |order| && 0 <= b < |order| &&
       top[i] == order[a] && order[b] !in top && scores[b] == scores[ranking[i]]) ==> a < b
    ensures forall i, a, b ::
      (0 <= i < |top| && 0 <= a < |order| && 0 <= b < |order| && top[i] == order[a] && order[b] !in top &&
       TfIdf(query, files[order[b]], idfs) == TfIdf(query, files[top[i]], idfs)) ==> a < b
  {
    forall k | 0 <= k < |top| ensures scores[ranking[k]] == TfIdf(query, files[top[k]], idfs) {
    }
  }

  /**
   * What the first n positions of a ranking by score say about the names at
   * those positions.
   */
  lemma SelectionByScore(keys: set<Name>, order: seq<Name>, scores: seq<real>, n: nat,
                         ranking: seq<nat>, top: seq<Name>)
    requires Distinct(order) && (forall f :: f in keys <==> f in order) && |scores| == |order|
    requires ranking == TopPositions(ScoreKeys(scores), n)
    requires |top| == |ranking| && forall k :: 0 <= k < |ranking| ==> top[k] == order[ranking[k]]
    ensures |top| == Min(n, |keys|)
    ensures Distinct(top) && forall i :: 0 <= i < |top| ==> top[i] in keys
    ensures forall i, j :: 0 <= i < j < |top| ==> scores[ranking[j]] <= scores[ranking[i]]
    ensures forall i, j, a, b ::
      (0 <= i < j < |top| && 0 <= a < |order| && 0 <= b < |order| &&
       top[i] == order[a] && top[j] == order[b] && scores[ranking[j]] == scores[ranking[i]]) ==> a < b
    ensures forall i, b :: 0 <= i < |top| && 0 <= b < |order| && order[b] !in top ==>
      scores[b] <= scores[ranking[i]]
    ensures forall i, a, b ::
      (0 <= i < |top| && 0 <= a < |order| && 0 <= b < |order| &&
       top[i] == order[a] && order[b] !in top && scores[b] == scores[ranking[i]]) ==> a < b
  {
    var keys' := ScoreKeys(scores);
    SelectedEntries(keys, order, keys', n, ranking, top);
    forall i, j | 0 <= i < |top| && 0 <= j < |order|
      ensures LexLeq(keys'[j], keys'[ranking[i]]) ==> scores[j] <= scores[ranking[i]]
      ensures keys'[j] == keys'[ranking[i]] <==> scores[j] == scores[ranking[i]]
    {
      ScoreKeysRanked(scores, ranking[i], j);
    }
  }


  /** The query words that occur in a sentence. */
  function Matched(query: set<Word>, words: seq<Word>): set<Word>
  {
    set w | w in query && w in words
  }

  /** The idf contribution of a query word to a sentence with the given words. */
  function IdfTerm(words: seq<Word>, idfs: map<Word, real>): Word -> real
  {
    w => if w in words && w in idfs then idfs[w] else 0.0
  }

  /** Matching word measure: the sum of the idfs of the query words occurring in the sentence. */
  ghost function MatchingWordMeasure(query: set<Word>, words: seq<Word>, idfs: map<Word, real>): real
  {
    SetSum(query, IdfTerm(words, idfs))
  }

  /**
   * Query term density: the number of query words occurring in the sentence over
   * the sentence's length; a fraction between 0 and 1.
   */
  function QueryTermDensity(query: set<Word>, words: seq<Word>): (r: real)
    requires |words| > 0
    ensures 0.0 <= r <= 1.0
    ensures r == 0.0 <==> Matched(query, words) == {}
  {
    ElementsCardinality(words);
    SubsetCardinality(Matched(query, words), set w | w in words);
    |Matched(query, words)| as real / |words| as real
  }

  /** The sort key of a sentence in top_sentences. */
  ghost function SentenceKey(query: set<Word>, words: seq<Word>, idfs: map<Word, real>): seq<real>
    requires |words| > 0
  {
    [MatchingWordMeasure(query, words, idfs), QueryTermDensity(query, words)]
  }

  /**
   * Sentences are ranked by matching word measure, and sentences of equal
   * measure by query term density.
   */
  lemma SentenceKeyOrder(query: set<Word>, v: seq<Word>, w: seq<Word>, idfs: map<Word, real>)
    requires |v| > 0 && |w| > 0
    ensures LexLess(SentenceKey(query, v, idfs), SentenceKey(query, w, idfs)) <==>
      MatchingWordMeasure(query, v, idfs) < MatchingWordMeasure(query, w, idfs) ||
      (MatchingWordMeasure(query, v, idfs) == MatchingWordMeasure(query, w, idfs) &&
       QueryTermDensity(query, v) < QueryTermDensity(query, w))
  {
    PairLess(MatchingWordMeasure(query, v, idfs), QueryTermDensity(query, v),
             MatchingWordMeasure(query, w, idfs), QueryTermDensity(query, w));
  }

  /** The inner loop of top_sentences: the summed idfs and the number of query words in a sentence. */
  method MatchQuery(query: set<Word>, words: seq<Word>, idfs: map<Word, real>) returns (score: real, common: nat)
    requires forall w :: w in query && w in words ==> w in idfs
    ensures score == MatchingWordMeasure(query, words, idfs)
    ensures common == |Matched(query, words)|
  {
    score := 0.0;
    common := 0;
    var remaining := query;
    ghost var matched: set<Word> := {};
    while remaining != {}
      invariant remaining <= query
      invariant score + SetSum(remaining, IdfTerm(words, idfs)) == MatchingWordMeasure(query, words, idfs)
      invariant matched == Matched(query, words) - remaining
      invariant common == |matched|
      decreases |remaining|
    {
      var word :| word in remaining;
      SetSumRemove(remaining, IdfTerm(words, idfs), word);
      assert IdfTerm(words, idfs)(word) == if word in words && word in idfs then idfs[word] else 0.0;
      MatchedStep(query, words, remaining, matched, word);
      if word in words {
        common := common + 1;
        score := score + idfs[word];
        matched := matched + {word};
      }
      remaining := remaining - {word};
    }
  }

  /** Visiting one more query word: it joins the matched words exactly when it occurs. */
  lemma MatchedStep(query: set<Word>, words: seq<Word>, remaining: set<Word>, matched: set<Word>, word: Word)
    requires remaining <= query && word in remaining
    requires matched == Matched(query, words) - remaining
    ensures word in words ==>
      word !in matched && matched + {word} == Matched(query, words) - (remaining - {word})
    ensures word !in words ==> matched == Matched(query, words) - (remaining - {word})
  {
  }

  /** The error top_sentences raises: a sentence without words makes the density a division by zero. */
  datatype Error = ZeroDivisionError

  /** Every sentence has at least one word. */
  predicate NonEmptySentences(sentences: map<Name, seq<Word>>)
  {
    forall s :: s in sentences ==> |sentences[s]| > 0
  }

  /**
   * The loop of top_sentences that pairs every sentence, in order, with its key;
   * it fails on the first sentence without words.
   */
  method SentenceKeys(query: set<Word>, sentences: map<Name, seq<Word>>, order: seq<Name>,
                      idfs: map<Word, real>) returns (result: Result<seq<seq<real>>, Error>)
    requires KeyOrder(order, sentences)
    requires forall s, w :: s in sentences && w in query && w in sentences[s] ==> w in idfs
    ensures result.Failure? <==> !NonEmptySentences(sentences)
    ensures result.Success? ==> |result.value| == |order|
    ensures result.Success? ==> forall k :: 0 <= k < |order| ==>
      |sentences[order[k]]| > 0 && result.value[k] == SentenceKey(query, sentences[order[k]], idfs)
  {
    var keys: seq<seq<real>> := [];
    for i := 0 to |order|
      invariant |keys| == i
      invariant forall k :: 0 <= k < i ==>
        |sentences[order[k]]| > 0 && keys[k] == SentenceKey(query, sentences[order[k]], idfs)
    {
      var words := sentences[order[i]];
      var score, common := MatchQuery(query, words, idfs);
      if |words| == 0 {
        return Failure(ZeroDivisionError);
      }
      var qtd := common as real / |words| as real;
      keys := keys + [[score, qtd]];
    }
    forall s | s in sentences ensures |sentences[s]| > 0 {
      var b :| 0 <= b < |order| && order[b] == s;
    }
    result := Success(keys);
  }

  /**
   * top_sentences: fails exactly when some sentence has no words; otherwise
   * min(n, |sentences|) distinct sentences in non-increasing order of (matching
   * word measure, query term density), compared as Python compares tuples, ties
   * in the sentences' original order, and no sentence left out ranking higher
   * than one returned.
   */
  method TopSentences(query: set<Word>, sentences: map<Name, seq<Word>>, order: seq<Name>,
                      idfs: map<Word, real>, n: nat) returns (result: Result<seq<Name>, Error>)
    requires KeyOrder(order, sentences)
    requires forall s, w :: s in sentences && w in query && w in sentences[s] ==> w in idfs
    ensures result.Failure? <==> !NonEmptySentences(sentences)
    ensures result.Success? ==> |result.value| == Min(n, |sentences|)
    ensures result.Success? ==> Distinct(result.value)
    ensures result.Success? ==> forall i :: 0 <= i < |result.value| ==> result.value[i] in sentences
    ensures result.Success? && NonEmptySentences(sentences) ==>
      forall i, j :: 0 <= i < j < |result.value| ==>
        LexLeq(SentenceKey(query, sentences[result.value[j]], idfs),
               SentenceKey(query, sentences[result.value[i]], idfs))
    ensures result.Success? && NonEmptySentences(sentences) ==>
      forall i, j, a, b ::
        (0 <= i < j < |result.value| && 0 <= a < |order| && 0 <= b < |order| &&
         result.value[i] == order[a] && result.value[j] == order[b] &&
         SentenceKey(query, sentences[result.value[j]], idfs) ==
           SentenceKey(query, sentences[result.value[i]], idfs)) ==> a < b
    ensures result.Success? && NonEmptySentences(sentences) ==>
      forall i, s :: 0 <= i < |result.value| && s in sentences && s !in result.value ==>
        LexLeq(SentenceKey(query, sentences[s], idfs),
               SentenceKey(query, sentences[result.value[i]], idfs))
    ensures result.Success? && NonEmptySentences(sentences) ==>
      forall i, a, b ::
        (0 <= i < |result.value| && 0 <= a < |order| && 0 <= b < |order| &&
         result.value[i] == order[a] && order[b] !in result.value &&
         SentenceKey(query, sentences[order[b]], idfs) ==
           SentenceKey(query, sentences[result.value[i]], idfs)) ==> a < b
  {
    var keys := SentenceKeys(query, sentences, order, idfs);
    if keys.Failure? {
      return Failure(keys.error);
    }
    var ranking := TopPositions(keys.value, n);
    var top := seq(|ranking|, k requires 0 <= k < |ranking| => order[ranking[k]]);
    SelectedEntries(sentences.Keys, order, keys.value, n, ranking, top);
    KeysOrdered(query, sentences, order, idfs, keys.value, ranking, top);
    KeysTied(query, sentences, order, idfs, keys.value, ranking, top);
    KeysOmitted(query, sentences, order, idfs, keys.value, ranking, top);
    KeysCutTied(query, sentences, order, idfs, keys.value, ranking, top);
    result := Success(top);
  }

  /* The selection's facts about positions, restated in terms of the sentences' keys. */

  lemma KeysOrdered(query: set<Word>, sentences: map<Name, seq<Word>>, order: seq<Name>,
                   idfs: map<Word, real>, keys: seq<seq<real>>, ranking: seq<nat>, top: seq<Name>)
    requires KeyOrder(order, sentences) && NonEmptySentences(sentences) && |keys| == |order|
    requires forall k :: 0 <= k < |order| ==> keys[k] == SentenceKey(query, sentences[order[k]], idfs)
    requires |top| == |ranking| && forall k :: 0 <= k < |ranking| ==> ranking[k] < |order| && top[k] == order[ranking[k]]
    requires forall i, j :: 0 <= i < j < |top| ==> LexLeq(keys[ranking[j]], keys[ranking[i]])
    ensures forall i, j :: 0 <= i < j < |top| ==>
      LexLeq(SentenceKey(query, sentences[top[j]], idfs), SentenceKey(query, sentences[top[i]], idfs))
  {
    forall k | 0 <= k < |top| ensures keys[ranking[k]] == SentenceKey(query, sentences[top[k]], idfs) {
    }
  }

  lemma KeysTied(query: set<Word>, sentences: map<Name, seq<Word>>, order: seq<Name>,
                   idfs: map<Word, real>, keys: seq<seq<real>>, ranking: seq<nat>, top: seq<Name>)
    requires KeyOrder(order, sentences) && NonEmptySentences(sentences) && |keys| == |order|
    requires forall k :: 0 <= k < |order| ==> keys[k] == SentenceKey(query, sentences[order[k]], idfs)
    requires |top| == |ranking| && forall k :: 0 <= k < |ranking| ==> ranking[k] < |order| && top[k] == order[ranking[k]]
    requires forall i, j, a, b ::
      (0 <= i < j < |top| && 0 <= a < |order| && 0 <= b < |order| &&
       top[i] == order[a] && top[j] == order[b] && keys[ranking[j]] == keys[ranking[i]]) ==> a < b
    ensures forall i, j, a, b ::
      (0 <= i < j < |top| && 0 <= a < |order| && 0 <= b < |order| &&
       top[i] == order[a] && top[j] == order[b] &&
       SentenceKey(query, sentences[top[j]], idfs) == SentenceKey(query, sentences[top[i]], idfs)) ==> a < b
  {
    forall k | 0 <= k < |top| ensures keys[ranking[k]] == SentenceKey(query, sentences[top[k]], idfs) {
    }
  }

  lemma KeysOmitted(query: set<Word>, sentences: map<Name, seq<Word>>, order: seq<Name>,
                   idfs: map<Word, real>, keys: seq<seq<real>>, ranking: seq<nat>, top: seq<Name>)
    requires KeyOrder(order, sentences) && NonEmptySentences(sentences) && |keys| == |order|
    requires forall k :: 0 <= k < |order| ==> keys[k] == SentenceKey(query, sentences[order[k]], idfs)
    requires |top| == |ranking| && forall k :: 0 <= k < |ranking| ==> ranking[k] < |order| && top[k] == order[ranking[k]]
    requires forall i, b :: 0 <= i < |top| && 0 <= b < |order| && order[b] !in top ==>
      LexLeq(keys[b], keys[ranking[i]])
    ensures forall i, s :: 0 <= i < |top| && s in sentences && s !in top ==>
      LexLeq(SentenceKey(query, sentences[s], idfs), SentenceKey(query, sentences[top[i]], idfs))
  {
    forall k | 0 <= k < |top| ensures keys[ranking[k]] == SentenceKey(query, sentences[top[k]], idfs) {
    }
    forall i, s | 0 <= i < |top| && s in sentences && s !in top
      ensures LexLeq(SentenceKey(query, sentences[s], idfs), SentenceKey(query, sentences[top[i]], idfs))
    {
      var b :| 0 <= b < |order| && order[b] == s;
      assert LexLeq(keys[b], keys[ranking[i]]);
    }
  }

  lemma KeysCutTied(query: set<Word>, sentences: map<Name, seq<Word>>, order: seq<Name>,
                   idfs: map<Word, real>, keys: seq<seq<real>>, ranking: seq<nat>, top: seq<Name>)
    requires KeyOrder(order, sentences) && NonEmptySentences(sentences) && |keys| == |order|
    requires forall k :: 0 <= k < |order| ==> keys[k] == SentenceKey(query, sentences[order[k]], idfs)
    requires |top| == |ranking| && forall k :: 0 <= k < |ranking| ==> ranking[k] < |order| && top[k] == order[ranking[k]]
    requires forall i, a, b ::
      (0 <= i < |top| && 0 <= a < |order| && 0 <= b < |order| &&
       top[i] == order[a] && order[b] !in top && keys[b] == keys[ranking[i]]) ==> a < b
    ensures forall i, a, b ::
      (0 <= i < |top| && 0 <= a < |order| && 0 <= b < |order| && top[i] == order[a] && order[b] !in top &&
       SentenceKey(query, sentences[order[b]], idfs) == SentenceKey(query, sentences[top[i]], idfs)) ==> a < b
  {
    forall k | 0 <= k < |top| ensures keys[ranking[k]] == SentenceKey(query, sentences[top[k]], idfs) {
    }
  }
}
