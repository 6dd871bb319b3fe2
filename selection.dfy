/** Which words a session asks: the difficulty pool of a quiz, the weighted
    pool of practice mode, and the "most challenging words" of the
    statistics screen. */
module Selection {
  import opened Text
  import opened Records

  /** No element occurs twice. */
  predicate Distinct<T(==)>(s: seq<T>) {
    forall i, j :: 0 <= i < j < |s| ==> s[i] != s[j]
  }

  lemma {:induction false} DistinctCounts<T>(s: seq<T>)
    ensures Distinct(s) <==> forall x :: multiset(s)[x] <= 1
  {
    if s != [] {
      var t := s[1..];
      assert s == [s[0]] + t;
      DistinctCounts(t);
      assert multiset(s) == multiset{s[0]} + multiset(t);
      if Distinct(s) {
        assert s[0] !in t by {
          forall j | 0 <= j < |t| ensures t[j] != s[0] {
            assert t[j] == s[j + 1];
          }
        }
        assert Distinct(t) by {
          forall i, j | 0 <= i < j < |t| ensures t[i] != t[j] {
            assert t[i] == s[i + 1] && t[j] == s[j + 1];
          }
        }
      }
      if forall x :: multiset(s)[x] <= 1 {
        assert multiset(s)[s[0]] <= 1;
        assert multiset(t)[s[0]] == 0;
        forall x ensures multiset(t)[x] <= 1 {
          assert multiset(s)[x] <= 1;
        }
        forall i, j | 0 <= i < j < |s| ensures s[i] != s[j] {
          assert s[j] == t[j - 1];
          if i > 0 {
            assert s[i] == t[i - 1];
          } else {
            assert s[j] in multiset(t);
          }
        }
      }
    }
  }

  /** A rearrangement of a sequence without repeats has no repeats. */
  lemma DistinctPermutation<T>(a: seq<T>, b: seq<T>)
    requires Distinct(a) && multiset(a) == multiset(b)
    ensures Distinct(b)
  {
    DistinctCounts(a);
    DistinctCounts(b);
  }

  // ----- Quiz pool -----

  /** The catalog entries whose difficulty equals `difficulty` up to case,
      in catalog order. */
  function MatchingDifficulty(words: seq<Word>, difficulty: string): (r: seq<Word>)
    ensures |r| <= |words|
  {
    if words == [] then []
    else
      var last := words[|words| - 1];
      MatchingDifficulty(words[..|words| - 1], difficulty)
        + (if EqualFold(last.difficulty, difficulty) then [last] else [])
  }

  lemma {:induction false} MatchingDifficultyCount(words: seq<Word>, difficulty: string, w: Word)
    ensures multiset(MatchingDifficulty(words, difficulty))[w]
         == if EqualFold(w.difficulty, difficulty) then multiset(words)[w] else 0
  {
    if words != [] {
      var p := words[..|words| - 1];
      assert words == p + [words[|words| - 1]];
      MatchingDifficultyCount(p, difficulty, w);
    }
  }

  /** StartQuiz's pool: with a difficulty, the matching entries, unless none
      match; otherwise the whole catalog. */
  function QuizPool(words: seq<Word>, difficulty: string): seq<Word> {
    var filtered := MatchingDifficulty(words, difficulty);
    if difficulty != "" && |filtered| > 0 then filtered else words
  }

  /** The pool is the matching entries when some entry matches a given
      difficulty, and the whole catalog when no difficulty is given or none
      matches; it is empty only for an empty catalog. */
  lemma QuizPoolSpec(words: seq<Word>, difficulty: string)
    ensures QuizPool(words, difficulty) == [] <==> words == []
    ensures forall w :: multiset(QuizPool(words, difficulty))[w] <= multiset(words)[w]
    ensures difficulty != "" && (exists w :: w in words && EqualFold(w.difficulty, difficulty)) ==>
      forall w :: multiset(QuizPool(words, difficulty))[w]
               == if EqualFold(w.difficulty, difficulty) then multiset(words)[w] else 0
    ensures difficulty == "" || (forall w :: w in words ==> !EqualFold(w.difficulty, difficulty)) ==>
      QuizPool(words, difficulty) == words
  {
    var filtered := MatchingDifficulty(words, difficulty);
    forall w: Word ensures multiset(filtered)[w] == if EqualFold(w.difficulty, difficulty) then multiset(words)[w] else 0 {
      MatchingDifficultyCount(words, difficulty, w);
    }
    if filtered != [] {
      assert filtered[0] in multiset(filtered);
    }
    if exists w :: w in words && EqualFold(w.difficulty, difficulty) {
      var w :| w in words && EqualFold(w.difficulty, difficulty);
      assert w in multiset(filtered);
    }
  }

  /** The first `count` words of a rearranged pool of a catalog without
      repeats are `count` different words, all from the pool. */
  lemma DistinctQuestions(words: seq<Word>, difficulty: string, shuffled: seq<Word>, count: nat)
    requires Distinct(words)
    requires multiset(shuffled) == multiset(QuizPool(words, difficulty))
    requires count <= |shuffled|
    ensures |shuffled[..count]| == count && Distinct(shuffled[..count])
    ensures multiset(shuffled[..count]) <= multiset(QuizPool(words, difficulty))
  {
    var pool := QuizPool(words, difficulty);
    QuizPoolSpec(words, difficulty);
    DistinctCounts(words);
    DistinctCounts(pool);
    DistinctPermutation(pool, shuffled);
    assert shuffled == shuffled[..count] + shuffled[count..];
  }

  // ----- Practice pool -----

  /** The catalog entries with at least one recorded mistake. */
  function Challenging(words: seq<Word>, ws: map<string, int>): (r: seq<Word>)
    ensures |r| <= |words|
  {
    if words == [] then []
    else
      var last := words[|words| - 1];
      Challenging(words[..|words| - 1], ws) + (if Misses(ws, last.word) > 0 then [last] else [])
  }

  /** A catalog entry is challenging exactly when it has a mistake. */
  lemma {:induction false} ChallengingMissed(words: seq<Word>, ws: map<string, int>, w: Word)
    ensures w in Challenging(words, ws) <==> w in words && Misses(ws, w.word) > 0
  {
    if words != [] {
      var p := words[..|words| - 1];
      assert words == p + [words[|words| - 1]];
      ChallengingMissed(p, ws, w);
    }
  }

  /** The repeats of a word missed `m` times: one more than its misses,
      at most three, and none when that is not positive. */
  function Copies(m: int): nat {
    if m + 1 > 3 then 3 else if m + 1 > 0 then m + 1 else 0
  }

  /** `n` copies of `w`. */
  function Repeat(w: Word, n: nat): (r: seq<Word>)
    ensures |r| == n
  {
    seq(n, _ => w)
  }

  lemma {:induction false} RepeatCount(w: Word, n: nat, x: Word)
    ensures multiset(Repeat(w, n))[x] == if x == w then n else 0
  {
    if n > 0 {
      assert Repeat(w, n) == Repeat(w, n - 1) + [w];
      RepeatCount(w, n - 1, x);
    }
  }

  /** ShowPracticeMode's weighting: each word, repeated by its copies. */
  function Expand(words: seq<Word>, ws: map<string, int>): seq<Word> {
    if words == [] then []
    else
      var last := words[|words| - 1];
      var m := Misses(ws, last.word);
      Expand(words[..|words| - 1], ws) + Repeat(last, Copies(m))
  }

  /** How many times a catalog entry keyed `term` enters the practice pool:
      never without mistakes, otherwise min(m + 1, 3) times, so 2 or 3. */
  function PracticeWeight(ws: map<string, int>, term: string): (n: nat)
    ensures n == 0 <==> Misses(ws, term) <= 0
    ensures n == 0 || n == 2 || n == 3
    ensures Misses(ws, term) == 1 ==> n == 2
    ensures Misses(ws, term) >= 2 ==> n == 3
  {
    if Misses(ws, term) > 0 then Copies(Misses(ws, term)) else 0
  }

  /** Expanding one more word appends its copies. */
  lemma ExpandSnoc(c: seq<Word>, last: Word, ws: map<string, int>)
    requires Misses(ws, last.word) > 0
    ensures Expand(c + [last], ws) == Expand(c, ws) + Repeat(last, PracticeWeight(ws, last.word))
  {
    assert (c + [last])[..|c|] == c;
  }

  /** The last catalog entry adds its weight to its own count in the
      practice pool, and nothing to the others. */
  lemma PracticeCountStep(words: seq<Word>, ws: map<string, int>, w: Word)
    requires words != []
    ensures var p := words[..|words| - 1];
      var last := words[|words| - 1];
      && multiset(Expand(Challenging(words, ws), ws))[w]
         == multiset(Expand(Challenging(p, ws), ws))[w] + (if last == w then PracticeWeight(ws, w.word) else 0)
      && multiset(words)[w] == multiset(p)[w] + (if last == w then 1 else 0)
  {
    var p := words[..|words| - 1];
    var last := words[|words| - 1];
    assert words == p + [last];
    var c := Challenging(p, ws);
    if Misses(ws, last.word) > 0 {
      assert Challenging(words, ws) == c + [last];
      ExpandSnoc(c, last, ws);
      RepeatCount(last, PracticeWeight(ws, last.word), w);
    } else {
      assert Challenging(words, ws) == c;
    }
  }

  /** In the practice pool every catalog entry occurs as often as it occurs
      in the catalog times its practice weight: not at all without
      mistakes, twice after one mistake, three times after more. */
  lemma {:induction false} PracticeCount(words: seq<Word>, ws: map<string, int>, w: Word)
    ensures Misses(ws, w.word) <= 0 ==> multiset(Expand(Challenging(words, ws), ws))[w] == 0
    ensures Misses(ws, w.word) == 1 ==> multiset(Expand(Challenging(words, ws), ws))[w] == 2 * multiset(words)[w]
    ensures Misses(ws, w.word) >= 2 ==> multiset(Expand(Challenging(words, ws), ws))[w] == 3 * multiset(words)[w]
  {
    if words != [] {
      PracticeCount(words[..|words| - 1], ws, w);
      PracticeCountStep(words, ws, w);
    }
  }

  /** The number of practice questions: ten, or all of a smaller pool. */
  function PracticeCountCap(poolSize: nat): (n: nat)
    ensures n <= 10 && n <= poolSize
    ensures n == 10 || n == poolSize
  {
    if 10 > poolSize then poolSize else 10
  }

  // ----- Most challenging words -----

  /** A word's lifetime mistake count, as ShowDetailedStats collects it. */
  datatype WordError = WordError(word: string, errors: int)

  /** One line of the "most challenging words" list. */
  datatype Listing = Listing(article: string, word: string, errors: int)

  predicate NonIncreasing(s: seq<WordError>) {
    forall i, j :: 0 <= i < j < |s| ==> s[i].errors >= s[j].errors
  }

  /** Inserts `e` into a list sorted by decreasing errors, in front of the
      first entry with no more errors. */
  function InsertByErrors(e: WordError, s: seq<WordError>): (r: seq<WordError>)
    ensures |r| == |s| + 1
    ensures r[0] == e || (s != [] && r[0] == s[0])
  {
    if s == [] then [e]
    else if e.errors >= s[0].errors then [e] + s
    else [s[0]] + InsertByErrors(e, s[1..])
  }

  /** A list sorted by decreasing errors stays so with an entry in front
      that has at least the errors of its first entry. */
  lemma ConsNonIncreasing(x: WordError, s: seq<WordError>)
    requires NonIncreasing(s) && (s != [] ==> x.errors >= s[0].errors)
    ensures NonIncreasing([x] + s)
  {
    var r := [x] + s;
    forall i, j | 0 <= i < j < |r| ensures r[i].errors >= r[j].errors {
      assert r[j] == s[j - 1];
      if i == 0 {
        assert s[0].errors >= s[j - 1].errors;
      } else {
        assert r[i] == s[i - 1];
      }
    }
  }

  /** Inserting into a sorted list adds exactly the entry and keeps the
      list sorted. */
  lemma {:induction false} InsertByErrorsSpec(e: WordError, s: seq<WordError>)
    requires NonIncreasing(s)
    ensures NonIncreasing(InsertByErrors(e, s))
    ensures multiset(InsertByErrors(e, s)) == multiset(s) + multiset{e}
  {
    if s == [] {
    } else if e.errors >= s[0].errors {
      ConsNonIncreasing(e, s);
    } else {
      var rest := InsertByErrors(e, s[1..]);
      assert NonIncreasing(s[1..]) by {
        forall i, j | 0 <= i < j < |s| - 1 ensures s[1..][i].errors >= s[1..][j].errors {
          assert s[1..][i] == s[i + 1] && s[1..][j] == s[j + 1];
        }
      }
      InsertByErrorsSpec(e, s[1..]);
      assert |s| > 1 ==> s[1..][0] == s[1];
      ConsNonIncreasing(s[0], rest);
      assert s == [s[0]] + s[1..];
    }
  }

  /** A sort by decreasing error count: insertion of each entry into the
      sorted rest. */
  function SortByErrors(s: seq<WordError>): (r: seq<WordError>)
    ensures |r| == |s|
  {
    if s == [] then [] else InsertByErrors(s[0], SortByErrors(s[1..]))
  }

  /** The sort orders by decreasing errors and only rearranges. */
  lemma {:induction false} SortByErrorsSpec(s: seq<WordError>)
    ensures NonIncreasing(SortByErrors(s))
    ensures multiset(SortByErrors(s)) == multiset(s)
  {
    if s != [] {
      SortByErrorsSpec(s[1..]);
      InsertByErrorsSpec(s[0], SortByErrors(s[1..]));
      assert s == [s[0]] + s[1..];
    }
  }

  /** The first five of a list, or all of a shorter one. */
  function TopFive(s: seq<WordError>): (r: seq<WordError>)
    ensures |r| <= 5 && |r| <= |s| && r == s[..|r|]
    ensures |r| < 5 ==> r == s
  {
    if |s| < 5 then s else s[..5]
  }

  /** What ShowDetailedStats collects from the mistake counts `ws`: every
      word with a positive count, once, with its count. */
  ghost predicate CollectedFrom(c: seq<WordError>, ws: map<string, int>) {
    && (forall e :: e in c ==> e.word in ws && ws[e.word] == e.errors && e.errors > 0)
    && (forall k :: k in ws && ws[k] > 0 ==> WordError(k, ws[k]) in c)
    && Distinct(c)
  }

  /** Sorting a collection keeps it a collection of the same counts. */
  lemma SortedCollected(c: seq<WordError>, ws: map<string, int>)
    requires CollectedFrom(c, ws)
    ensures CollectedFrom(SortByErrors(c), ws) && |SortByErrors(c)| == |c|
  {
    var sorted := SortByErrors(c);
    SortByErrorsSpec(c);
    DistinctPermutation(c, sorted);
    forall e ensures e in sorted <==> e in c {
      assert e in sorted <==> e in multiset(sorted);
      assert e in c <==> e in multiset(c);
    }
  }

  /** A prefix of a sorted list is sorted, and nothing after it has more
      errors than anything in it. */
  lemma PrefixDominates(s: seq<WordError>, n: nat)
    requires NonIncreasing(s) && n <= |s|
    ensures NonIncreasing(s[..n])
    ensures forall x, e :: x in s && x !in s[..n] && e in s[..n] ==> e.errors >= x.errors
  {
    forall x, e | x in s && x !in s[..n] && e in s[..n] ensures e.errors >= x.errors {
      assert s == s[..n] + s[n..];
      assert x in s[n..];
      var p :| 0 <= p < |s| - n && s[n..][p] == x;
      assert s[n + p] == x;
      var q :| 0 <= q < n && s[..n][q] == e;
      assert s[q] == e;
    }
  }

  /** The entries of a prefix of a collection are entries of the
      collection, each word at most once. */
  lemma PrefixCollected(s: seq<WordError>, ws: map<string, int>, n: nat)
    requires CollectedFrom(s, ws) && n <= |s|
    ensures forall e :: e in s[..n] ==> e.word in ws && ws[e.word] == e.errors && e.errors > 0
    ensures forall i, j :: 0 <= i < j < n ==> s[..n][i].word != s[..n][j].word
  {
    forall e | e in s[..n] ensures e in s {
      var q :| 0 <= q < n && s[..n][q] == e;
      assert s[q] == e;
    }
    forall i, j | 0 <= i < j < n ensures s[..n][i].word != s[..n][j].word {
      assert s[..n][i] == s[i] && s[..n][j] == s[j];
    }
  }

  /** `top` is a list of the most missed words of `ws`: at most five
      words with positive counts, each once, with their counts, in
      decreasing order; every word left out was missed no more often than
      any word shown, and none is left out when fewer than five are shown. */
  ghost predicate MostMissed(top: seq<WordError>, ws: map<string, int>) {
    && |top| <= 5
    && NonIncreasing(top)
    && (forall e :: e in top ==> e.word in ws && ws[e.word] == e.errors && e.errors > 0)
    && (forall i, j :: 0 <= i < j < |top| ==> top[i].word != top[j].word)
    && (|top| < 5 ==> forall k :: k in ws && ws[k] > 0 ==> WordError(k, ws[k]) in top)
    && (forall k, e :: k in ws && ws[k] > 0 && WordError(k, ws[k]) !in top && e in top ==> e.errors >= ws[k])
  }

  /** ShowDetailedStats' selection, sorting the collected counts and
      keeping the first five, is a list of the most missed words, as long
      as the collection or five. */
  lemma TopFiveSpec(c: seq<WordError>, ws: map<string, int>)
    requires CollectedFrom(c, ws)
    ensures |TopFive(SortByErrors(c))| == (if |c| < 5 then |c| else 5)
    ensures MostMissed(TopFive(SortByErrors(c)), ws)
  {
    var sorted := SortByErrors(c);
    SortByErrorsSpec(c);
    SortedCollected(c, ws);
    var top := TopFive(sorted);
    PrefixDominates(sorted, |top|);
    PrefixCollected(sorted, ws, |top|);
  }

  /** The position of the first catalog entry for `term`. */
  function FirstWithTerm(words: seq<Word>, term: string): (r: Option<nat>)
    ensures r.Some? ==> r.value < |words| && words[r.value].word == term
    ensures r.Some? ==> forall k :: 0 <= k < r.value ==> words[k].word != term
    ensures r.None? ==> forall k :: 0 <= k < |words| ==> words[k].word != term
  {
    if words == [] then None
    else if words[0].word == term then Some(0)
    else match FirstWithTerm(words[1..], term)
      case None => None
      case Some(k) => Some(k + 1)
  }

  /** The line for `e`: the article of the first catalog entry for its
      word, or nothing when the catalog has no such entry. */
  function Resolved(e: WordError, words: seq<Word>): (r: Option<Listing>)
    ensures r.Some? <==> exists k :: 0 <= k < |words| && words[k].word == e.word
    ensures r.Some? ==> r.value.word == e.word && r.value.errors == e.errors
    ensures r.Some? ==> exists k :: 0 <= k < |words| && words[k].word == e.word && r.value.article == words[k].article
                                     && forall j :: 0 <= j < k ==> words[j].word != e.word
  {
    match FirstWithTerm(words, e.word)
    case Some(j) => Some(Listing(words[j].article, e.word, e.errors))
    case None => None
  }

  /** The lines for `top`, in order, skipping words not in the catalog. */
  function Resolve(top: seq<WordError>, words: seq<Word>): (r: seq<Listing>)
    ensures |r| <= |top|
  {
    if top == [] then []
    else
      var last := top[|top| - 1];
      Resolve(top[..|top| - 1], words) + (match Resolved(last, words) case Some(l) => [l] case None => [])
  }

  /** The listed lines are exactly the lines of the resolvable entries of
      `top`. */
  lemma {:induction false} ResolveSpec(top: seq<WordError>, words: seq<Word>)
    ensures forall l :: l in Resolve(top, words) <==> exists e :: e in top && Resolved(e, words) == Some(l)
  {
    if top != [] {
      var p := top[..|top| - 1];
      assert top == p + [top[|top| - 1]];
      ResolveSpec(p, words);
    }
  }

  /** The listed lines keep the order of `top`: decreasing error counts. */
  lemma {:induction false} ResolveOrdered(top: seq<WordError>, words: seq<Word>)
    requires NonIncreasing(top)
    ensures forall i, j :: 0 <= i < j < |Resolve(top, words)| ==>
      Resolve(top, words)[i].errors >= Resolve(top, words)[j].errors
  {
    if top != [] {
      var p := top[..|top| - 1];
      var last := top[|top| - 1];
      assert top == p + [last];
      assert forall k :: 0 <= k < |p| ==> p[k] == top[k];
      ResolveOrdered(p, words);
      ResolveSpec(p, words);
      var r := Resolve(top, words);
      var rp := Resolve(p, words);
      forall i, j | 0 <= i < j < |r| ensures r[i].errors >= r[j].errors {
        if j >= |rp| {
          assert r[i] == rp[i];
          var e :| e in p && Resolved(e, words) == Some(r[i]);
          var k :| 0 <= k < |p| && p[k] == e;
          assert top[k] == e && k < |top| - 1;
          assert r[j].errors == last.errors;
        } else {
          assert r[i] == rp[i] && r[j] == rp[j];
        }
      }
    }
  }
}
