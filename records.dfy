/** The quiz's records: catalog words, lifetime statistics, the mistakes of
    a session, and the two updates the statistics undergo (a missed word is
    counted; a finished session is folded into the totals). */
module Records {

  /** One catalog entry. `word` is the German noun, the key of the mistake
      counts; `difficulty`, `english`, `category` and `plural` may be empty. */
  datatype Word = Word(
    word: string,
    article: string,
    english: string,
    category: string,
    difficulty: string,
    plural: string)

  /** Lifetime statistics: three counters and the mistakes per word. */
  datatype Stats = Stats(
    totalQuizzes: int,
    totalQuestions: int,
    correctAnswers: int,
    wordStats: map<string, int>)

  datatype MistakeInfo = MistakeInfo(word: Word, userAnswer: string, correctAnswer: string)

  /** The running session: correct answers, the number of questions the
      session counts, and its mistakes in order. */
  datatype Session = Session(correct: int, total: int, mistakes: seq<MistakeInfo>)

  /** Statistics of a first run, and what a missing or unreadable
      statistics file is replaced by. */
  const FreshStats := Stats(0, 0, 0, map[])

  /** The user answer recorded for a skipped question. */
  const SkipAnswer := "(skip)"

  /** The lifetime correct answers never exceed the questions asked. */
  predicate Consistent(s: Stats) {
    s.correctAnswers <= s.totalQuestions
  }

  /** A map read with Go's semantics: an absent key reads as zero. */
  function Misses(ws: map<string, int>, term: string): int {
    if term in ws then ws[term] else 0
  }

  /** `WordStats[term]++`: the count of `term` goes up by one (starting
      from zero when absent), and no other key changes. */
  function Bump(ws: map<string, int>, term: string): (r: map<string, int>)
    ensures r.Keys == ws.Keys + {term}
    ensures r[term] == Misses(ws, term) + 1
    ensures forall k :: k in ws && k != term ==> r[k] == ws[k]
  {
    ws[term := Misses(ws, term) + 1]
  }

  /** How many of `ms` are mistakes on the word keyed `term`. */
  function MistakesOn(ms: seq<MistakeInfo>, term: string): (n: nat)
    ensures n <= |ms|
  {
    if ms == [] then 0
    else MistakesOn(ms[..|ms| - 1], term) + (if ms[|ms| - 1].word.word == term then 1 else 0)
  }

  /** The mistake counts after every mistake of `ms` has been counted. */
  function BumpAll(ws: map<string, int>, ms: seq<MistakeInfo>): (r: map<string, int>)
    ensures forall k :: k in r <==> k in ws || MistakesOn(ms, k) > 0
    ensures forall k :: Misses(r, k) == Misses(ws, k) + MistakesOn(ms, k)
  {
    if ms == [] then ws else Bump(BumpAll(ws, ms[..|ms| - 1]), ms[|ms| - 1].word.word)
  }

  /** Counting two runs of mistakes one after the other is counting them
      together. */
  lemma {:induction false} BumpAllConcat(ws: map<string, int>, a: seq<MistakeInfo>, b: seq<MistakeInfo>)
    ensures BumpAll(ws, a + b) == BumpAll(BumpAll(ws, a), b)
  {
    if b == [] {
      assert a + b == a;
    } else {
      var b' := b[..|b| - 1];
      assert (a + b)[..|a + b| - 1] == a + b';
      BumpAllConcat(ws, a, b');
    }
  }

  /** markWrong's record: one more mistake at the end of the session. */
  function Recorded(s: Session, w: Word, userAnswer: string): (r: Session)
    ensures r.correct == s.correct && r.total == s.total
    ensures |r.mistakes| == |s.mistakes| + 1 && r.mistakes[..|s.mistakes|] == s.mistakes
    ensures r.mistakes[|s.mistakes|] == MistakeInfo(w, userAnswer, w.article)
  {
    s.(mistakes := s.mistakes + [MistakeInfo(w, userAnswer, w.article)])
  }

  /** markWrong's lifetime effect: one more mistake on `w`. */
  function Missed(st: Stats, w: Word): (r: Stats)
    ensures r.totalQuizzes == st.totalQuizzes && r.totalQuestions == st.totalQuestions
    ensures r.correctAnswers == st.correctAnswers
    ensures Misses(r.wordStats, w.word) == Misses(st.wordStats, w.word) + 1
    ensures r.wordStats == st.wordStats[w.word := Misses(st.wordStats, w.word) + 1]
  {
    st.(wordStats := Bump(st.wordStats, w.word))
  }

  /** markWrong leaves the mistake count of every other word alone. */
  lemma MissedElsewhere(st: Stats, w: Word, term: string)
    requires term != w.word
    ensures Misses(Missed(st, w).wordStats, term) == Misses(st.wordStats, term)
  {
  }

  /** What the lifetime statistics may undergo between two moments of a
      run: counters only grow, the wrong answers never shrink, no word's
      mistake count drops, and consistent statistics stay consistent. */
  ghost predicate Progress(before: Stats, after: Stats) {
    && after.totalQuizzes >= before.totalQuizzes
    && after.totalQuestions >= before.totalQuestions
    && after.correctAnswers >= before.correctAnswers
    && after.totalQuestions - after.correctAnswers >= before.totalQuestions - before.correctAnswers
    && (forall k :: Misses(after.wordStats, k) >= Misses(before.wordStats, k))
    && (Consistent(before) ==> Consistent(after))
  }

  lemma ProgressTransitive(a: Stats, b: Stats, c: Stats)
    requires Progress(a, b) && Progress(b, c)
    ensures Progress(a, c)
  {
  }

  /** showResults' fold of a session into the lifetime statistics: a session
      that counts no questions leaves them alone; otherwise it is one more
      quiz and its questions and correct answers are added. */
  function Settle(st: Stats, s: Session): Stats {
    if s.total == 0 then st
    else Stats(st.totalQuizzes + 1, st.totalQuestions + s.total, st.correctAnswers + s.correct, st.wordStats)
  }

  /** The fold adds exactly the session's counts, leaves the mistake
      counts alone, and for a session with at most all answers right keeps
      the wrong answers from shrinking and consistent statistics
      consistent. */
  lemma SettleSpec(st: Stats, s: Session)
    ensures s.total == 0 ==> Settle(st, s) == st
    ensures s.total != 0 ==> Settle(st, s).totalQuizzes == st.totalQuizzes + 1
    ensures s.total != 0 ==> Settle(st, s).totalQuestions - st.totalQuestions == s.total
    ensures s.total != 0 ==> Settle(st, s).correctAnswers - st.correctAnswers == s.correct
    ensures Settle(st, s).wordStats == st.wordStats
    ensures 0 <= s.correct <= s.total ==>
      Settle(st, s).totalQuestions - Settle(st, s).correctAnswers >= st.totalQuestions - st.correctAnswers
    ensures 0 <= s.correct <= s.total && Consistent(st) ==> Consistent(Settle(st, s))
  {
  }
}
