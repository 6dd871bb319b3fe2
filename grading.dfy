/** One question of a quiz, and the question loop of a session, as
    functions of the replies the user types: hints and unreadable input
    re-prompt, "q" ends the session, "s" skips (a mistake), and an article
    is graded against the word's. */
module Grading {
  import opened Text
  import opened Records
  import opened Answers

  /** How a question ends: answered (the quiz goes on), quit by the user,
      or the input ran out (the program saves and exits). */
  datatype Flow = Continue | Stop | Closed

  /** The state after a question, and the position of the first reply not
      yet read. */
  datatype Outcome = Outcome(flow: Flow, session: Session, stats: Stats, next: nat)

  /** Every answer among `rs` names one of the three articles. */
  predicate ArticlesOnly(rs: seq<Reply>) {
    forall i :: 0 <= i < |rs| && rs[i].Answer? ==> rs[i].article in Articles
  }

  /** askQuestion for word `w`, with session `s` and lifetime statistics
      `st`, reading replies from position `i` of `rs`. */
  function Ask(w: Word, s: Session, st: Stats, rs: seq<Reply>, i: nat): (r: Outcome)
    requires i <= |rs|
    ensures i <= r.next <= |rs|
    ensures r.flow == Closed ==> r.next == |rs|
    ensures r.flow != Closed ==> i < r.next
    decreases |rs| - i
  {
    if i == |rs| then Outcome(Closed, s, st, i)
    else
      match rs[i]
      case Quit => Outcome(Stop, s, st, i + 1)
      case Hint => Ask(w, s, st, rs, i + 1)
      case Invalid => Ask(w, s, st, rs, i + 1)
      case Skip => Outcome(Continue, Recorded(s, w, SkipAnswer), Missed(st, w), i + 1)
      case Answer(a) =>
        if a == w.article then Outcome(Continue, s.(correct := s.correct + 1), st, i + 1)
        else Outcome(Continue, Recorded(s, w, a), Missed(st, w), i + 1)
  }

  /** The position of the first reply from position `i` on that ends the
      question, if any. */
  function FirstDecisive(rs: seq<Reply>, i: nat): (r: Option<nat>)
    requires i <= |rs|
    ensures r.Some? ==> i <= r.value < |rs| && Decisive(rs[r.value])
    ensures r.Some? ==> forall k :: i <= k < r.value ==> !Decisive(rs[k])
    ensures r.None? ==> forall k :: i <= k < |rs| ==> !Decisive(rs[k])
    decreases |rs| - i
  {
    if i == |rs| then None
    else if Decisive(rs[i]) then Some(i)
    else FirstDecisive(rs, i + 1)
  }

  /** A mistake as askQuestion records it: the right article, and what the
      user said instead, a skip or another article. */
  predicate Genuine(m: MistakeInfo) {
    && m.correctAnswer == m.word.article
    && (m.userAnswer == SkipAnswer || (m.userAnswer in Articles && m.userAnswer != m.word.article))
  }

  /** How an answered question changes the state: a correct answer, or
      one genuine mistake on `w` counted against it. */
  predicate Graded(w: Word, s: Session, st: Stats, o: Outcome) {
    || (o.session == s.(correct := s.correct + 1) && o.stats == st)
    || (&& |o.session.mistakes| == |s.mistakes| + 1
        && o.session == Recorded(s, w, o.session.mistakes[|s.mistakes|].userAnswer)
        && o.session.mistakes[|s.mistakes|].word == w
        && Genuine(o.session.mistakes[|s.mistakes|])
        && o.stats == Missed(st, w))
  }

  /** Grading touches only what it should. The question ends at the first
      reply that is neither a hint request nor unreadable, and reads no
      further. Quitting, and running out of input, change nothing. A
      correct answer adds one to the session's correct count and nothing
      else; a skip or a wrong article appends one mistake record for `w`
      (what the user said, and the right article) and adds one to the
      lifetime count of `w`, nothing else. */
  lemma {:induction false} AskEffect(w: Word, s: Session, st: Stats, rs: seq<Reply>, i: nat)
    requires ArticlesOnly(rs) && i <= |rs|
    ensures var r := Ask(w, s, st, rs, i);
      && (r.flow == Closed <==> FirstDecisive(rs, i).None?)
      && (FirstDecisive(rs, i).Some? ==> r.next == FirstDecisive(rs, i).value + 1)
      && (r.flow == Stop <==> FirstDecisive(rs, i).Some? && rs[FirstDecisive(rs, i).value] == Quit)
      && (r.flow != Continue ==> r.session == s && r.stats == st)
      && (r.flow == Continue ==> Graded(w, s, st, r))
      && (FirstDecisive(rs, i).Some? && rs[FirstDecisive(rs, i).value] == Answer(w.article) ==>
            r.session == s.(correct := s.correct + 1) && r.stats == st)
      && (FirstDecisive(rs, i).Some? && rs[FirstDecisive(rs, i).value] == Skip ==>
            r.session == Recorded(s, w, SkipAnswer) && r.stats == Missed(st, w))
      && (FirstDecisive(rs, i).Some? && rs[FirstDecisive(rs, i).value].Answer?
          && rs[FirstDecisive(rs, i).value].article != w.article ==>
            r.session == Recorded(s, w, rs[FirstDecisive(rs, i).value].article) && r.stats == Missed(st, w))
    decreases |rs| - i
  {
    if i < |rs| && !Decisive(rs[i]) {
      AskEffect(w, s, st, rs, i + 1);
    }
  }

  /** A correct answer is credited exactly when the first reply that ends
      the question names the word's article. */
  lemma {:induction false} AskCorrectIff(w: Word, s: Session, st: Stats, rs: seq<Reply>, i: nat)
    requires i <= |rs|
    ensures var r := Ask(w, s, st, rs, i);
      r.session.correct == s.correct + 1 <==>
        FirstDecisive(rs, i).Some? && rs[FirstDecisive(rs, i).value] == Answer(w.article)
    decreases |rs| - i
  {
    if i < |rs| && !Decisive(rs[i]) {
      AskCorrectIff(w, s, st, rs, i + 1);
    }
  }

  /** The questions of a session of `count` questions: the first `count`
      of `qs`, none for a count that is not positive. */
  function Take(qs: seq<Word>, count: int): (r: seq<Word>)
    requires count <= |qs|
    ensures |r| == if count > 0 then count else 0
    ensures r == qs[..|r|]
  {
    if count > 0 then qs[..count] else []
  }

  /** The question loop of StartQuiz and ShowPracticeMode from question `k`
      of `qs` on, the replies from position `i` on. A quit sets the
      session's count to the `k` questions answered before it. */
  function Run(qs: seq<Word>, k: nat, s: Session, st: Stats, rs: seq<Reply>, i: nat): (r: Outcome)
    requires k <= |qs| && i <= |rs|
    ensures i <= r.next <= |rs|
    decreases |qs| - k
  {
    if k == |qs| then Outcome(Continue, s, st, i)
    else
      var o := Ask(qs[k], s, st, rs, i);
      match o.flow
      case Stop => o.(session := o.session.(total := k))
      case Closed => o
      case Continue => Run(qs, k + 1, o.session, o.stats, rs, o.next)
  }

  /** A session of `count` questions from `qs`, the replies from position
      `i` on: a fresh session, the question loop, then showResults, unless
      the input ran out. */
  function Play(qs: seq<Word>, count: int, st: Stats, rs: seq<Reply>, i: nat): (r: Outcome)
    requires count <= |qs| && i <= |rs|
    ensures i <= r.next <= |rs|
  {
    var o := Run(Take(qs, count), 0, Session(0, count, []), st, rs, i);
    if o.flow == Closed then o else o.(stats := Settle(o.stats, o.session))
  }

  /** The questions answered between two session states: each answer
      either adds a correct answer or a mistake. */
  function Answered(before: Session, after: Session): int {
    (after.correct - before.correct) + (|after.mistakes| - |before.mistakes|)
  }

  lemma PrefixTransitive<T>(a: seq<T>, b: seq<T>, c: seq<T>)
    requires |a| <= |b| <= |c| && b[..|a|] == a && c[..|b|] == b
    ensures c[..|a|] == a
  {
    assert c[..|a|] == c[..|b|][..|a|];
  }

  /** The question loop only appends to the session's mistakes. */
  lemma {:induction false} RunPrefix(qs: seq<Word>, k: nat, s: Session, st: Stats, rs: seq<Reply>, i: nat)
    requires ArticlesOnly(rs) && k <= |qs| && i <= |rs|
    ensures var r := Run(qs, k, s, st, rs, i);
      |s.mistakes| <= |r.session.mistakes| && r.session.mistakes[..|s.mistakes|] == s.mistakes
    decreases |qs| - k
  {
    if k < |qs| {
      var o := Ask(qs[k], s, st, rs, i);
      AskEffect(qs[k], s, st, rs, i);
      if o.flow == Continue {
        RunPrefix(qs, k + 1, o.session, o.stats, rs, o.next);
        var r := Run(qs, k + 1, o.session, o.stats, rs, o.next);
        PrefixTransitive(s.mistakes, o.session.mistakes, r.session.mistakes);
      }
    }
  }

  /** The question loop answers the questions one after the other: all of
      them unless the user quits or the input runs out first. A completed
      loop keeps the session's count, a quit sets it to the questions
      answered, and running out of input ends with every reply read. */
  lemma {:induction false} RunCounts(qs: seq<Word>, k: nat, s: Session, st: Stats, rs: seq<Reply>, i: nat)
    requires ArticlesOnly(rs) && k <= |qs| && i <= |rs|
    ensures var r := Run(qs, k, s, st, rs, i);
      && r.session.correct >= s.correct
      && 0 <= Answered(s, r.session) <= |qs| - k
      && (r.flow == Continue ==> Answered(s, r.session) == |qs| - k && r.session.total == s.total)
      && (r.flow == Stop ==> Answered(s, r.session) < |qs| - k && r.session.total == k + Answered(s, r.session))
      && (r.flow == Closed ==> Answered(s, r.session) < |qs| - k && r.session.total == s.total && r.next == |rs|)
    decreases |qs| - k
  {
    if k < |qs| {
      var o := Ask(qs[k], s, st, rs, i);
      AskEffect(qs[k], s, st, rs, i);
      if o.flow == Continue {
        RunCounts(qs, k + 1, o.session, o.stats, rs, o.next);
        assert Answered(s, o.session) == 1 && o.session.total == s.total;
      }
    }
  }

  /** One graded answer followed by more counted mistakes is the same as
      counting all of them from before the answer. */
  lemma GradedStats(w: Word, s: Session, st: Stats, o: Outcome, later: seq<MistakeInfo>)
    requires Graded(w, s, st, o)
    requires |o.session.mistakes| <= |later| && later[..|o.session.mistakes|] == o.session.mistakes
    ensures |s.mistakes| <= |later|
    ensures o.stats.(wordStats := BumpAll(o.stats.wordStats, later[|o.session.mistakes|..]))
         == st.(wordStats := BumpAll(st.wordStats, later[|s.mistakes|..]))
  {
    var tail := later[|o.session.mistakes|..];
    if o.session == s.(correct := s.correct + 1) && o.stats == st {
    } else {
      var mk := o.session.mistakes[|s.mistakes|];
      assert later[|s.mistakes|] == mk;
      assert later[|s.mistakes|..] == [mk] + tail;
      BumpAllConcat(st.wordStats, [mk], tail);
      assert [mk][..0] == [];
    }
  }

  /** The only change the question loop makes to the lifetime statistics
      is counting each of the session's new mistakes against its word. */
  lemma {:induction false} RunStats(qs: seq<Word>, k: nat, s: Session, st: Stats, rs: seq<Reply>, i: nat)
    requires ArticlesOnly(rs) && k <= |qs| && i <= |rs|
    ensures var r := Run(qs, k, s, st, rs, i);
      && |s.mistakes| <= |r.session.mistakes|
      && r.stats == st.(wordStats := BumpAll(st.wordStats, r.session.mistakes[|s.mistakes|..]))
    decreases |qs| - k
  {
    RunPrefix(qs, k, s, st, rs, i);
    var o := if k < |qs| then Ask(qs[k], s, st, rs, i) else Outcome(Continue, s, st, i);
    if k < |qs| {
      AskEffect(qs[k], s, st, rs, i);
    }
    if k < |qs| && o.flow == Continue {
      RunStats(qs, k + 1, o.session, o.stats, rs, o.next);
      RunPrefix(qs, k + 1, o.session, o.stats, rs, o.next);
      var r := Run(qs, k + 1, o.session, o.stats, rs, o.next);
      GradedStats(qs[k], s, st, o, r.session.mistakes);
    } else {
      assert s.mistakes[|s.mistakes|..] == [];
    }
  }

  /** Every new mistake of the question loop is a genuine mistake on one
      of the questions it asked. */
  lemma {:induction false} RunMistakes(qs: seq<Word>, k: nat, s: Session, st: Stats, rs: seq<Reply>, i: nat)
    requires ArticlesOnly(rs) && k <= |qs| && i <= |rs|
    ensures var r := Run(qs, k, s, st, rs, i);
      forall j :: |s.mistakes| <= j < |r.session.mistakes| ==>
        r.session.mistakes[j].word in qs[k..] && Genuine(r.session.mistakes[j])
    decreases |qs| - k
  {
    if k < |qs| {
      var o := Ask(qs[k], s, st, rs, i);
      AskEffect(qs[k], s, st, rs, i);
      if o.flow == Continue {
        RunMistakes(qs, k + 1, o.session, o.stats, rs, o.next);
        RunPrefix(qs, k + 1, o.session, o.stats, rs, o.next);
        var r := Run(qs, k + 1, o.session, o.stats, rs, o.next);
        forall j | |s.mistakes| <= j < |r.session.mistakes|
          ensures r.session.mistakes[j].word in qs[k..] && Genuine(r.session.mistakes[j])
        {
          if j < |o.session.mistakes| {
            assert r.session.mistakes[j] == r.session.mistakes[..|o.session.mistakes|][j];
            assert qs[k..][0] == qs[k];
          } else {
            assert r.session.mistakes[j].word in qs[k + 1..];
            assert qs[k + 1..] == qs[k..][1..];
          }
        }
      }
    }
  }

  /** A session counts exactly the questions answered in it, of which at
      most all were right; a completed or quit session is folded into the
      totals, and one cut short by the end of input is not, although its
      mistakes are counted. */
  lemma PlayCounts(qs: seq<Word>, count: int, st: Stats, rs: seq<Reply>, i: nat)
    requires 0 <= count <= |qs| && ArticlesOnly(rs) && i <= |rs|
    ensures var r := Play(qs, count, st, rs, i);
      && r.session.correct >= 0
      && (r.flow != Closed ==>
            && r.session.total == r.session.correct + |r.session.mistakes| <= count
            && r.stats == Settle(st.(wordStats := BumpAll(st.wordStats, r.session.mistakes)), r.session))
      && (r.flow == Closed ==>
            r.stats == st.(wordStats := BumpAll(st.wordStats, r.session.mistakes)) && r.next == |rs|)
      && (r.flow == Continue ==> r.session.total == count)
  {
    var s0 := Session(0, count, []);
    RunCounts(Take(qs, count), 0, s0, st, rs, i);
    RunStats(Take(qs, count), 0, s0, st, rs, i);
    var o := Run(Take(qs, count), 0, s0, st, rs, i);
    assert o.session.mistakes[0..] == o.session.mistakes;
  }

  /** A session only ever moves the lifetime statistics forward. */
  lemma PlayProgress(qs: seq<Word>, count: int, st: Stats, rs: seq<Reply>, i: nat)
    requires 0 <= count <= |qs| && ArticlesOnly(rs) && i <= |rs|
    ensures Progress(st, Play(qs, count, st, rs, i).stats)
  {
    PlayCounts(qs, count, st, rs, i);
    var r := Play(qs, count, st, rs, i);
    SettleSpec(st.(wordStats := BumpAll(st.wordStats, r.session.mistakes)), r.session);
  }

  /** Every mistake of a session is a genuine mistake on one of its first
      `count` questions. */
  lemma PlayMistakes(qs: seq<Word>, count: int, st: Stats, rs: seq<Reply>, i: nat)
    requires count <= |qs| && ArticlesOnly(rs) && i <= |rs|
    ensures var r := Play(qs, count, st, rs, i);
      forall m :: m in r.session.mistakes ==> m.word in Take(qs, count) && Genuine(m)
  {
    var q := Take(qs, count);
    var r := Play(qs, count, st, rs, i);
    RunMistakes(q, 0, Session(0, count, []), st, rs, i);
    assert r.session == Run(q, 0, Session(0, count, []), st, rs, i).session;
    assert q[0..] == q;
    forall m | m in r.session.mistakes ensures m.word in q && Genuine(m) {
      var j :| 0 <= j < |r.session.mistakes| && r.session.mistakes[j] == m;
    }
  }
}
