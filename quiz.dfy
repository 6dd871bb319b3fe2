/** The quiz program: a `Quiz` object holding the word catalog, the
    lifetime statistics, the running session, the user's input and the
    random stream, and its menu, quiz, practice and statistics screens.
    Each screen that changes the state is specified by a function from the
    state before to the state after, and the properties of a run are
    proved about those functions, which see each input line as the
    program reads it (a Reading). */
module Game {
  import opened Text
  import opened Records
  import opened Answers
  import opened Grading
  import opened Selection
  import opened Shuffling

  /** How the program reads one input line at each of its prompts: trimmed
      as getInput trims it, then as the reply to a question, as a menu
      choice, as a question count and as a difficulty. */
  datatype Reading = Reading(reply: Reply, command: Command, count: int, difficulty: string)

  function Read(line: string): Reading {
    var t := TrimSpace(line);
    Reading(Classify(t), MenuCommand(t), CustomCount(t), CustomDifficulty(t))
  }

  /** The readings of all the lines. */
  function ReadAll(lines: seq<string>): (r: seq<Reading>)
    ensures |r| == |lines|
  {
    seq(|lines|, i requires 0 <= i < |lines| => Read(lines[i]))
  }

  /** `ins` are the readings of `lines`, line by line and prompt by prompt,
      so that a proof about one prompt need not read the others. */
  predicate ReadFrom(ins: seq<Reading>, lines: seq<string>) {
    && |ins| == |lines|
    && (forall i {:trigger ins[i].reply, lines[i]} :: 0 <= i < |lines| ==>
          ins[i].reply == Classify(TrimSpace(lines[i])))
    && (forall i {:trigger ins[i].command, lines[i]} :: 0 <= i < |lines| ==>
          ins[i].command == MenuCommand(TrimSpace(lines[i])))
    && (forall i {:trigger ins[i].count, lines[i]} :: 0 <= i < |lines| ==>
          ins[i].count == CustomCount(TrimSpace(lines[i])))
    && (forall i {:trigger ins[i].difficulty, lines[i]} :: 0 <= i < |lines| ==>
          ins[i].difficulty == CustomDifficulty(TrimSpace(lines[i])))
  }

  /** The replies among the readings, as a question reads them. */
  function RepliesOf(ins: seq<Reading>): (r: seq<Reply>)
    ensures |r| == |ins|
  {
    seq(|ins|, i requires 0 <= i < |ins| => ins[i].reply)
  }

  /** What any reading of a line satisfies: an answer names an article,
      and a question count lies between 5 and 50. */
  predicate Sensible(ins: seq<Reading>) {
    forall i :: 0 <= i < |ins| ==>
      && (ins[i].reply.Answer? ==> ins[i].reply.article in Articles)
      && MinCustomCount <= ins[i].count <= MaxCustomCount
  }

  /** The line-by-line statement means exactly ReadAll, and the readings
      of any lines are sensible. */
  lemma ReadFromAll(ins: seq<Reading>, lines: seq<string>)
    ensures ReadFrom(ins, lines) <==> ins == ReadAll(lines)
    ensures ReadFrom(ins, lines) ==> Sensible(ins)
  {
    if ReadFrom(ins, lines) {
      forall i | 0 <= i < |ins| ensures ins[i] == ReadAll(lines)[i] {
        assert ins[i].reply == Classify(TrimSpace(lines[i]));
        assert ins[i].command == MenuCommand(TrimSpace(lines[i]));
        assert ins[i].count == CustomCount(TrimSpace(lines[i]));
        assert ins[i].difficulty == CustomDifficulty(TrimSpace(lines[i]));
      }
    }
  }

  /** The replies among sensible readings name articles only. */
  lemma SensibleReplies(ins: seq<Reading>)
    requires Sensible(ins)
    ensures ArticlesOnly(RepliesOf(ins))
  {
    var rs := RepliesOf(ins);
    forall i | 0 <= i < |rs| && rs[i].Answer? ensures rs[i].article in Articles {
      assert rs[i] == ins[i].reply;
    }
  }

  /** The length of the quick quiz. */
  const QuickQuizCount := 10

  /** What a quiz changes as it runs: the lifetime statistics, the session,
      how many input lines were read, and how many random draws were used. */
  datatype State = State(stats: Stats, session: Session, pos: nat, draws: nat)

  /** StartQuiz's clamp: the requested number of questions, at most the
      number available. */
  function QuestionCount(requested: int, available: nat): (n: int)
    ensures n <= available
    ensures requested <= available ==> n == requested
    ensures requested > available ==> n == available
  {
    if requested > available then available else requested
  }

  /** The state after a session of `count` questions from `qs`, reading
      replies `rs`; also whether the input ran out. */
  function AfterPlay(rs: seq<Reply>, st: State, qs: seq<Word>, count: int, draws: nat): (r: (State, bool))
    requires count <= |qs| && st.pos <= |rs|
    ensures st.pos <= r.0.pos <= |rs|
  {
    var o := Play(qs, count, st.stats, rs, st.pos);
    (State(o.stats, o.session, o.next, draws), o.flow == Closed)
  }

  /** StartQuiz: the difficulty pool, shuffled, and a session of at most
      `numQuestions` of its words; nothing happens for an empty pool. */
  function QuizStep(words: seq<Word>, rng: nat -> nat, rs: seq<Reply>, st: State,
                    numQuestions: int, difficulty: string): (r: (State, bool))
    requires st.pos <= |rs|
    ensures st.pos <= r.0.pos <= |rs|
  {
    var pool := QuizPool(words, difficulty);
    if pool == [] then (st, false)
    else
      AfterPlay(rs, st, Shuffled(pool, rng, st.draws), QuestionCount(numQuestions, |pool|),
                st.draws + ShuffleDraws(|pool|))
  }

  /** ShowPracticeMode: the words with mistakes, repeated by their weight,
      shuffled, and a session of at most ten of them; nothing happens when
      no word has a mistake. */
  function PracticeStep(words: seq<Word>, rng: nat -> nat, rs: seq<Reply>, st: State): (r: (State, bool))
    requires st.pos <= |rs|
    ensures st.pos <= r.0.pos <= |rs|
  {
    var ws := st.stats.wordStats;
    var challenging := Challenging(words, ws);
    if |challenging| == 0 then (st, false)
    else
      var practice := Expand(challenging, ws);
      AfterPlay(rs, st, Shuffled(practice, rng, st.draws), PracticeCountCap(|practice|),
                st.draws + ShuffleDraws(|practice|))
  }

  /** ShowCustomMenu: a line for the count, a line for the difficulty, then
      StartQuiz; the input may run out before either. */
  function CustomStep(words: seq<Word>, rng: nat -> nat, ins: seq<Reading>, st: State): (r: (State, bool))
    requires st.pos <= |ins|
    ensures st.pos <= r.0.pos <= |ins|
  {
    if |ins| - st.pos < 2 then (st.(pos := |ins|), true)
    else QuizStep(words, rng, RepliesOf(ins), st.(pos := st.pos + 2), ins[st.pos].count, ins[st.pos + 1].difficulty)
  }

  /** One main-menu choice `c`, the choice itself already read: the state
      after it and whether the run ends, by leaving or by the input running
      out. The statistics screen and an unknown choice change nothing. */
  function MenuStep(words: seq<Word>, rng: nat -> nat, ins: seq<Reading>, st: State, c: Command): (r: (State, bool))
    requires st.pos <= |ins|
    ensures st.pos <= r.0.pos <= |ins|
  {
    match c
    case Leave => (st, true)
    case NoSuchChoice => (st, false)
    case Statistics => (st, false)
    case QuickQuiz => QuizStep(words, rng, RepliesOf(ins), st, QuickQuizCount, "")
    case CustomQuiz => CustomStep(words, rng, ins, st)
    case Practice => PracticeStep(words, rng, RepliesOf(ins), st)
  }

  /** RunGameLoop: menu choices until the user leaves or the input runs out. */
  function GameLoop(words: seq<Word>, rng: nat -> nat, ins: seq<Reading>, st: State): (r: State)
    requires st.pos <= |ins|
    ensures st.pos <= r.pos <= |ins|
    decreases |ins| - st.pos
  {
    if st.pos == |ins| then st
    else
      var q := MenuStep(words, rng, ins, st.(pos := st.pos + 1), ins[st.pos].command);
      if q.1 then q.0 else GameLoop(words, rng, ins, q.0)
  }

  /** One unfolding of QuizStep, so that callers need not unfold it. */
  lemma QuizStepUnfold(words: seq<Word>, rng: nat -> nat, rs: seq<Reply>, st: State,
                       numQuestions: int, difficulty: string)
    requires st.pos <= |rs|
    ensures var pool := QuizPool(words, difficulty);
      QuizStep(words, rng, rs, st, numQuestions, difficulty) ==
        if pool == [] then (st, false)
        else AfterPlay(rs, st, Shuffled(pool, rng, st.draws), QuestionCount(numQuestions, |pool|),
                       st.draws + ShuffleDraws(|pool|))
  {
  }

  /** One unfolding of PracticeStep, given its two pools. */
  lemma PracticeStepUnfold(words: seq<Word>, rng: nat -> nat, rs: seq<Reply>, st: State,
                           challenging: seq<Word>, practice: seq<Word>)
    requires st.pos <= |rs|
    requires challenging == Challenging(words, st.stats.wordStats)
    requires practice == Expand(challenging, st.stats.wordStats)
    ensures PracticeStep(words, rng, rs, st) ==
      if |challenging| == 0 then (st, false)
      else AfterPlay(rs, st, Shuffled(practice, rng, st.draws), PracticeCountCap(|practice|),
                     st.draws + ShuffleDraws(|practice|))
  {
  }

  /** A session of `count` questions from `qs` keeps the given draw count,
      only moves the lifetime statistics forward (for a count that is not
      negative), ends in a session that counts exactly its answers, at most
      `count` of them (unless the input ran out), and records only genuine
      mistakes on its questions. */
  lemma AfterPlaySpec(rs: seq<Reply>, st: State, qs: seq<Word>, count: int, draws: nat)
    requires count <= |qs| && st.pos <= |rs| && ArticlesOnly(rs)
    ensures var r := AfterPlay(rs, st, qs, count, draws);
      && r.0.draws == draws
      && (0 <= count ==> Progress(st.stats, r.0.stats))
      && (0 <= count && !r.1 ==> r.0.session.total == r.0.session.correct + |r.0.session.mistakes| <= count)
      && (r.1 ==> r.0.pos == |rs|)
      && (forall m :: m in r.0.session.mistakes ==> m.word in Take(qs, count) && Genuine(m))
  {
    PlayMistakes(qs, count, st.stats, rs, st.pos);
    if 0 <= count {
      PlayCounts(qs, count, st.stats, rs, st.pos);
      PlayProgress(qs, count, st.stats, rs, st.pos);
    } else {
      assert Take(qs, count) == [];
    }
  }

  /** A quiz over an empty pool changes nothing. Otherwise it uses one draw
      per word of the pool but one, only moves the lifetime statistics
      forward (for a count that is not negative), ends in a session that
      counts exactly its answers, at most the requested number (unless the
      input ran out), and records only genuine mistakes on words of the
      pool. */
  lemma QuizStepSpec(words: seq<Word>, rng: nat -> nat, rs: seq<Reply>, st: State,
                     numQuestions: int, difficulty: string)
    requires st.pos <= |rs| && ArticlesOnly(rs)
    ensures var r := QuizStep(words, rng, rs, st, numQuestions, difficulty);
      && (QuizPool(words, difficulty) == [] ==> r == (st, false))
      && (QuizPool(words, difficulty) != [] ==> r.0.draws == st.draws + ShuffleDraws(|QuizPool(words, difficulty)|))
      && (0 <= numQuestions ==> Progress(st.stats, r.0.stats))
      && (QuizPool(words, difficulty) != [] && 0 <= numQuestions && !r.1 ==>
            r.0.session.total == r.0.session.correct + |r.0.session.mistakes| <= numQuestions)
      && (r.1 ==> r.0.pos == |rs|)
      && (QuizPool(words, difficulty) != [] ==>
            forall m :: m in r.0.session.mistakes ==> m.word in QuizPool(words, difficulty) && Genuine(m))
  {
    var pool := QuizPool(words, difficulty);
    QuizStepUnfold(words, rng, rs, st, numQuestions, difficulty);
    if pool != [] {
      var shuffled := Shuffled(pool, rng, st.draws);
      var count := QuestionCount(numQuestions, |pool|);
      AfterPlaySpec(rs, st, shuffled, count, st.draws + ShuffleDraws(|pool|));
      ShuffledPermutes(pool, rng, st.draws);
      forall w | w in Take(shuffled, count) ensures w in pool {
        assert w in shuffled;
        assert w in multiset(shuffled);
      }
    }
  }

  /** The questions of a quiz over a catalog without repeated entries are
      different words of the pool, as many as requested or as the pool
      holds. */
  lemma QuizQuestions(words: seq<Word>, rng: nat -> nat, draws: nat, numQuestions: int, difficulty: string)
    requires Distinct(words) && QuizPool(words, difficulty) != []
    ensures var pool := QuizPool(words, difficulty);
      var qs := Take(Shuffled(pool, rng, draws), QuestionCount(numQuestions, |pool|));
      && |qs| == (if numQuestions <= 0 then 0 else if numQuestions < |pool| then numQuestions else |pool|)
      && Distinct(qs)
      && multiset(qs) <= multiset(pool)
  {
    var pool := QuizPool(words, difficulty);
    var shuffled := Shuffled(pool, rng, draws);
    var count := QuestionCount(numQuestions, |pool|);
    ShuffledPermutes(pool, rng, draws);
    var n: nat := if count > 0 then count else 0;
    DistinctQuestions(words, difficulty, shuffled, n);
  }

  /** Practice changes nothing when no catalog word was ever missed.
      Otherwise it only moves the lifetime statistics forward, asks at most
      ten questions, and records only genuine mistakes on catalog words
      that had been missed before. */
  lemma PracticeStepSpec(words: seq<Word>, rng: nat -> nat, rs: seq<Reply>, st: State)
    requires st.pos <= |rs| && ArticlesOnly(rs)
    ensures var r := PracticeStep(words, rng, rs, st);
      && (Challenging(words, st.stats.wordStats) == [] ==> r == (st, false))
      && Progress(st.stats, r.0.stats)
      && (Challenging(words, st.stats.wordStats) != [] && !r.1 ==>
            r.0.session.total == r.0.session.correct + |r.0.session.mistakes| <= 10)
      && (r.1 ==> r.0.pos == |rs|)
      && (Challenging(words, st.stats.wordStats) != [] ==>
            forall m :: m in r.0.session.mistakes ==>
              m.word in words && Misses(st.stats.wordStats, m.word.word) > 0 && Genuine(m))
  {
    var ws := st.stats.wordStats;
    var challenging := Challenging(words, ws);
    var practice := Expand(challenging, ws);
    PracticeStepUnfold(words, rng, rs, st, challenging, practice);
    if challenging != [] {
      var shuffled := Shuffled(practice, rng, st.draws);
      var count := PracticeCountCap(|practice|);
      AfterPlaySpec(rs, st, shuffled, count, st.draws + ShuffleDraws(|practice|));
      ShuffledPermutes(practice, rng, st.draws);
      forall w | w in Take(shuffled, count) ensures w in words && Misses(ws, w.word) > 0 {
        assert w in shuffled;
        assert w in multiset(shuffled);
        PracticeCount(words, ws, w);
      }
    }
  }

  /** A custom quiz only moves the lifetime statistics forward, and ends
      the run when fewer than two lines are left to read. */
  lemma CustomStepSpec(words: seq<Word>, rng: nat -> nat, ins: seq<Reading>, st: State)
    requires st.pos <= |ins| && Sensible(ins)
    ensures var r := CustomStep(words, rng, ins, st);
      && Progress(st.stats, r.0.stats)
      && (r.1 ==> r.0.pos == |ins|)
      && (|ins| - st.pos < 2 ==> r == (st.(pos := |ins|), true))
      && (|ins| - st.pos >= 2 ==>
            r == QuizStep(words, rng, RepliesOf(ins), st.(pos := st.pos + 2), ins[st.pos].count, ins[st.pos + 1].difficulty))
  {
    if |ins| - st.pos >= 2 {
      SensibleReplies(ins);
      QuizStepSpec(words, rng, RepliesOf(ins), st.(pos := st.pos + 2), ins[st.pos].count, ins[st.pos + 1].difficulty);
    }
  }

  /** One unfolding of GameLoop at a menu prompt with input left. */
  lemma GameLoopStep(words: seq<Word>, rng: nat -> nat, ins: seq<Reading>, st: State)
    requires st.pos < |ins|
    ensures var q := MenuStep(words, rng, ins, st.(pos := st.pos + 1), ins[st.pos].command);
      GameLoop(words, rng, ins, st) == if q.1 then q.0 else GameLoop(words, rng, ins, q.0)
  {
  }

  /** A menu choice only moves the lifetime statistics forward; leaving,
      the statistics screen and an unknown choice change nothing, and a
      quiz ends the run only when the input runs out. */
  lemma MenuStepSpec(words: seq<Word>, rng: nat -> nat, ins: seq<Reading>, st: State, c: Command)
    requires st.pos <= |ins| && Sensible(ins)
    ensures var r := MenuStep(words, rng, ins, st, c);
      && Progress(st.stats, r.0.stats)
      && (c == Leave ==> r == (st, true))
      && (c == Statistics || c == NoSuchChoice ==> r == (st, false))
      && (c != Leave && r.1 ==> r.0.pos == |ins|)
  {
    SensibleReplies(ins);
    match c
    case Leave =>
    case NoSuchChoice =>
    case Statistics =>
    case QuickQuiz =>
      QuizStepSpec(words, rng, RepliesOf(ins), st, QuickQuizCount, "");
    case CustomQuiz =>
      CustomStepSpec(words, rng, ins, st);
    case Practice =>
      PracticeStepSpec(words, rng, RepliesOf(ins), st);
  }

  /** Over a whole run the lifetime statistics only move forward: no
      counter drops, the wrong answers never shrink, no word's mistake
      count drops, and consistent statistics stay consistent. */
  lemma {:induction false} GameLoopProgress(words: seq<Word>, rng: nat -> nat, ins: seq<Reading>, st: State)
    requires st.pos <= |ins| && Sensible(ins)
    ensures Progress(st.stats, GameLoop(words, rng, ins, st).stats)
    decreases |ins| - st.pos
  {
    if st.pos < |ins| {
      var st1 := st.(pos := st.pos + 1);
      var q := MenuStep(words, rng, ins, st1, ins[st.pos].command);
      MenuStepSpec(words, rng, ins, st1, ins[st.pos].command);
      if !q.1 {
        GameLoopProgress(words, rng, ins, q.0);
        ProgressTransitive(st.stats, q.0.stats, GameLoop(words, rng, ins, q.0).stats);
      }
    }
  }

  /** A run ends only when the user leaves or the input runs out: either
      every line was read or the last line read was a way out. */
  lemma {:induction false} GameLoopEnds(words: seq<Word>, rng: nat -> nat, ins: seq<Reading>, st: State)
    requires st.pos <= |ins| && Sensible(ins)
    ensures var r := GameLoop(words, rng, ins, st);
      r.pos == |ins| || (0 < r.pos && ins[r.pos - 1].command == Leave)
    decreases |ins| - st.pos
  {
    if st.pos < |ins| {
      var st1 := st.(pos := st.pos + 1);
      var q := MenuStep(words, rng, ins, st1, ins[st.pos].command);
      MenuStepSpec(words, rng, ins, st1, ins[st.pos].command);
      if !q.1 {
        GameLoopEnds(words, rng, ins, q.0);
      }
    }
  }

  /** The quiz object. `lines` is what the user types, one line per
      element, `input` how the program reads those lines, and `pos` how
      many of them were read; the random stream is `rng`, of which `draws`
      numbers were used. */
  class Quiz {
    const words: seq<Word>
    const lines: seq<string>
    const input: seq<Reading>
    const rng: nat -> nat
    var stats: Stats
    var session: Session
    var pos: nat
    var draws: nat

    predicate Valid()
      reads this
    {
      pos <= |lines| && ReadFrom(input, lines)
    }

    function Snapshot(): State
      reads this
    {
      State(stats, session, pos, draws)
    }

    /** NewQuiz followed by LoadStats: the saved statistics, or fresh ones
        when none could be read. */
    constructor (words: seq<Word>, saved: Option<Stats>, lines: seq<string>, rng: nat -> nat)
      ensures this.words == words && this.lines == lines && this.rng == rng
      ensures input == ReadAll(lines)
      ensures Valid()
      ensures Snapshot() == State(if saved.Some? then saved.value else FreshStats, Session(0, 0, []), 0, 0)
    {
      this.words := words;
      this.lines := lines;
      this.input := ReadAll(lines);
      this.rng := rng;
      stats := if saved.Some? then saved.value else FreshStats;
      session := Session(0, 0, []);
      pos := 0;
      draws := 0;
      ReadFromAll(ReadAll(lines), lines);
    }

    /** getInput: the next line, trimmed, or `closed` at the end of input. */
    method GetInput() returns (line: string, closed: bool)
      requires Valid()
      modifies this`pos
      ensures Valid()
      ensures closed <==> old(pos) == |lines|
      ensures closed ==> line == "" && pos == old(pos)
      ensures !closed ==> line == TrimSpace(lines[old(pos)]) && pos == old(pos) + 1
    {
      if pos == |lines| {
        return "", true;
      }
      line := TrimSpace(lines[pos]);
      pos := pos + 1;
      closed := false;
    }

    /** getInput at a question, the line read as a reply. */
    method ReadReply() returns (reply: Reply, closed: bool)
      requires Valid()
      modifies this`pos
      ensures Valid()
      ensures closed <==> old(pos) == |lines|
      ensures closed ==> pos == old(pos)
      ensures !closed ==> pos == old(pos) + 1 && reply == RepliesOf(input)[old(pos)]
    {
      var line;
      line, closed := GetInput();
      if closed {
        return Invalid, true;
      }
      reply := Classify(line);
    }

    /** getInput at the main menu, the line read as a menu choice. */
    method ReadCommand() returns (command: Command, closed: bool)
      requires Valid()
      modifies this`pos
      ensures Valid()
      ensures closed <==> old(pos) == |lines|
      ensures closed ==> pos == old(pos)
      ensures !closed ==> pos == old(pos) + 1 && command == input[old(pos)].command
    {
      var choice;
      choice, closed := GetInput();
      if closed {
        return NoSuchChoice, true;
      }
      command := MenuCommand(choice);
    }

    /** getInput at the custom menu's first prompt, the line read as a
        question count. */
    method ReadCount() returns (num: int, closed: bool)
      requires Valid()
      modifies this`pos
      ensures Valid()
      ensures closed <==> old(pos) == |lines|
      ensures closed ==> pos == old(pos)
      ensures !closed ==> pos == old(pos) + 1 && num == input[old(pos)].count
    {
      var numStr;
      numStr, closed := GetInput();
      if closed {
        return DefaultCount, true;
      }
      num := CustomCount(numStr);
    }

    /** getInput at the custom menu's second prompt, the line read as a
        difficulty. */
    method ReadDifficulty() returns (difficulty: string, closed: bool)
      requires Valid()
      modifies this`pos
      ensures Valid()
      ensures closed <==> old(pos) == |lines|
      ensures closed ==> pos == old(pos)
      ensures !closed ==> pos == old(pos) + 1 && difficulty == input[old(pos)].difficulty
    {
      var choice;
      choice, closed := GetInput();
      if closed {
        return "", true;
      }
      difficulty := CustomDifficulty(choice);
    }

    /** markWrong: the mistake is recorded in the session and counted
        against the word. */
    method MarkWrong(w: Word, userAnswer: string)
      modifies this`session, this`stats
      ensures session == Recorded(old(session), w, userAnswer)
      ensures stats == Missed(old(stats), w)
    {
      session := session.(mistakes := session.mistakes + [MistakeInfo(w, userAnswer, w.article)]);
      stats := stats.(wordStats := stats.wordStats[w.word := Misses(stats.wordStats, w.word) + 1]);
    }

    /** askQuestion: prompts until a reply ends the question. */
    method AskQuestion(w: Word) returns (flow: Flow)
      requires Valid()
      modifies this`session, this`stats, this`pos
      ensures Valid()
      ensures var o := Ask(w, old(session), old(stats), RepliesOf(input), old(pos));
        flow == o.flow && session == o.session && stats == o.stats && pos == o.next
    {
      ghost var rs := RepliesOf(input);
      while true
        invariant Valid() && old(pos) <= pos
        invariant session == old(session) && stats == old(stats)
        invariant Ask(w, session, stats, rs, old(pos)) == Ask(w, session, stats, rs, pos)
        decreases |lines| - pos
      {
        var reply, closed := ReadReply();
        if closed {
          return Closed;
        }
        match reply
        case Quit =>
          return Stop;
        case Hint =>
          // printHint shows HintLine(w); the prompt repeats
        case Invalid =>
          // the prompt repeats
        case Skip =>
          MarkWrong(w, SkipAnswer);
          return Continue;
        case Answer(article) =>
          if article == w.article {
            session := session.(correct := session.correct + 1);
          } else {
            MarkWrong(w, article);
          }
          return Continue;
      }
    }

    /** showResults: a session that counts questions is folded into the
        lifetime statistics. */
    method ShowResults()
      modifies this`stats
      ensures stats == Settle(old(stats), session)
    {
      if session.total == 0 {
        return;
      }
      stats := stats.(totalQuizzes := stats.totalQuizzes + 1,
                      totalQuestions := stats.totalQuestions + session.total,
                      correctAnswers := stats.correctAnswers + session.correct);
    }

    /** The part StartQuiz and ShowPracticeMode share: a fresh session of
        `count` questions from `questions`, asked in order until the user
        quits, then the results; the input running out ends everything.
        `nextDraws` is the draw count after the shuffle that chose the
        questions. */
    method PlaySession(questions: seq<Word>, count: int, nextDraws: nat) returns (closed: bool)
      requires Valid() && count <= |questions|
      modifies this`session, this`stats, this`pos, this`draws
      ensures Valid()
      ensures (Snapshot(), closed) == AfterPlay(RepliesOf(input), old(Snapshot()), questions, count, nextDraws)
    {
      ghost var qs := Take(questions, count);
      ghost var rs := RepliesOf(input);
      draws := nextDraws;
      session := Session(0, count, []);
      var answered := 0;
      var i := 0;
      while i < count
        invariant Valid()
        invariant 0 <= i <= |qs| && answered == i
        invariant i < count <==> i < |qs|
        invariant draws == nextDraws
        invariant Run(qs, 0, Session(0, count, []), old(stats), rs, old(pos)) == Run(qs, i, session, stats, rs, pos)
        decreases count - i
      {
        assert qs[i] == questions[i];
        var flow := AskQuestion(questions[i]);
        if flow == Closed {
          return true;
        }
        if flow == Stop {
          session := session.(total := answered);
          break;
        }
        answered := answered + 1;
        i := i + 1;
      }
      ShowResults();
      closed := false;
    }

    /** StartQuiz's filter: the catalog entries of the given difficulty. */
    method FilterByDifficulty(difficulty: string) returns (filtered: seq<Word>)
      ensures filtered == MatchingDifficulty(words, difficulty)
    {
      filtered := [];
      var i := 0;
      while i < |words|
        invariant 0 <= i <= |words|
        invariant filtered == MatchingDifficulty(words[..i], difficulty)
      {
        assert words[..i + 1][..i] == words[..i];
        if EqualFold(words[i].difficulty, difficulty) {
          filtered := filtered + [words[i]];
        }
        i := i + 1;
      }
      assert words[..|words|] == words;
    }

    /** StartQuiz. */
    method StartQuiz(numQuestions: int, difficulty: string) returns (closed: bool)
      requires Valid()
      modifies this`session, this`stats, this`pos, this`draws
      ensures Valid()
      ensures (Snapshot(), closed) == QuizStep(words, rng, RepliesOf(input), old(Snapshot()), numQuestions, difficulty)
    {
      var available := words;
      if difficulty != "" {
        var filtered := FilterByDifficulty(difficulty);
        if |filtered| > 0 {
          available := filtered;
        }
      }
      assert available == QuizPool(words, difficulty);
      QuizStepUnfold(words, rng, RepliesOf(input), Snapshot(), numQuestions, difficulty);
      if |available| == 0 {
        return false;
      }
      var n := numQuestions;
      if n > |available| {
        n := |available|;
      }
      var shuffled, next := Shuffle(available, rng, draws);
      closed := PlaySession(shuffled, n, next);
    }

    /** ShowPracticeMode's first loop: the catalog words with mistakes. */
    method CollectChallenging() returns (challenging: seq<Word>)
      ensures challenging == Challenging(words, stats.wordStats)
    {
      challenging := [];
      var i := 0;
      while i < |words|
        invariant 0 <= i <= |words|
        invariant challenging == Challenging(words[..i], stats.wordStats)
      {
        assert words[..i + 1][..i] == words[..i];
        if Misses(stats.wordStats, words[i].word) > 0 {
          challenging := challenging + [words[i]];
        }
        i := i + 1;
      }
      assert words[..|words|] == words;
    }

    /** ShowPracticeMode's second loop: each word min(m + 1, 3) times. */
    method ExpandPractice(challenging: seq<Word>) returns (practice: seq<Word>)
      ensures practice == Expand(challenging, stats.wordStats)
    {
      practice := [];
      var i := 0;
      while i < |challenging|
        invariant 0 <= i <= |challenging|
        invariant practice == Expand(challenging[..i], stats.wordStats)
      {
        var w := challenging[i];
        var repeats := Misses(stats.wordStats, w.word) + 1;
        if repeats > 3 {
          repeats := 3;
        }
        ghost var before := practice;
        var k := 0;
        while k < repeats
          invariant 0 <= k <= (if repeats > 0 then repeats else 0)
          invariant practice == before + Repeat(w, k)
        {
          practice := practice + [w];
          assert Repeat(w, k + 1) == Repeat(w, k) + [w];
          k := k + 1;
        }
        assert challenging[..i + 1][..i] == challenging[..i];
        assert Repeat(w, k) == Repeat(w, Copies(Misses(stats.wordStats, w.word)));
        i := i + 1;
      }
      assert challenging[..|challenging|] == challenging;
    }

    /** ShowPracticeMode. */
    method ShowPracticeMode() returns (closed: bool)
      requires Valid()
      modifies this`session, this`stats, this`pos, this`draws
      ensures Valid()
      ensures (Snapshot(), closed) == PracticeStep(words, rng, RepliesOf(input), old(Snapshot()))
    {
      ghost var st0 := Snapshot();
      var challenging := CollectChallenging();
      var practice := ExpandPractice(challenging);
      PracticeStepUnfold(words, rng, RepliesOf(input), st0, challenging, practice);
      if |challenging| == 0 {
        return false;
      }
      var n := 10;
      if n > |practice| {
        n := |practice|;
      }
      assert n == PracticeCountCap(|practice|);
      var shuffled, next := Shuffle(practice, rng, draws);
      closed := PlaySession(shuffled, n, next);
    }

    /** The catalog lookup of ShowDetailedStats: the first entry for `term`. */
    method FindEntry(term: string) returns (found: Option<nat>)
      ensures found == FirstWithTerm(words, term)
    {
      var j := 0;
      while j < |words|
        invariant 0 <= j <= |words|
        invariant forall m :: 0 <= m < j ==> words[m].word != term
      {
        if words[j].word == term {
          return Some(j);
        }
        j := j + 1;
      }
      return None;
    }

    /** ShowDetailedStats' collection loop: every word with a positive
        mistake count, once, in map iteration order (arbitrary). */
    method CollectCounts() returns (collected: seq<WordError>)
      ensures CollectedFrom(collected, stats.wordStats)
    {
      var ws := stats.wordStats;
      collected := [];
      var remaining := ws.Keys;
      while remaining != {}
        invariant remaining <= ws.Keys
        invariant forall e :: e in collected ==> e.word in ws && e.word !in remaining && ws[e.word] == e.errors && e.errors > 0
        invariant forall k :: k in ws && k !in remaining && ws[k] > 0 ==> WordError(k, ws[k]) in collected
        invariant Distinct(collected)
        decreases remaining
      {
        var k :| k in remaining;
        if ws[k] > 0 {
          forall i | 0 <= i < |collected| ensures collected[i] != WordError(k, ws[k]) {
            assert collected[i] in collected;
          }
          collected := collected + [WordError(k, ws[k])];
        }
        remaining := remaining - {k};
      }
    }

    /** ShowDetailedStats' output loop: each listed word with the article
        of its first catalog entry; words not in the catalog are skipped. */
    method ListTop(top: seq<WordError>) returns (listed: seq<Listing>)
      ensures listed == Resolve(top, words)
    {
      listed := [];
      var i := 0;
      while i < |top|
        invariant 0 <= i <= |top|
        invariant listed == Resolve(top[..i], words)
      {
        assert top[..i + 1][..i] == top[..i];
        var found := FindEntry(top[i].word);
        if found.Some? {
          listed := listed + [Listing(words[found.value].article, top[i].word, top[i].errors)];
        }
        i := i + 1;
      }
      assert top[..|top|] == top;
    }

    /** ShowDetailedStats' list of the most challenging words: nothing
        before any question was answered; otherwise the most missed words,
        each with the article of its catalog entry (words no longer in the
        catalog are not listed). Map iteration order is arbitrary, and so
        is the order among words missed equally often. */
    method ShowDetailedStats() returns (top: seq<WordError>, listed: seq<Listing>)
      ensures stats.totalQuestions == 0 ==> top == [] && listed == []
      ensures stats.totalQuestions != 0 ==> MostMissed(top, stats.wordStats)
      ensures listed == Resolve(top, words)
    {
      if stats.totalQuestions == 0 {
        return [], [];
      }
      var collected := CollectCounts();
      TopFiveSpec(collected, stats.wordStats);
      if |collected| == 0 {
        return [], [];
      }
      top := TopFive(SortByErrors(collected));
      listed := ListTop(top);
    }

    /** ShowCustomMenu. */
    method ShowCustomMenu() returns (closed: bool)
      requires Valid()
      modifies this`session, this`stats, this`pos, this`draws
      ensures Valid()
      ensures (Snapshot(), closed) == CustomStep(words, rng, input, old(Snapshot()))
    {
      var num, difficulty;
      num, closed := ReadCount();
      if closed {
        return;
      }
      difficulty, closed := ReadDifficulty();
      if closed {
        return;
      }
      closed := StartQuiz(num, difficulty);
    }

    /** The switch of RunGameLoop on a choice already read. */
    method RunChoice(command: Command) returns (stop: bool)
      requires Valid()
      modifies this`session, this`stats, this`pos, this`draws
      ensures Valid()
      ensures (Snapshot(), stop) == MenuStep(words, rng, input, old(Snapshot()), command)
    {
      match command
      case QuickQuiz =>
        stop := StartQuiz(QuickQuizCount, "");
      case CustomQuiz =>
        stop := ShowCustomMenu();
      case Statistics =>
        var top, listed := ShowDetailedStats();
        stop := false;
      case Practice =>
        stop := ShowPracticeMode();
      case Leave =>
        stop := true;
      case NoSuchChoice =>
        stop := false;
    }

    /** RunGameLoop: the main menu, until the user leaves or the input runs
        out. */
    method RunGameLoop()
      requires Valid()
      modifies this`session, this`stats, this`pos, this`draws
      ensures Valid()
      ensures Snapshot() == GameLoop(words, rng, input, old(Snapshot()))
    {
      while true
        invariant Valid()
        invariant GameLoop(words, rng, input, Snapshot()) == GameLoop(words, rng, input, old(Snapshot()))
        decreases |lines| - pos
      {
        ghost var st := Snapshot();
        var command, closed := ReadCommand();
        if closed {
          return;
        }
        GameLoopStep(words, rng, input, st);
        var stop := RunChoice(command);
        if stop {
          return;
        }
      }
    }
  }
}
