/** How the quiz reads what the user types: article answers and their
    aliases, the control words of a question, the main-menu choice, the
    custom-quiz settings, and the hint line shown on request. */
module Answers {
  import opened Text
  import opened Records

  const Die := "die"
  const Der := "der"
  const Das := "das"
  const Articles: set<string> := {Die, Der, Das}

  const FeminineAliases: set<string> := {"1", "die", "f", "fem", "feminine"}
  const MasculineAliases: set<string> := {"2", "der", "r", "m", "masc", "masculine"}
  const NeuterAliases: set<string> := {"3", "das", "s", "n", "neut", "neuter"}

  const QuitWords: set<string> := {"q", "quit", "exit"}
  const HintWords: set<string> := {"?", "h", "hint"}
  const SkipWords: set<string> := {"s", "skip"}

  /** Lower-case, then trim, as the quiz does to every answer. */
  function Normalize(s: string): string {
    TrimSpace(ToLower(s))
  }

  /** The alias table: which article a normalised answer names. */
  function ArticleOfAlias(a: string): (r: (string, bool))
    ensures r == (Die, true) <==> a in FeminineAliases
    ensures r == (Der, true) <==> a in MasculineAliases
    ensures r == (Das, true) <==> a in NeuterAliases
    ensures r.1 ==> r.0 in Articles
    ensures !r.1 <==> r == ("", false)
  {
    match a
    case "1" | "die" | "f" | "fem" | "feminine" => (Die, true)
    case "2" | "der" | "r" | "m" | "masc" | "masculine" => (Der, true)
    case "3" | "das" | "s" | "n" | "neut" | "neuter" => (Das, true)
    case _ => ("", false)
  }

  /** parseArticle: the article an answer names, with `true`, or `("", false)`
      when the normalised answer is none of the aliases. */
  function ParseArticle(input: string): (r: (string, bool))
    ensures r == (Die, true) <==> Normalize(input) in FeminineAliases
    ensures r == (Der, true) <==> Normalize(input) in MasculineAliases
    ensures r == (Das, true) <==> Normalize(input) in NeuterAliases
    ensures r.1 ==> r.0 in Articles
    ensures !r.1 <==> r == ("", false)
  {
    ArticleOfAlias(Normalize(input))
  }

  /** Every article is its own alias. */
  lemma ParseArticleOfArticle(a: string)
    requires a in Articles
    ensures ParseArticle(a) == (a, true)
  {
    assert Normalize(a) == a by {
      assert ToLower(a) == a;
      TrimLeftStable(a);
      TrimRightStable(a);
    }
  }

  /** numberToArticle: the article of a trimmed "1", "2" or "3", otherwise "". */
  function NumberToArticle(num: string): (r: string)
    ensures r == Die <==> TrimSpace(num) == "1"
    ensures r == Der <==> TrimSpace(num) == "2"
    ensures r == Das <==> TrimSpace(num) == "3"
    ensures r == "" <==> TrimSpace(num) !in {"1", "2", "3"}
    ensures r == "" || r in Articles
  {
    match TrimSpace(num)
    case "1" => Die
    case "2" => Der
    case "3" => Das
    case _ => ""
  }

  /** Wherever numberToArticle gives an article, parseArticle gives the same. */
  lemma NumberAgreesWithParse(num: string)
    requires NumberToArticle(num) != ""
    ensures ParseArticle(num) == (NumberToArticle(num), true)
  {
    var t := TrimSpace(num);
    assert t == "1" || t == "2" || t == "3";
    assert Normalize(num) == t by {
      TrimLowerCommute(num);
      assert ToLower(t) == t;
    }
  }

  /** What one line typed at a question asks for. */
  datatype Reply = Quit | Hint | Skip | Invalid | Answer(article: string)

  /** A reply that ends the question; hints and invalid input re-prompt. */
  predicate Decisive(r: Reply) {
    r.Quit? || r.Skip? || r.Answer?
  }

  /** The switch of askQuestion on a normalised answer: the control words
      come first (so "s" skips and never means "das"), then the article
      aliases. */
  function ReplyOf(answer: string): (r: Reply)
    ensures r == Quit <==> answer in QuitWords
    ensures r == Hint <==> answer in HintWords
    ensures r == Skip <==> answer in SkipWords
    ensures r.Answer? <==> answer !in QuitWords + HintWords + SkipWords && ParseArticle(answer).1
    ensures r.Answer? ==> r.article == ParseArticle(answer).0
  {
    match answer
    case "q" | "quit" | "exit" => Quit
    case "?" | "h" | "hint" => Hint
    case "s" | "skip" => Skip
    case _ =>
      var (article, ok) := ParseArticle(answer);
      if ok then Answer(article) else Invalid
  }

  /** askQuestion's reading of one line. */
  function Classify(line: string): (r: Reply)
    ensures r.Answer? ==> r.article in Articles
  {
    ReplyOf(Normalize(line))
  }

  /** How a line is read at a question: quit, hint and skip words by their
      normalised form, and otherwise the article parseArticle finds in the
      line; a skip is never read as "das", although parseArticle alone
      would read "s" so. */
  lemma ClassifySpec(line: string)
    ensures Classify(line) == Quit <==> Normalize(line) in QuitWords
    ensures Classify(line) == Hint <==> Normalize(line) in HintWords
    ensures Classify(line) == Skip <==> Normalize(line) in SkipWords
    ensures Classify(line).Answer? <==>
      Normalize(line) !in QuitWords + HintWords + SkipWords && ParseArticle(line).1
    ensures Classify(line).Answer? ==> ParseArticle(line) == (Classify(line).article, true)
    ensures Classify(line) == Invalid <==>
      Normalize(line) !in QuitWords + HintWords + SkipWords && !ParseArticle(line).1
  {
    NormalizeIdempotent(line);
  }

  /** A main-menu choice. */
  datatype Command = QuickQuiz | CustomQuiz | Statistics | Practice | Leave | NoSuchChoice

  /** RunGameLoop's dispatch on the lower-cased choice. */
  function MenuCommand(choice: string): Command {
    match ToLower(choice)
    case "1" => QuickQuiz
    case "2" => CustomQuiz
    case "3" => Statistics
    case "4" => Practice
    case "q" | "quit" | "exit" => Leave
    case _ => NoSuchChoice
  }

  /** Each menu entry is chosen by exactly its key, in either case, and
      leaving by exactly the quit words; anything else is no choice. */
  lemma MenuCommandSpec(choice: string)
    ensures MenuCommand(choice) == QuickQuiz <==> ToLower(choice) == "1"
    ensures MenuCommand(choice) == CustomQuiz <==> ToLower(choice) == "2"
    ensures MenuCommand(choice) == Statistics <==> ToLower(choice) == "3"
    ensures MenuCommand(choice) == Practice <==> ToLower(choice) == "4"
    ensures MenuCommand(choice) == Leave <==> ToLower(choice) in QuitWords
    ensures MenuCommand(choice) == NoSuchChoice <==> ToLower(choice) !in {"1", "2", "3", "4"} + QuitWords
  {
  }

  const MinCustomCount := 5
  const MaxCustomCount := 50
  const DefaultCount := 10

  /** ShowCustomMenu's question count: a number from 5 to 50 is kept,
      anything else (not a number, or out of range) becomes 10. */
  function CustomCount(numStr: string): (n: int)
    ensures MinCustomCount <= n <= MaxCustomCount
  {
    match Atoi(numStr)
    case Some(num) => if num < MinCustomCount || num > MaxCustomCount then DefaultCount else num
    case None => DefaultCount
  }

  /** The count is the number typed when it lies in range, and the default
      when the line is no number or one out of range. */
  lemma CustomCountSpec(numStr: string)
    ensures Atoi(numStr).None? ==> CustomCount(numStr) == DefaultCount
    ensures Atoi(numStr).Some? && MinCustomCount <= Atoi(numStr).value <= MaxCustomCount ==>
      CustomCount(numStr) == Atoi(numStr).value
    ensures Atoi(numStr).Some? && !(MinCustomCount <= Atoi(numStr).value <= MaxCustomCount) ==>
      CustomCount(numStr) == DefaultCount
  {
  }

  /** Typing the numeral of a count in range selects exactly that count. */
  lemma CustomCountOfNumeral(n: nat)
    requires MinCustomCount <= n <= MaxCustomCount
    ensures CustomCount(Decimal(n)) == n
  {
    AtoiDecimal(n);
  }

  /** Typing the numeral of a count out of range selects the default. */
  lemma CustomCountOutOfRange(n: nat)
    requires n < MinCustomCount || MaxCustomCount < n <= MaxInt64
    ensures CustomCount(Decimal(n)) == DefaultCount
  {
    AtoiDecimal(n);
  }

  /** ShowCustomMenu's difficulty: "" stands for all levels. */
  function CustomDifficulty(choice: string): string {
    match ToLower(choice)
    case "2" | "easy" | "e" => "easy"
    case "3" | "medium" | "m" => "medium"
    case "4" | "hard" | "h" => "hard"
    case _ => ""
  }

  /** Each level is chosen by its number, its name or its initial, in
      either case; anything else means all levels. */
  lemma CustomDifficultySpec(choice: string)
    ensures CustomDifficulty(choice) == "easy" <==> ToLower(choice) in {"2", "easy", "e"}
    ensures CustomDifficulty(choice) == "medium" <==> ToLower(choice) in {"3", "medium", "m"}
    ensures CustomDifficulty(choice) == "hard" <==> ToLower(choice) in {"4", "hard", "h"}
    ensures CustomDifficulty(choice) == "" <==>
      ToLower(choice) !in {"2", "easy", "e", "3", "medium", "m", "4", "hard", "h"}
  {
  }

  const NoHint := "No hint available."

  /** 1 for a metadata field that is filled in, 0 for an empty one. */
  function Filled(field: string): nat {
    if field != "" then 1 else 0
  }

  /** The labelled metadata fields of a word that are not empty, in the
      order translation, category, difficulty, plural: one part per filled
      field, each at the position the filled fields before it leave. */
  function HintBits(w: Word): (bits: seq<string>)
    ensures |bits| == Filled(w.english) + Filled(w.category) + Filled(w.difficulty) + Filled(w.plural)
    ensures bits == [] <==> w.english == "" && w.category == "" && w.difficulty == "" && w.plural == ""
    ensures w.english != "" ==> bits[0] == "EN: " + w.english
    ensures w.category != "" ==> bits[Filled(w.english)] == "Category: " + w.category
    ensures w.difficulty != "" ==>
      bits[Filled(w.english) + Filled(w.category)] == "Difficulty: " + w.difficulty
    ensures w.plural != "" ==>
      bits[Filled(w.english) + Filled(w.category) + Filled(w.difficulty)] == "Plural: " + w.plural
  {
    (if w.english != "" then ["EN: " + w.english] else [])
    + (if w.category != "" then ["Category: " + w.category] else [])
    + (if w.difficulty != "" then ["Difficulty: " + w.difficulty] else [])
    + (if w.plural != "" then ["Plural: " + w.plural] else [])
  }

  /** The strings of `parts` with `sep` between consecutive ones. */
  function Join(parts: seq<string>, sep: string): (r: string)
    ensures parts != [] ==> |parts[0]| <= |r| && r[..|parts[0]|] == parts[0]
  {
    if parts == [] then ""
    else if |parts| == 1 then parts[0]
    else parts[0] + sep + Join(parts[1..], sep)
  }

  /** Joining a single part gives that part; one more part adds a separator
      and the part at the end. Together these fix every join. */
  lemma {:induction false} JoinSnoc(parts: seq<string>, p: string, sep: string)
    ensures Join([p], sep) == p
    ensures parts != [] ==> Join(parts + [p], sep) == Join(parts, sep) + sep + p
    decreases |parts|
  {
    if |parts| == 1 {
      assert (parts + [p])[1..] == [p];
    } else if |parts| > 1 {
      assert (parts + [p])[1..] == parts[1..] + [p];
      JoinSnoc(parts[1..], p, sep);
    }
  }

  /** printHint's line. */
  function HintLine(w: Word): string {
    var bits := HintBits(w);
    if bits == [] then NoHint else "Hint: " + Join(bits, " | ")
  }

  /** The hint says "no hint" exactly when the word has no metadata, and
      otherwise starts with its first present field. */
  lemma HintLineShape(w: Word)
    ensures HintLine(w) == NoHint <==> HintBits(w) == []
    ensures HintBits(w) != [] ==> HintLine(w)[..6 + |HintBits(w)[0]|] == "Hint: " + HintBits(w)[0]
  {
    var bits := HintBits(w);
    if bits != [] {
      var line := HintLine(w);
      assert line[..6] == "Hint: ";
      assert line[0] == 'H' && NoHint[0] == 'N';
      assert line[6..] == Join(bits, " | ");
      assert line[6..][..|bits[0]|] == bits[0];
      assert line[..6 + |bits[0]|] == line[..6] + line[6..][..|bits[0]|];
    }
  }

  /** The hint of a word with all four fields filled in, written out. */
  lemma HintLineFull(w: Word)
    requires w.english != "" && w.category != "" && w.difficulty != "" && w.plural != ""
    ensures HintLine(w) == "Hint: " + ("EN: " + w.english) + " | " + ("Category: " + w.category)
                           + " | " + ("Difficulty: " + w.difficulty) + " | " + ("Plural: " + w.plural)
  {
    var e, c, d, p := "EN: " + w.english, "Category: " + w.category,
                      "Difficulty: " + w.difficulty, "Plural: " + w.plural;
    var sep := " | ";
    assert HintBits(w) == [e, c, d, p];
    assert [d, p][1..] == [p];
    assert Join([d, p], sep) == d + sep + p;
    assert [c, d, p][1..] == [d, p];
    assert Join([c, d, p], sep) == c + sep + (d + sep + p);
    assert [e, c, d, p][1..] == [c, d, p];
    assert Join([e, c, d, p], sep) == e + sep + (c + sep + (d + sep + p));
  }
}
