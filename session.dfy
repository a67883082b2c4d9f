/** The quiz session: the state fields of the quiz component and the actions that
    change them (quiz selection, answer submission with its delayed advance, jump
    to a question, restart, language swap, view toggles).

    The 700 ms advance after an answer is a scheduled callback that captured the
    correctness, the question index, the question count and the mode at submission
    time; `timers` holds the callbacks not yet run, and `Fired` runs the oldest.
    As written, the component accepts a second answer while an advance is pending
    and never cancels a pending advance; `SubmitAsWritten`, `JumpAsWritten` and
    `SelectJsonAsWritten` keep that behaviour and the lemmas at the end show where
    it leads. The session proper (`Step`, the `Session` class) ignores answers
    while an advance is pending and cancels the pending advance on jump and quiz
    selection. Restart needs no cancel: its button is only on the result screen,
    where no advance can be pending. */
module QuizSession {
  import opened Wrappers
  import opened QuizContent
  import opened QuizAdapter
  import Registry

  datatype Mode = RetryUntilCorrect | AdvanceAlways {
    function Toggled(): (m: Mode)
      ensures m != this
    {
      if this == AdvanceAlways then RetryUntilCorrect else AdvanceAlways
    }
  }

  /** A scheduled advance with the values its closure captured. */
  datatype Pending = Pending(isCorrect: bool, atIndex: nat, count: nat, mode: Mode)

  /** The fields an answer and its advance change. */
  datatype Progress = Progress(
    index: nat,
    selectedAnswer: Option<string>,
    showCorrect: bool,
    score: nat,
    correctCount: nat,
    incorrectCount: nat,
    showResult: bool,
    timers: seq<Pending>)

  /** The panels and settings the toolbar toggles. */
  datatype View = View(
    showAnswer: bool,
    showExplanation: bool,
    showTranslation: bool,
    readAloud: bool,
    responseMode: bool,
    quizMode: Mode)

  datatype State = State(
    questions: seq<Adapted>,
    slug: Option<string>,
    isJsonSelected: bool,
    language: Option<Lang>,
    progress: Progress,
    view: View)

  /** The initial values of the component's state fields. */
  function Initial(initialSlug: Option<string>): (st: State)
    ensures Inv(st) && st.questions == [] && !st.isJsonSelected && st.language.None?
    ensures st.view.quizMode == RetryUntilCorrect && st.view.readAloud && st.view.responseMode
  {
    State([], initialSlug, false, None,
          Progress(0, None, false, 0, 0, 0, false, []),
          View(false, false, false, true, true, RetryUntilCorrect))
  }

  /** The locale answers are checked in: Spanish when the question language is
      es-MX, English otherwise (also while no language is set). */
  function ActiveLang(st: State): Lang {
    if st.language == Some(EsMX) then EsMX else EnUS
  }

  /** What every reachable session satisfies: the index is a question position
      (0 when there are none), the score is the correct count, and at most one
      advance is pending, for the current question with no result shown. */
  ghost predicate ProgressInv(p: Progress, n: nat) {
    && (n == 0 ==> p.index == 0)
    && (n > 0 ==> p.index < n)
    && p.score == p.correctCount
    && |p.timers| <= 1
    && (p.timers != [] ==> p.timers[0].atIndex == p.index && p.timers[0].count == n && n > 0 && !p.showResult)
  }

  ghost predicate Inv(st: State) {
    ProgressInv(st.progress, |st.questions|)
  }

  /** Moving to question `i`; the effect on the index clears the selected answer
      whenever the index actually changes. */
  function MovedTo(p: Progress, i: nat): (r: Progress)
    ensures r.index == i
    ensures i != p.index ==> r.selectedAnswer.None?
  {
    p.(index := i, selectedAnswer := if i != p.index then None else p.selectedAnswer)
  }

  /** `handleJsonSelection` as written: adapt the questions, set the language and
      start a fresh attempt at the first question; a pending advance stays
      scheduled. */
  function SelectJsonAsWritten(st: State, qs: seq<RawQuestion>, ds: seq<Draw>, lang: Lang): State
    requires ValidDraws(qs, ds)
  {
    var p := st.progress.(showResult := false, correctCount := 0, incorrectCount := 0, score := 0);
    st.(questions := Adapt(qs, ds), language := Some(lang), isJsonSelected := true, progress := MovedTo(p, 0))
  }

  /** The quiz selection, also cancelling a pending advance. */
  function SelectJson(st: State, qs: seq<RawQuestion>, ds: seq<Draw>, lang: Lang): State
    requires ValidDraws(qs, ds)
  {
    var st' := SelectJsonAsWritten(st, qs, ds, lang);
    st'.(progress := st'.progress.(timers := []))
  }

  /** `chooseQuiz`: load the file of `slug`; an unknown slug changes nothing. */
  function Chosen(st: State, json: map<string, QuizFile>, slug: string, ds: seq<Draw>, lang: Lang): State
    requires slug in json ==> ValidDraws(json[slug].questions, ds)
  {
    match Registry.LoadBySlug(json, slug)
    case None => st
    case Some(file) => SelectJson(st.(slug := Some(slug)), file.questions, ds, lang)
  }

  /** One answer counted: a right one raises the score and the correct count and
      shows the correct mark, a wrong one raises the incorrect count and marks the
      chosen option; either way its advance is scheduled. */
  function Answered(p: Progress, isCorrect: bool, option: string, timer: Pending): Progress {
    if isCorrect then
      p.(correctCount := p.correctCount + 1, score := p.score + 1, showCorrect := true, timers := p.timers + [timer])
    else
      p.(incorrectCount := p.incorrectCount + 1, selectedAnswer := Some(option), timers := p.timers + [timer])
  }

  /** `handleAnswerSelect` as written: ignored without questions or once the
      result is shown; otherwise the answer is checked by exact comparison with
      the active locale's correct text and counted. The requires leaves out an
      index past the last question with no result shown: there the source's
      question read fails, and its render has already failed on the same read. */
  function SubmitAsWritten(st: State, option: string): State
    requires |st.questions| == 0 || st.progress.showResult || st.progress.index < |st.questions|
  {
    if |st.questions| == 0 || st.progress.showResult then st
    else
      var isCorrect := option == st.questions[st.progress.index].correctText.Get(ActiveLang(st));
      var timer := Pending(isCorrect, st.progress.index, |st.questions|, st.view.quizMode);
      st.(progress := Answered(st.progress, isCorrect, option, timer))
  }

  /** An answer is accepted when there are questions, no result is shown and no
      advance is pending. */
  predicate Accepts(st: State) {
    |st.questions| > 0 && !st.progress.showResult && st.progress.timers == []
  }

  /** `handleAnswerSelect`, also ignored while an advance is pending. */
  function Submit(st: State, option: string): State
    requires Inv(st)
  {
    if st.progress.timers != [] then st else SubmitAsWritten(st, option)
  }

  /** The body of the 700 ms callback: hide the correct mark, then, in
      advance-always mode or after a right answer, step to the next question (the
      index updater adds one to the index current at that time) or show the result
      if the captured index was the last. */
  function RunAdvance(p: Progress, t: Pending): Progress {
    var p1 := p.(showCorrect := false);
    if t.mode == AdvanceAlways || t.isCorrect then
      if t.atIndex < t.count - 1 then MovedTo(p1.(selectedAnswer := None), p1.index + 1)
      else p1.(selectedAnswer := None, showResult := true)
    else p1
  }

  /** The oldest pending advance fires. */
  function Fired(p: Progress): Progress {
    if p.timers == [] then p else RunAdvance(p.(timers := p.timers[1..]), p.timers[0])
  }

  function FireTimer(st: State): State {
    st.(progress := Fired(st.progress))
  }

  /** The jump form as written: a number k with 1 <= k <= n moves to question k
      and clears the selection, the answer panel and the correct mark; anything
      else (including a text that is not a number, `None`) changes nothing. */
  function JumpAsWritten(st: State, k: Option<int>): State {
    if k.Some? && 1 <= k.value <= |st.questions| then
      st.(progress := MovedTo(st.progress, k.value - 1).(selectedAnswer := None, showCorrect := false),
          view := st.view.(showAnswer := false))
    else st
  }

  /** The jump, also cancelling a pending advance. */
  function Jump(st: State, k: Option<int>): State {
    if k.Some? && 1 <= k.value <= |st.questions| then
      var st' := JumpAsWritten(st, k);
      st'.(progress := st'.progress.(timers := []))
    else st
  }

  /** The restart button: leave the quiz, zero the score and counters, go back to
      the first question and hide the panels. */
  function Restarted(st: State): State {
    var p := st.progress.(score := 0, correctCount := 0, incorrectCount := 0, showResult := false);
    st.(isJsonSelected := false, progress := MovedTo(p, 0),
        view := st.view.(showTranslation := false, showExplanation := false, showAnswer := false))
  }

  /** The language button, shown once a quiz is selected: hide the translation
      and switch es-MX to en-US and anything else to es-MX. */
  function Swapped(st: State): State {
    if !st.isJsonSelected then st
    else st.(language := Some(if st.language == Some(EsMX) then EnUS else EsMX),
             view := st.view.(showTranslation := false))
  }

  datatype Toggle = ReadAloud | Explanation | Answer | Translation | ResponseMode | QuizMode

  /** The toolbar toggle buttons. */
  function Toggled(v: View, t: Toggle): View {
    match t
    case ReadAloud => v.(readAloud := !v.readAloud)
    case Explanation => v.(showExplanation := !v.showExplanation)
    case Answer => v.(showAnswer := !v.showAnswer)
    case Translation => v.(showTranslation := !v.showTranslation)
    case ResponseMode => v.(responseMode := !v.responseMode)
    case QuizMode => v.(quizMode := v.quizMode.Toggled())
  }

  /** Each toggle flips its own setting and nothing else, so two presses undo one. */
  lemma ToggleTwice(v: View, t: Toggle)
    ensures Toggled(Toggled(v, t), t) == v
    ensures Toggled(v, t) != v
  {
  }

  /** Everything that can happen to a session. */
  datatype Action =
    | SelectQuiz(qs: seq<RawQuestion>, ds: seq<Draw>, lang: Lang)
    | SubmitAnswer(option: string)
    | AdvanceTimer
    | JumpTo(k: Option<int>)
    | RestartQuiz
    | SwapLang
    | ToggleView(t: Toggle)

  predicate Allowed(a: Action) {
    a.SelectQuiz? ==> ValidDraws(a.qs, a.ds)
  }

  /** The restart button is on the result screen, shown when a result is shown or
      there are no questions. */
  predicate RestartShown(st: State) {
    st.progress.showResult || |st.questions| == 0
  }

  /** Whether the control of an action is on screen: the quiz cards (and the
      initial-load effect) only before a quiz is selected, the restart button only
      on the result screen. These are necessary conditions of the rendering, not
      all of it. Answers, timers, the jump form and the toolbar are not gated: the
      keyboard handler answers on any screen. */
  predicate Visible(st: State, a: Action) {
    match a
    case SelectQuiz(_, _, _) => !st.isJsonSelected
    case RestartQuiz => RestartShown(st)
    case _ => true
  }

  /** An action whose control is not on screen does nothing. */
  function Step(st: State, a: Action): State
    requires Inv(st) && Allowed(a)
  {
    if !Visible(st, a) then st else
    match a
    case SelectQuiz(qs, ds, lang) => SelectJson(st, qs, ds, lang)
    case SubmitAnswer(option) => Submit(st, option)
    case AdvanceTimer => FireTimer(st)
    case JumpTo(k) => Jump(st, k)
    case RestartQuiz => Restarted(st)
    case SwapLang => Swapped(st)
    case ToggleView(t) => st.(view := Toggled(st.view, t))
  }

  lemma SubmitPreservesInv(st: State, option: string)
    requires Inv(st)
    ensures Inv(Submit(st, option))
  {
  }

  lemma FirePreservesInv(st: State)
    requires Inv(st)
    ensures Inv(FireTimer(st))
  {
    var p := st.progress;
    if p.timers != [] {
      assert p.timers[1..] == [];
    }
  }

  lemma StepPreservesInv(st: State, a: Action)
    requires Inv(st) && Allowed(a)
    ensures Inv(Step(st, a))
    ensures !Visible(st, a) ==> Step(st, a) == st
  {
    match a
    case SelectQuiz(qs, ds, lang) =>
    case SubmitAnswer(option) => SubmitPreservesInv(st, option);
    case AdvanceTimer => FirePreservesInv(st);
    case JumpTo(k) =>
    case RestartQuiz => if Visible(st, a) { RestartPreservesInv(st); }
    case SwapLang =>
    case ToggleView(t) =>
  }

  function Run(st: State, actions: seq<Action>): State
    requires Inv(st)
    requires forall i :: 0 <= i < |actions| ==> Allowed(actions[i])
    decreases |actions|
  {
    if actions == [] then st
    else
      StepPreservesInv(st, actions[0]);
      Run(Step(st, actions[0]), actions[1..])
  }

  /** Whatever happens, the question index stays a question position (at most
      n - 1), the score equals the correct count and at most one advance is
      pending. */
  lemma {:induction false} RunPreservesInv(st: State, actions: seq<Action>)
    requires Inv(st)
    requires forall i :: 0 <= i < |actions| ==> Allowed(actions[i])
    ensures Inv(Run(st, actions))
    ensures |Run(st, actions).questions| > 0 ==> Run(st, actions).progress.index <= |Run(st, actions).questions| - 1
    decreases |actions|
  {
    if actions != [] {
      StepPreservesInv(st, actions[0]);
      RunPreservesInv(Step(st, actions[0]), actions[1..]);
    }
  }

  /** An accepted answer raises exactly one counter, chosen by exact equality with
      the active locale's correct text; a refused one changes nothing. */
  lemma SubmitCounts(st: State, option: string)
    requires Inv(st)
    ensures var p' := Submit(st, option).progress;
      var p := st.progress;
      && (!Accepts(st) ==> Submit(st, option) == st)
      && (Accepts(st) ==>
            var right := option == st.questions[p.index].correctText.Get(ActiveLang(st));
            && p'.correctCount == p.correctCount + (if right then 1 else 0)
            && p'.incorrectCount == p.incorrectCount + (if right then 0 else 1)
            && p'.score == p'.correctCount
            && p'.index == p.index && !p'.showResult
            && (right ==> p'.showCorrect)
            && (!right ==> p'.selectedAnswer == Some(option)))
  {
  }

  /** An accepted answer followed by its advance: a wrong answer in
      retry-until-correct mode stays on the question; a right answer, or any
      answer in advance-always mode, moves to the next question or, on the last
      one, shows the result. */
  lemma AdvanceRules(st: State, option: string)
    requires Inv(st) && Accepts(st)
    ensures var p' := FireTimer(Submit(st, option)).progress;
      var p := st.progress;
      var n := |st.questions|;
      var right := option == st.questions[p.index].correctText.Get(ActiveLang(st));
      && p'.timers == [] && !p'.showCorrect
      && (st.view.quizMode == RetryUntilCorrect && !right ==>
            p'.index == p.index && !p'.showResult && p'.selectedAnswer == Some(option))
      && (st.view.quizMode == AdvanceAlways || right ==>
            p'.selectedAnswer.None? &&
            (p.index < n - 1 ==> p'.index == p.index + 1 && !p'.showResult) &&
            (p.index == n - 1 ==> p'.index == p.index && p'.showResult))
  {
    var t := Pending(option == st.questions[st.progress.index].correctText.Get(ActiveLang(st)),
                     st.progress.index, |st.questions|, st.view.quizMode);
    var p1 := Submit(st, option).progress;
    assert p1.timers == [t];
    assert p1.timers[1..] == [];
  }

  /** A jump to 1 <= k <= n lands on question k and clears the selection, the
      answer panel and the correct mark, keeping the counters and the result flag;
      any other input changes nothing. */
  lemma JumpRules(st: State, k: Option<int>)
    ensures var st' := Jump(st, k);
      && (k.Some? && 1 <= k.value <= |st.questions| ==>
            st'.progress.index == k.value - 1 && st'.progress.selectedAnswer.None? &&
            !st'.view.showAnswer && !st'.progress.showCorrect &&
            st'.progress.correctCount == st.progress.correctCount &&
            st'.progress.incorrectCount == st.progress.incorrectCount &&
            st'.progress.showResult == st.progress.showResult)
      && (!(k.Some? && 1 <= k.value <= |st.questions|) ==> st' == st)
  {
  }

  /** Restart zeroes the score and counters, returns to the first question,
      leaves the quiz and hides the panels, and keeps the mode, the read-aloud
      setting, the questions and the language. */
  lemma RestartRules(st: State)
    ensures var st' := Restarted(st);
      && st'.progress.score == 0 && st'.progress.correctCount == 0 && st'.progress.incorrectCount == 0
      && st'.progress.index == 0 && !st'.progress.showResult && !st'.isJsonSelected
      && !st'.view.showTranslation && !st'.view.showExplanation && !st'.view.showAnswer
      && st'.view.quizMode == st.view.quizMode && st'.view.readAloud == st.view.readAloud
      && st'.questions == st.questions && st'.language == st.language
      && Grade(st'.progress.correctCount, st'.progress.incorrectCount) == 0
  {
  }

  /** Restart keeps the invariant because no advance is pending on the result
      screen. */
  lemma RestartPreservesInv(st: State)
    requires Inv(st) && RestartShown(st)
    ensures Inv(Restarted(st))
    ensures Restarted(st).progress.timers == []
  {
  }

  /** Selecting a quiz starts a fresh attempt at the first of its adapted
      questions, in the chosen language. */
  lemma SelectRules(st: State, qs: seq<RawQuestion>, ds: seq<Draw>, lang: Lang)
    requires ValidDraws(qs, ds)
    ensures var st' := SelectJson(st, qs, ds, lang);
      && Inv(st') && |st'.questions| == |qs| && st'.isJsonSelected
      && st'.progress.index == 0 && !st'.progress.showResult && st'.language == Some(lang)
      && st'.progress.score == 0 && st'.progress.correctCount == 0 && st'.progress.incorrectCount == 0
      && ActiveLang(st') == lang
  {
  }

  /** The language swap flips en-US and es-MX, hides the translation, and two
      swaps give the language back. */
  lemma SwapRules(st: State)
    requires st.isJsonSelected && st.language.Some?
    ensures Swapped(st).language == Some(st.language.value.Other())
    ensures !Swapped(st).view.showTranslation
    ensures Swapped(Swapped(st)).language == st.language
    ensures ActiveLang(Swapped(st)) != ActiveLang(st)
  {
  }

  // ---------------------------------------------------------------------------
  // The initial-load effect.

  /** The component's properties: an already loaded file, a pinned slug, a
      forced language. */
  datatype Props = Props(initialJson: Option<QuizFile>, initialQuizSlug: Option<string>, forceLanguage: Option<Lang>)

  /** A pinned slug counts only when it is a non-empty text (the effect tests
      its truthiness). */
  predicate HasSlug(props: Props) {
    props.initialQuizSlug.Some? && props.initialQuizSlug.value != ""
  }

  datatype Load = NoLoad | AdaptFile(file: QuizFile, lang: Lang) | LoadSlug(slug: string, lang: Lang)

  /** What the effect does: nothing once a quiz is selected or while there is
      neither a file, a slug nor a chosen language; otherwise adapt the given file,
      or load the pinned slug, in the forced, chosen or default (es-MX) language. */
  function InitialLoad(props: Props, selectedLanguage: Option<Lang>, isJsonSelected: bool): (r: Load)
    ensures isJsonSelected ==> r == NoLoad
    ensures !isJsonSelected && props.initialJson.Some? ==> r.AdaptFile? && r.file == props.initialJson.value
    ensures !isJsonSelected && props.initialJson.None? && HasSlug(props) ==>
      r.LoadSlug? && r.slug == props.initialQuizSlug.value
    ensures props.initialJson.None? && !HasSlug(props) ==> r == NoLoad
    ensures r != NoLoad ==> r.lang == props.forceLanguage.GetOr(selectedLanguage.GetOr(EsMX))
  {
    if isJsonSelected || (props.initialJson.None? && !HasSlug(props) && selectedLanguage.None?) then NoLoad
    else
      var lang := props.forceLanguage.GetOr(selectedLanguage.GetOr(EsMX));
      if props.initialJson.Some? then AdaptFile(props.initialJson.value, lang)
      else if HasSlug(props) then LoadSlug(props.initialQuizSlug.value, lang)
      else NoLoad
  }

  /** On a page with a pinned file, restarting makes the effect adapt the file
      again at once. */
  lemma RestartReadaptsPinnedFile(st: State, props: Props, selectedLanguage: Option<Lang>)
    requires props.initialJson.Some?
    ensures InitialLoad(props, selectedLanguage, Restarted(st).isJsonSelected) ==
      AdaptFile(props.initialJson.value, props.forceLanguage.GetOr(selectedLanguage.GetOr(EsMX)))
  {
  }

  // ---------------------------------------------------------------------------
  // Worked examples.

  function Question(options: seq<string>, correct: string): Adapted {
    Adapted(None, PerLang(Some("?"), Some("?")), PerLang(options, options), PerLang(correct, correct),
            PerLang(CorrectIndex(options, correct), CorrectIndex(options, correct)), PerLang([], []))
  }

  function TwoQuestionQuiz(): (st: State)
    ensures Inv(st) && Accepts(st) && |st.questions| == 2
  {
    Initial(None).(questions := [Question(["A", "B", "C"], "B"), Question(["X", "Y"], "Y")],
                   isJsonSelected := true, language := Some(EnUS))
  }

  /** Answering "B" then "Y" in retry-until-correct mode finishes with two right
      answers and a grade of 100. */
  lemma ScenarioAllRight()
    ensures var p := FireTimer(Submit(FireTimer(Submit(TwoQuestionQuiz(), "B")), "Y")).progress;
      p.showResult && p.correctCount == 2 && p.incorrectCount == 0 && Grade(p.correctCount, p.incorrectCount) == 100
  {
  }

  /** Answering "A" (wrong) keeps the first question; "B" then moves on. */
  lemma ScenarioWrongThenRight()
    ensures var st1 := FireTimer(Submit(TwoQuestionQuiz(), "A"));
      var st2 := FireTimer(Submit(st1, "B"));
      st1.progress.index == 0 && st1.progress.incorrectCount == 1 && st1.progress.correctCount == 0 &&
      st2.progress.index == 1 && st2.progress.incorrectCount == 1 && st2.progress.correctCount == 1
  {
  }

  // ---------------------------------------------------------------------------
  // The component as written accepts answers while an advance is pending.

  /** Two quick right answers on the first of two questions (a double click within
      the 700 ms window): both are counted, both advances step the index, and it
      ends one past the last question with no result shown. */
  lemma DoubleSubmitOverrunsAsWritten()
    ensures var st := FireTimer(FireTimer(SubmitAsWritten(SubmitAsWritten(TwoQuestionQuiz(), "B"), "B")));
      st.progress.correctCount == 2 && st.progress.index == |st.questions| && !st.progress.showResult
  {
  }

  /** A jump during the pending window: the advance of the earlier answer then
      steps from the jumped-to last question to one past it. */
  lemma JumpWhilePendingOverrunsAsWritten()
    ensures var st := FireTimer(JumpAsWritten(SubmitAsWritten(TwoQuestionQuiz(), "B"), Some(2)));
      st.progress.index == |st.questions| && !st.progress.showResult
  {
  }

  /** The source accepts keyboard answers on the selector screen after a restart,
      since the first question of the left quiz is still there; a quiz card picked
      within the 700 ms window then receives that answer's advance, captured with
      the old question count, and a one-question quiz ends at index 1. */
  lemma SelectWhilePendingOverrunsAsWritten()
    ensures var finished := FireTimer(Submit(FireTimer(Submit(TwoQuestionQuiz(), "B")), "Y"));
      var restarted := Restarted(finished);
      var answered := SubmitAsWritten(restarted, "B");
      var one := [RawQuestion(None, PerLang([], []), PerLang([], []), PerLang("x", "x"), PerLang(None, None))];
      var ds := [Draw(PerLang(0, 0), PerLang([], []))];
      && RestartShown(finished) && Accepts(restarted) && !restarted.isJsonSelected
      && ValidDraws(one, ds)
      && var st := FireTimer(SelectJsonAsWritten(answered, one, ds, EnUS));
      && |st.questions| == 1 && st.progress.index == 1 && !st.progress.showResult
  {
  }

  /** The same inputs through the guarded session stay in range. */
  lemma GuardedSessionStaysInRange()
    ensures var a := FireTimer(FireTimer(Submit(Submit(TwoQuestionQuiz(), "B"), "B")));
      var b := FireTimer(Jump(Submit(TwoQuestionQuiz(), "B"), Some(2)));
      a.progress.correctCount == 1 && a.progress.index == 1 && b.progress.index == 1
  {
  }

  /** The selection after a restart and a keyboard answer, through the guarded
      session: the cancelled advance leaves the new quiz at its first question. */
  lemma GuardedSelectStaysInRange()
    ensures var finished := FireTimer(Submit(FireTimer(Submit(TwoQuestionQuiz(), "B")), "Y"));
      var one := [RawQuestion(None, PerLang([], []), PerLang([], []), PerLang("x", "x"), PerLang(None, None))];
      var ds := [Draw(PerLang(0, 0), PerLang([], []))];
      && ValidDraws(one, ds)
      && var c := FireTimer(SelectJson(Submit(Restarted(finished), "B"), one, ds, EnUS));
      && c.progress.index == 0 && |c.questions| == 1
  {
  }

  // ---------------------------------------------------------------------------
  // The component's state fields, updated in place by its handlers.

  class Session {
    var questions: seq<Adapted>
    var currentSlug: Option<string>
    var isJsonSelected: bool
    var questionLanguage: Option<Lang>
    var progress: Progress
    var view: View

    function Current(): State
      reads this
    {
      State(questions, currentSlug, isJsonSelected, questionLanguage, progress, view)
    }

    ghost predicate Valid()
      reads this
    {
      Inv(Current())
    }

    constructor(initialSlug: Option<string>)
      ensures Current() == Initial(initialSlug) && Valid()
    {
      questions := [];
      currentSlug := initialSlug;
      isJsonSelected := false;
      questionLanguage := None;
      progress := Progress(0, None, false, 0, 0, 0, false, []);
      view := View(false, false, false, true, true, RetryUntilCorrect);
    }

    method HandleJsonSelection(qs: seq<RawQuestion>, ds: seq<Draw>, lang: Lang)
      requires Valid() && ValidDraws(qs, ds)
      modifies this
      ensures Current() == SelectJson(old(Current()), qs, ds, lang) && Valid()
    {
      SelectRules(Current(), qs, ds, lang);
      questions := Adapt(qs, ds);
      questionLanguage := Some(lang);
      isJsonSelected := true;
      progress := progress.(showResult := false, correctCount := 0, incorrectCount := 0, score := 0, timers := []);
      progress := MovedTo(progress, 0);
    }

    method ChooseQuiz(registry: Registry.Registry, slug: string, ds: seq<Draw>, lang: Lang)
      requires Valid() && registry.Valid()
      requires slug in registry.quizJson ==> ValidDraws(registry.quizJson[slug].questions, ds)
      modifies this
      ensures Current() == Chosen(old(Current()), registry.quizJson, slug, ds, lang) && Valid()
    {
      var file := registry.LoadQuizJsonBySlug(slug);
      if file.Some? {
        currentSlug := Some(slug);
        HandleJsonSelection(file.value.questions, ds, lang);
      }
    }

    method HandleAnswerSelect(option: string)
      requires Valid()
      modifies this
      ensures Current() == Submit(old(Current()), option) && Valid()
    {
      SubmitPreservesInv(Current(), option);
      if progress.timers != [] || |questions| == 0 || progress.showResult {
        return;
      }
      var isCorrect := option == questions[progress.index].correctText.Get(ActiveLang(Current()));
      var timer := Pending(isCorrect, progress.index, |questions|, view.quizMode);
      if isCorrect {
        progress := progress.(correctCount := progress.correctCount + 1, score := progress.score + 1,
                              showCorrect := true, timers := progress.timers + [timer]);
      } else {
        progress := progress.(incorrectCount := progress.incorrectCount + 1, selectedAnswer := Some(option),
                              timers := progress.timers + [timer]);
      }
    }

    /** The 700 ms callback of the oldest pending answer runs. */
    method AdvanceTimerFires()
      requires Valid()
      modifies this
      ensures Current() == FireTimer(old(Current())) && Valid()
    {
      FirePreservesInv(Current());
      if progress.timers == [] {
        return;
      }
      var t := progress.timers[0];
      progress := progress.(timers := progress.timers[1..], showCorrect := false);
      if t.mode == AdvanceAlways || t.isCorrect {
        if t.atIndex < t.count - 1 {
          progress := MovedTo(progress.(selectedAnswer := None), progress.index + 1);
        } else {
          progress := progress.(selectedAnswer := None, showResult := true);
        }
      }
    }

    method JumpTo(k: Option<int>)
      requires Valid()
      modifies this
      ensures Current() == Jump(old(Current()), k) && Valid()
    {
      if k.Some? && 1 <= k.value <= |questions| {
        progress := MovedTo(progress, k.value - 1);
        progress := progress.(selectedAnswer := None, showCorrect := false, timers := []);
        view := view.(showAnswer := false);
      }
    }

    method Restart()
      requires Valid() && RestartShown(Current())
      modifies this
      ensures Current() == Restarted(old(Current())) && Valid()
    {
      RestartPreservesInv(Current());
      isJsonSelected := false;
      progress := progress.(score := 0, correctCount := 0, incorrectCount := 0, showResult := false);
      view := view.(showTranslation := false, showExplanation := false, showAnswer := false);
      progress := MovedTo(progress, 0);
    }

    method SwapLanguage()
      requires Valid()
      modifies this
      ensures Current() == Swapped(old(Current())) && Valid()
    {
      if isJsonSelected {
        view := view.(showTranslation := false);
        questionLanguage := Some(if questionLanguage == Some(EsMX) then EnUS else EsMX);
      }
    }

    method Toggle(t: Toggle)
      requires Valid()
      modifies this
      ensures Current() == old(Current()).(view := Toggled(old(Current()).view, t)) && Valid()
    {
      view := Toggled(view, t);
    }
  }
}
