/** The quiz adapter: turns the raw bilingual questions of a content file into
    playable questions, one per source question, with one text variant picked per
    locale, each locale's options shuffled on its own, and the correct option
    located in the shuffled list. Also the derived grade and progress percentages
    and the narration voice preference. Randomness is injected: a `Draw` holds the
    variant index and the shuffle choices `Math.random` would have produced. */
module QuizAdapter {
  import opened Wrappers
  import opened Seqs
  import opened Strings
  import opened QuizContent

  /** A question as the session plays it. */
  datatype Adapted = Adapted(
    category: Option<string>,
    word: PerLang<Option<string>>,
    options: PerLang<seq<string>>,
    correctText: PerLang<string>,
    correctIndex: PerLang<nat>,
    explanation: PerLang<seq<Block>>)

  // ---------------------------------------------------------------------------
  // Shuffling. Any sort of a copy of the array yields some permutation of it; the
  // model takes the permutation as a list of draws without replacement (`picks[i]`
  // is the position, among the elements not yet drawn, of the i-th output).

  predicate ValidPicks(picks: seq<nat>, n: nat) {
    |picks| == n && forall i :: 0 <= i < n ==> picks[i] < n - i
  }

  /** `shuffleArray`: the options in the order the picks select them. */
  function Shuffle<T>(s: seq<T>, picks: seq<nat>): (r: seq<T>)
    requires ValidPicks(picks, |s|)
    ensures |r| == |s|
    ensures multiset(r) == multiset(s)
  {
    if s == [] then []
    else
      var k := picks[0];
      assert s == s[..k] + [s[k]] + s[k + 1..];
      var rest := s[..k] + s[k + 1..];
      assert ValidPicks(picks[1..], |rest|) by {
        forall i | 0 <= i < |rest| ensures picks[1..][i] < |rest| - i {
          assert picks[1..][i] == picks[i + 1];
        }
      }
      [s[k]] + Shuffle(rest, picks[1..])
  }

  lemma RemoveAt<T>(s: seq<T>, k: nat)
    requires k < |s|
    ensures multiset(s[..k] + s[k + 1..]) == multiset(s) - multiset{s[k]}
  {
    assert s == s[..k] + [s[k]] + s[k + 1..];
  }

  lemma DropFirst<T>(r: seq<T>)
    requires |r| > 0
    ensures multiset(r[1..]) == multiset(r) - multiset{r[0]}
  {
    assert r == [r[0]] + r[1..];
  }

  lemma ValidPicksCons(picks: seq<nat>, n: nat)
    requires |picks| == n > 0 && picks[0] < n && ValidPicks(picks[1..], n - 1)
    ensures ValidPicks(picks, n)
  {
    forall i | 1 <= i < n ensures picks[i] < n - i {
      assert picks[i] == picks[1..][i - 1];
    }
  }

  /** Shuffling keeps exactly the elements of the list. */
  lemma ShuffleMembers<T>(s: seq<T>, picks: seq<nat>, x: T)
    requires ValidPicks(picks, |s|)
    ensures x in Shuffle(s, picks) <==> x in s
  {
    assert x in s <==> x in multiset(s);
    assert x in Shuffle(s, picks) <==> x in multiset(Shuffle(s, picks));
  }

  /** The picks that draw the elements of `r` out of `s`, each time taking the
      first remaining occurrence. */
  function PicksFor<T(==)>(s: seq<T>, r: seq<T>): seq<nat>
    decreases |s|
  {
    if s == [] || r == [] then []
    else
      var k := IndexOf(s, r[0]);
      var k' := if k < 0 then 0 else k;
      [k' as nat] + PicksFor(s[..k'] + s[k' + 1..], r[1..])
  }

  lemma PicksForCons<T>(s: seq<T>, r: seq<T>, k: nat)
    requires r != [] && k < |s| && IndexOf(s, r[0]) == k
    ensures PicksFor(s, r) == [k] + PicksFor(s[..k] + s[k + 1..], r[1..])
  {
  }

  lemma ShuffleCons<T>(s: seq<T>, picks: seq<nat>)
    requires s != [] && ValidPicks(picks, |s|)
    ensures var k := picks[0];
      ValidPicks(picks[1..], |s| - 1) && Shuffle(s, picks) == [s[k]] + Shuffle(s[..k] + s[k + 1..], picks[1..])
  {
    forall i | 0 <= i < |s| - 1 ensures picks[1..][i] < |s| - 1 - i {
      assert picks[1..][i] == picks[i + 1];
    }
  }

  /** A permutation of a non-empty list starts with an element of it, and the rest
      is a permutation of what remains once that element is taken out. */
  lemma PermutationTail<T>(s: seq<T>, r: seq<T>)
    requires multiset(r) == multiset(s) && s != []
    ensures |r| == |s|
    ensures var k := IndexOf(s, r[0]);
      0 <= k < |s| && s[k] == r[0] && multiset(r[1..]) == multiset(s[..k] + s[k + 1..])
  {
    assert |r| == |multiset(r)| == |s|;
    assert r[0] in multiset(s);
    var k := IndexOf(s, r[0]);
    RemoveAt(s, k);
    DropFirst(r);
  }

  /** Every permutation is some shuffle. */
  lemma {:induction false} PicksForShuffle<T>(s: seq<T>, r: seq<T>)
    requires multiset(r) == multiset(s)
    ensures ValidPicks(PicksFor(s, r), |s|)
    ensures Shuffle(s, PicksFor(s, r)) == r
    decreases |s|
  {
    if s == [] {
      assert |r| == |multiset(r)| == 0;
    } else {
      PermutationTail(s, r);
      var k := IndexOf(s, r[0]);
      var rest := s[..k] + s[k + 1..];
      PicksForShuffle(rest, r[1..]);
      PicksForCons(s, r, k);
      var picks := PicksFor(s, r);
      assert picks[1..] == PicksFor(rest, r[1..]);
      ValidPicksCons(picks, |s|);
      ShuffleCons(s, picks);
      assert [r[0]] + r[1..] == r;
    }
  }

  /** `Math.floor(Math.random() * pool.length)` indexes the pool; an empty pool
      gives `undefined`. */
  function PickVariant(pool: seq<string>, v: nat): (r: Option<string>)
    requires pool != [] ==> v < |pool|
    ensures pool == [] <==> r.None?
    ensures r.Some? ==> r.value in pool
  {
    if pool == [] then None else Some(pool[v])
  }

  /** `Math.max(0, options.indexOf(correctText))`. */
  function CorrectIndex(options: seq<string>, correctText: string): (r: nat)
    ensures correctText in options ==>
      r < |options| && options[r] == correctText && forall j :: 0 <= j < r ==> options[j] != correctText
    ensures correctText !in options ==> r == 0
  {
    var k := IndexOf(options, correctText);
    if k < 0 then 0 else k
  }

  /** The random choices for one question: per locale, a variant index and the
      shuffle picks. */
  datatype Draw = Draw(variant: PerLang<nat>, picks: PerLang<seq<nat>>)

  predicate ValidDraw(q: RawQuestion, d: Draw) {
    && (q.text.en != [] ==> d.variant.en < |q.text.en|)
    && (q.text.es != [] ==> d.variant.es < |q.text.es|)
    && ValidPicks(d.picks.en, |q.options.en|)
    && ValidPicks(d.picks.es, |q.options.es|)
  }

  predicate ValidDraws(qs: seq<RawQuestion>, ds: seq<Draw>) {
    |ds| == |qs| && forall i :: 0 <= i < |qs| ==> ValidDraw(qs[i], ds[i])
  }

  /** What makes `a` a faithful adaptation of `q` in locale `l`. */
  predicate AdaptedIn(q: RawQuestion, a: Adapted, l: Lang) {
    && (a.word.Get(l).Some? <==> q.text.Get(l) != [])
    && (a.word.Get(l).Some? ==> a.word.Get(l).value in q.text.Get(l))
    && multiset(a.options.Get(l)) == multiset(q.options.Get(l))
    && a.correctText.Get(l) == q.correct.Get(l)
    && (q.correct.Get(l) in q.options.Get(l) ==>
          a.correctIndex.Get(l) < |a.options.Get(l)| &&
          a.options.Get(l)[a.correctIndex.Get(l)] == q.correct.Get(l))
    && (q.correct.Get(l) !in q.options.Get(l) ==> a.correctIndex.Get(l) == 0)
    && a.explanation.Get(l) == q.explanation.Get(l).GetOr([])
  }

  /** The per-question construction of `handleJsonSelection`. */
  function AdaptQuestion(q: RawQuestion, d: Draw): (a: Adapted)
    requires ValidDraw(q, d)
    ensures a.category == q.category && AdaptedIn(q, a, EnUS) && AdaptedIn(q, a, EsMX)
  {
    var optionsEn := Shuffle(q.options.en, d.picks.en);
    var optionsEs := Shuffle(q.options.es, d.picks.es);
    ShuffleMembers(q.options.en, d.picks.en, q.correct.en);
    ShuffleMembers(q.options.es, d.picks.es, q.correct.es);
    Adapted(
      q.category,
      PerLang(PickVariant(q.text.en, d.variant.en), PickVariant(q.text.es, d.variant.es)),
      PerLang(optionsEn, optionsEs),
      q.correct,
      PerLang(CorrectIndex(optionsEn, q.correct.en), CorrectIndex(optionsEs, q.correct.es)),
      PerLang(q.explanation.en.GetOr([]), q.explanation.es.GetOr([])))
  }

  /** `handleJsonSelection`'s map over the questions: one adapted question per
      source question, in source order, faithful in both locales. */
  function Adapt(qs: seq<RawQuestion>, ds: seq<Draw>): (r: seq<Adapted>)
    requires ValidDraws(qs, ds)
    ensures |r| == |qs|
    ensures forall i :: 0 <= i < |qs| ==>
      r[i].category == qs[i].category && AdaptedIn(qs[i], r[i], EnUS) && AdaptedIn(qs[i], r[i], EsMX)
  {
    seq(|qs|, i requires 0 <= i < |qs| => AdaptQuestion(qs[i], ds[i]))
  }

  /** The two locales are shuffled separately: any pair of option orders, one per
      locale, together with any pair of variants, is what some draw produces. */
  function DrawFor(q: RawQuestion, orderEn: seq<string>, orderEs: seq<string>, vEn: nat, vEs: nat): (d: Draw)
    requires multiset(orderEn) == multiset(q.options.en)
    requires multiset(orderEs) == multiset(q.options.es)
    requires q.text.en != [] ==> vEn < |q.text.en|
    requires q.text.es != [] ==> vEs < |q.text.es|
    ensures ValidDraw(q, d) && d.variant == PerLang(vEn, vEs)
    ensures AdaptQuestion(q, d).options == PerLang(orderEn, orderEs)
  {
    PicksForShuffle(q.options.en, orderEn);
    PicksForShuffle(q.options.es, orderEs);
    Draw(PerLang(vEn, vEs), PerLang(PicksFor(q.options.en, orderEn), PicksFor(q.options.es, orderEs)))
  }

  // ---------------------------------------------------------------------------
  // Percentages. `Math.round(x / t * 100)` on exact values is round-half-up of the
  // quotient 100x/t, that is floor((200x + t) / (2t)).

  function RoundedPercent(x: nat, t: nat): (p: nat)
    requires t > 0
    ensures (2 * p - 1) * t <= 200 * x < (2 * p + 1) * t
  {
    var p := (200 * x + t) / (2 * t);
    DivBounds(200 * x + t, 2 * t);
    p
  }

  lemma DivBounds(a: nat, b: nat)
    requires b > 0
    ensures (a / b) * b <= a < (a / b) * b + b
  {
  }

  /** The grade effect: 0 before any attempt, else the rounded share of correct
      answers. */
  function Grade(correct: nat, incorrect: nat): (g: nat)
    ensures correct + incorrect == 0 ==> g == 0
    ensures correct + incorrect > 0 ==>
      (2 * g - 1) * (correct + incorrect) <= 200 * correct < (2 * g + 1) * (correct + incorrect)
    ensures g <= 100
    ensures incorrect == 0 ==> g == 100 * (if correct > 0 then 1 else 0)
  {
    var t := correct + incorrect;
    if t > 0 then
      var g := RoundedPercent(correct, t);
      GradeAtMost100(correct, t, g);
      GradeAll(correct, g);
      g
    else 0
  }

  lemma GradeAtMost100(c: nat, t: nat, g: nat)
    ensures 0 < t && c <= t && (2 * g - 1) * t <= 200 * c ==> g <= 100
  {
    if 0 < t && c <= t && g > 100 {
      assert (2 * g - 1) * t >= 201 * t;
      assert 200 * c <= 200 * t;
    }
  }

  lemma GradeAll(c: nat, g: nat)
    ensures 0 < c && (2 * g - 1) * c <= 200 * c < (2 * g + 1) * c ==> g == 100
  {
    if 0 < c && g < 100 {
      assert (2 * g + 1) * c <= 199 * c;
    } else if 0 < c && g > 100 {
      assert (2 * g - 1) * c >= 201 * c;
    }
  }

  lemma GradeExamples()
    ensures Grade(0, 0) == 0 && Grade(3, 1) == 75 && Grade(1, 3) == 25 && Grade(2, 0) == 100
  {
  }

  /** The progress bar: position `index + 1` out of the question count (1 when
      there are none). */
  function ProgressPercent(index: nat, count: nat): (p: nat)
    ensures var t := if count == 0 then 1 else count;
      (2 * p - 1) * t <= 200 * (index + 1) < (2 * p + 1) * t
    ensures index < count ==> p <= 100
    ensures count > 0 && index == count - 1 ==> p == 100
  {
    var total := if count == 0 then 1 else count;
    var p := RoundedPercent(index + 1, total);
    GradeAtMost100(index + 1, total, p);
    GradeAll(count, p);
    p
  }

  // ---------------------------------------------------------------------------
  // Narration voice preference.

  datatype Voice = Voice(lang: string, name: string)

  function LangTag(l: Lang): string {
    if l == EnUS then "en-US" else "es-MX"
  }

  predicate IsGoogleVoice(v: Voice, lang: string) {
    v.lang == lang && Contains(v.name, "Google")
  }

  /** `pick`: the first voice of the language whose name mentions Google, else the
      first voice of the language, else none. */
  function PickVoice(voices: seq<Voice>, lang: string): (r: Option<Voice>)
    ensures r.None? <==> forall i :: 0 <= i < |voices| ==> voices[i].lang != lang
    ensures r.Some? ==> r.value in voices && r.value.lang == lang
    ensures (exists i :: 0 <= i < |voices| && IsGoogleVoice(voices[i], lang)) ==>
      r.Some? && IsGoogleVoice(r.value, lang) &&
      (exists i :: 0 <= i < |voices| && voices[i] == r.value &&
                   forall j :: 0 <= j < i ==> !IsGoogleVoice(voices[j], lang))
    ensures (forall i :: 0 <= i < |voices| ==> !IsGoogleVoice(voices[i], lang)) && r.Some? ==>
      exists i :: 0 <= i < |voices| && voices[i] == r.value && forall j :: 0 <= j < i ==> voices[j].lang != lang
  {
    match Find(voices, (v: Voice) => IsGoogleVoice(v, lang))
    case Some(v) => Some(v)
    case None => Find(voices, (v: Voice) => v.lang == lang)
  }

  /** `loadVoices`: with no voices reported the current choice stays; otherwise
      the preferred voice of the question language (English when none is set). */
  function LoadVoices(voices: seq<Voice>, questionLanguage: Option<Lang>, current: Option<Voice>): (r: Option<Voice>)
    ensures voices == [] ==> r == current
    ensures voices != [] ==> var lang := LangTag(questionLanguage.GetOr(EnUS));
      && (r.None? <==> forall i :: 0 <= i < |voices| ==> voices[i].lang != lang)
      && (r.Some? ==> r.value in voices && r.value.lang == lang)
      && ((exists i :: 0 <= i < |voices| && IsGoogleVoice(voices[i], lang)) ==> r.Some? && IsGoogleVoice(r.value, lang))
  {
    if voices == [] then current else PickVoice(voices, LangTag(questionLanguage.GetOr(EnUS)))
  }
}
