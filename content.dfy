/** The shape of a quiz content file: its catalog metadata and its bilingual
    questions, as the quiz component and the registry read them. */
module QuizContent {
  import opened Wrappers

  /** The two locales every question is written in. */
  datatype Lang = EnUS | EsMX {
    /** The other locale (the language swap). */
    function Other(): Lang {
      if this == EsMX then EnUS else EsMX
    }
  }

  /** One value per locale, as the `{ "en-US": ..., "es-MX": ... }` objects. */
  datatype PerLang<T> = PerLang(en: T, es: T) {
    function Get(l: Lang): T {
      if l == EnUS then en else es
    }
  }

  /** A block of a structured explanation. */
  datatype Block =
    | Text(content: string)
    | TitleH2(content: string)
    | Link(content: string)
    | Code(content: string)
    | BulletList(items: seq<string>)
    | NumberedList(items: seq<string>)
    | Image(src: string, alt: Option<string>)
    | Divider

  /** A question as stored in a content file. `explanation` holds the per-locale
      entry of the `Explanation` object, which may be missing. */
  datatype RawQuestion = RawQuestion(
    category: Option<string>,
    text: PerLang<seq<string>>,
    options: PerLang<seq<string>>,
    correct: PerLang<string>,
    explanation: PerLang<Option<seq<Block>>>)

  /** The `meta` object of a content file; `slug` may be missing. */
  datatype RawMeta = RawMeta(
    slug: Option<string>,
    title: string,
    subject: string,
    unit: int,
    classNo: int,
    description: Option<string>,
    tags: Option<seq<string>>)

  /** A content file: `meta` may be missing, `Questions` is the question list. */
  datatype QuizFile = QuizFile(meta: Option<RawMeta>, questions: seq<RawQuestion>)
}
