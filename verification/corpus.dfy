/** The records the question/answer service works with: the corpus items
    read at start-up, the metadata stored beside each indexed question, and
    the neighbours a similarity query returns. */
module Corpus {

  datatype Option<+T> = None | Some(value: T)

  /** The three registers of the corpus: English, Hindi-English code-mixed
      (Hinglish) and Hindi. */
  datatype Lang = English | Hinglish | Hindi

  /** The `language` tag stored in the metadata for each register. */
  function LangTag(l: Lang): string {
    match l
    case English => "english"
    case Hinglish => "hinglish"
    case Hindi => "hindi"
  }

  /** The three-way tag comparison of the answer selection (english, then
      hindi, then hinglish); any other tag is recognised as nothing. */
  function ParseLang(tag: string): (r: Option<Lang>)
    ensures r.Some? ==> LangTag(r.value) == tag
    ensures r.None? ==> forall l: Lang :: LangTag(l) != tag
  {
    if tag == "english" then Some(English)
    else if tag == "hindi" then Some(Hindi)
    else if tag == "hinglish" then Some(Hinglish)
    else None
  }

  /** One text in each of the three registers. */
  datatype Variants = Variants(english: string, hinglish: string, hindi: string) {
    function In(l: Lang): string {
      match l
      case English => english
      case Hinglish => hinglish
      case Hindi => hindi
    }
  }

  /** A corpus item: an identifier, the question and the answer, each in
      the three registers. */
  datatype Item = Item(id: string, question: Variants, answer: Variants)

  /** The metadata stored with an indexed question: the three answers
      (`answer_english`, `answer_hinglish`, `answer_hindi`) and the `language`
      tag of the question variant that was indexed. */
  datatype Meta = Meta(answers: Variants, language: string)

  /** One neighbour of a similarity query: the stored question text, its
      cosine distance to the query and its metadata. */
  datatype Hit = Hit(document: string, distance: real, meta: Meta)

  /** Tags round-trip through the answer selection's comparison. */
  lemma ParseLangTag(l: Lang)
    ensures ParseLang(LangTag(l)) == Some(l)
  {
  }
}
