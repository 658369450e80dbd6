/** The decision policy of `rag_answer`: guard, empty-result check, distance
    threshold, answer selection by language tag, domain gate, and generated
    fallback. The three outside services are inputs: `hits` is what the
    similarity index returned for the question's embedding (nearest first),
    `classifierReply` is the text the classification call returned and
    `generatorReply` the text the generation call returned. */
module Decision {
  import opened TextOps
  import opened FolioGuard
  import opened Corpus
  import opened Ingestion

  const NoResultsText: string := "No similar question found in the dataset."
  const DomainRefusalText: string :=
    "I'm sorry, I can only answer questions related to finance, stock market, and investments. Please ask a finance-related question."

  /** The threshold a request gets when it names none. */
  const DefaultThreshold: real := 0.7

  /** Which branch of the policy produced the reply. */
  datatype Outcome =
    | FolioRefusal
    | NoResults
    | Matched(lang: Lang)
    | DomainRefusal
    | Generated(context: string)

  /** The pair `rag_answer` returns: the answer text and the similarity score,
      together with the branch that produced them. */
  datatype Reply = Reply(outcome: Outcome, text: string, score: real)

  /** The distance rule: a neighbour matches when its cosine distance is at
      most one minus the threshold. */
  predicate IsMatch(distance: real, threshold: real) {
    distance <= 1.0 - threshold
  }

  /** The classifier's reply after `strip()` and `upper()`. */
  function Normalize(reply: string): string {
    Upper(Strip(reply))
  }

  /** The closed-world gate: only a reply normalising to "YES" lets the
      question through. */
  predicate IsFinance(reply: string) {
    Normalize(reply) == "YES"
  }

  /** The gate's condition stated character by character: after stripping
      whitespace the reply is exactly three letters, y or Y, then e or E,
      then s, S or the long s U+017F. */
  ghost predicate Affirmative(reply: string) {
    var s := Strip(reply);
    && |s| == 3
    && (s[0] == 'y' || s[0] == 'Y')
    && (s[1] == 'e' || s[1] == 'E')
    && (s[2] == 's' || s[2] == 'S' || s[2] == '\U{017F}')
  }

  lemma UpperCharY(c: char)
    ensures UpperChar(c) == 'Y' <==> c == 'y' || c == 'Y'
  {
  }

  lemma UpperCharE(c: char)
    ensures UpperChar(c) == 'E' <==> c == 'e' || c == 'E'
  {
  }

  lemma UpperCharS(c: char)
    ensures UpperChar(c) == 'S' <==> c == 's' || c == 'S' || c == '\U{017F}'
  {
  }

  /** The gate passes exactly on the replies described by `Affirmative`. */
  lemma IsFinanceIff(reply: string)
    ensures IsFinance(reply) <==> Affirmative(reply)
  {
    var s := Strip(reply);
    if |s| == 3 {
      UpperCharY(s[0]);
      UpperCharE(s[1]);
      UpperCharS(s[2]);
      assert Upper(s) == [UpperChar(s[0]), UpperChar(s[1]), UpperChar(s[2])];
    }
  }

  /** Surrounding whitespace and case do not matter to the gate. */
  lemma PaddedYesPasses()
    ensures IsFinance(" yes\n")
  {
    var reply := " yes\n";
    assert reply[1..4] == "yes";
    StripAtIsStrip(reply, "yes", 1, 4);
    assert Upper("yes") == "YES";
  }

  /** Trailing punctuation fails the gate. */
  lemma PunctuatedYesFails()
    ensures !IsFinance("YES.")
  {
    var reply := "YES.";
    assert reply[0..4] == reply;
    StripAtIsStrip(reply, reply, 0, 4);
  }

  /** An empty reply fails the gate. */
  lemma EmptyReplyFails()
    ensures !IsFinance("")
  {
  }

  /** One context block: the retrieved question with its English and Hindi
      answers. */
  function Block(h: Hit): string {
    "Q: " + h.document + "\nA (English): " + h.meta.answers.english + "\nA (Hindi): " + h.meta.answers.hindi
  }

  /** The blocks of all retrieved neighbours, in retrieval order. */
  function Blocks(hits: seq<Hit>): (bs: seq<string>)
    ensures |bs| == |hits|
  {
    seq(|hits|, i requires 0 <= i < |hits| => Block(hits[i]))
  }

  /** The context handed to the generator: the blocks joined by blank lines. */
  function Context(hits: seq<Hit>): string {
    Join(Blocks(hits), "\n\n")
  }

  /** `rag_answer` once the outside calls are replaced by their results. */
  function Answer(query: string, threshold: real, hits: seq<Hit>, classifierReply: string, generatorReply: string): (r: Reply)
    ensures r.outcome in {FolioRefusal, NoResults, DomainRefusal} ==> r.score == 0.0
    ensures r.outcome.Matched? || r.outcome.Generated? ==> |hits| > 0 && r.score == 1.0 - hits[0].distance
    ensures r.outcome.Matched? ==> IsMatch(hits[0].distance, threshold)
    ensures r.outcome.Generated? ==> r.text == generatorReply
  {
    if GuardFires(query) then Reply(FolioRefusal, FolioRefusalText, 0.0)
    else AfterGuard(threshold, hits, classifierReply, generatorReply)
  }

  /** The stages after the guard: empty-result check, threshold, answer
      selection, domain gate and generated fallback. */
  function AfterGuard(threshold: real, hits: seq<Hit>, classifierReply: string, generatorReply: string): (r: Reply)
    ensures r.outcome != FolioRefusal
  {
    if |hits| == 0 then Reply(NoResults, NoResultsText, 0.0)
    else
      var top := hits[0];
      var d := top.distance;
      var lang := ParseLang(top.meta.language);
      if IsMatch(d, threshold) && lang.Some? then
        Reply(Matched(lang.value), top.meta.answers.In(lang.value), 1.0 - d)
      else if !IsFinance(classifierReply) then
        Reply(DomainRefusal, DomainRefusalText, 0.0)
      else
        Reply(Generated(Context(hits)), generatorReply, 1.0 - d)
  }

  /** The guard answers first: on a folio question with eight consecutive
      digits the reply is the fixed refusal, whatever the index, the
      classifier and the generator would have said. */
  lemma GuardFirst(query: string, threshold: real, hits: seq<Hit>, classifierReply: string, generatorReply: string)
    requires FolioCondition(query)
    ensures Answer(query, threshold, hits, classifierReply, generatorReply) == Reply(FolioRefusal, FolioRefusalText, 0.0)
  {
    GuardFiresIff(query);
    assert GuardFires(query);
  }

  /** Otherwise the guard lets the question through to retrieval. */
  lemma GuardPasses(query: string, threshold: real, hits: seq<Hit>, classifierReply: string, generatorReply: string)
    requires !FolioCondition(query)
    ensures Answer(query, threshold, hits, classifierReply, generatorReply).outcome != FolioRefusal
  {
    GuardFiresIff(query);
    assert !GuardFires(query);
  }

  /** An empty retrieval yields the fixed "no similar question" reply and
      consults neither the classifier nor the generator. */
  lemma EmptyRetrieval(query: string, threshold: real, classifierReply: string, generatorReply: string)
    requires !FolioCondition(query)
    ensures Answer(query, threshold, [], classifierReply, generatorReply) == Reply(NoResults, NoResultsText, 0.0)
  {
    GuardFiresIff(query);
  }

  /** With neighbours, the reply is a stored answer exactly when the nearest
      distance is within `1 - threshold` and its language tag is known. */
  lemma ThresholdRule(query: string, threshold: real, hits: seq<Hit>, classifierReply: string, generatorReply: string)
    requires !FolioCondition(query) && |hits| > 0
    ensures Answer(query, threshold, hits, classifierReply, generatorReply).outcome.Matched?
      <==> hits[0].distance <= 1.0 - threshold && hits[0].meta.language in {"english", "hindi", "hinglish"}
  {
    GuardFiresIff(query);
    var tag := hits[0].meta.language;
    if tag in {"english", "hindi", "hinglish"} {
      assert ParseLang(tag).Some?;
    }
  }

  /** A stored answer given under some threshold is given unchanged under
      every lower, more lenient, threshold. */
  lemma ThresholdMonotone(query: string, low: real, high: real, hits: seq<Hit>, classifierReply: string, generatorReply: string)
    requires low <= high
    ensures Answer(query, high, hits, classifierReply, generatorReply).outcome.Matched? ==>
              Answer(query, low, hits, classifierReply, generatorReply) == Answer(query, high, hits, classifierReply, generatorReply)
  {
  }

  /** With threshold 1.0 only a distance of at most zero matches. */
  lemma ThresholdOne(query: string, hits: seq<Hit>, classifierReply: string, generatorReply: string)
    ensures Answer(query, 1.0, hits, classifierReply, generatorReply).outcome.Matched? ==>
              |hits| > 0 && hits[0].distance <= 0.0
  {
  }

  /** On a match the reply is the nearest neighbour's stored answer in the
      language of its tag, scored one minus the distance. */
  lemma AnswerSelection(query: string, threshold: real, hits: seq<Hit>, classifierReply: string, generatorReply: string, l: Lang)
    requires !FolioCondition(query) && |hits| > 0
    requires hits[0].distance <= 1.0 - threshold
    requires hits[0].meta.language == LangTag(l)
    ensures Answer(query, threshold, hits, classifierReply, generatorReply)
         == Reply(Matched(l), hits[0].meta.answers.In(l), 1.0 - hits[0].distance)
  {
    GuardFiresIff(query);
    ParseLangTag(l);
  }

  /** A nearest neighbour with an unknown tag never yields a stored answer:
      the request goes on to the domain gate as if nothing had matched. */
  lemma UnknownTagFallsThrough(query: string, threshold: real, hits: seq<Hit>, classifierReply: string, generatorReply: string)
    requires !FolioCondition(query) && |hits| > 0
    requires forall l: Lang :: hits[0].meta.language != LangTag(l)
    ensures Answer(query, threshold, hits, classifierReply, generatorReply).outcome in {DomainRefusal, Generated(Context(hits))}
  {
    GuardFiresIff(query);
  }

  /** Without a match, the classifier decides: a reply that is not "YES"
      after normalising gives the fixed finance-only refusal with score zero,
      whatever the generator said. */
  lemma DomainGate(query: string, threshold: real, hits: seq<Hit>, classifierReply: string, generatorReply: string)
    requires !FolioCondition(query) && |hits| > 0
    requires !Answer(query, threshold, hits, classifierReply, generatorReply).outcome.Matched?
    ensures !Affirmative(classifierReply) <==>
      Answer(query, threshold, hits, classifierReply, generatorReply) == Reply(DomainRefusal, DomainRefusalText, 0.0)
  {
    GuardFiresIff(query);
    IsFinanceIff(classifierReply);
  }

  /** Without a match and with an affirmative classifier, the reply is the
      generator's text verbatim, generated from the context of all retrieved
      neighbours, scored one minus the nearest distance. */
  lemma GeneratedFallback(query: string, threshold: real, hits: seq<Hit>, classifierReply: string, generatorReply: string)
    requires !FolioCondition(query) && |hits| > 0
    requires !Answer(query, threshold, hits, classifierReply, generatorReply).outcome.Matched?
    requires Affirmative(classifierReply)
    ensures Answer(query, threshold, hits, classifierReply, generatorReply)
         == Reply(Generated(Context(hits)), generatorReply, 1.0 - hits[0].distance)
  {
    GuardFiresIff(query);
    IsFinanceIff(classifierReply);
  }

  /** The context holds every retrieved neighbour's block verbatim, one per
      neighbour. */
  lemma ContextHoldsEveryBlock(hits: seq<Hit>, i: int)
    requires 0 <= i < |hits|
    ensures Contains(Context(hits), Block(hits[i]))
  {
    JoinContainsPart(Blocks(hits), "\n\n", i);
  }

  /** With the index's two neighbours the context is the two blocks separated
      by a blank line; with one it is that block alone. */
  lemma ContextShape(hits: seq<Hit>)
    ensures |hits| == 1 ==> Context(hits) == Block(hits[0])
    ensures |hits| == 2 ==> Context(hits) == Block(hits[0]) + "\n\n" + Block(hits[1])
  {
    if |hits| == 2 {
      var bs := Blocks(hits);
      assert bs[1..] == [Block(hits[1])];
      assert Join(bs[1..], "\n\n") == Block(hits[1]);
    }
  }

  /** The context depends only on the neighbours' questions and their English
      and Hindi answers: not on the Hinglish answers, the language tags or the
      distances. */
  lemma ContextIgnoresHinglish(hits: seq<Hit>, others: seq<Hit>)
    requires |hits| == |others|
    requires forall i :: 0 <= i < |hits| ==>
      && hits[i].document == others[i].document
      && hits[i].meta.answers.english == others[i].meta.answers.english
      && hits[i].meta.answers.hindi == others[i].meta.answers.hindi
    ensures Context(hits) == Context(others)
  {
    assert Blocks(hits) == Blocks(others);
  }

  /** A question stored at ingestion, retrieved as the nearest neighbour
      within the threshold, is answered with its own item's answer in the
      language of the stored question variant. */
  lemma IngestedQuestionAnswered(items: seq<Item>, e: Entry, query: string, threshold: real, distance: real,
                                 rest: seq<Hit>, classifierReply: string, generatorReply: string)
    requires e in Plan(0, items)
    requires !FolioCondition(query)
    requires distance <= 1.0 - threshold
    ensures exists k, l :: (0 <= k < |items|
                            && e.document == items[k].question.In(l)
                            && Answer(query, threshold, [Hit(e.document, distance, e.meta)] + rest, classifierReply, generatorReply)
                               == Reply(Matched(l), items[k].answer.In(l), 1.0 - distance))
  {
    var k, l :| 0 <= k < |items| && Indexed(items[k], l) && e == EntryFor(items[k], l);
    var hits := [Hit(e.document, distance, e.meta)] + rest;
    assert hits[0] == Hit(e.document, distance, e.meta);
    assert e.meta.language == LangTag(l) && e.meta.answers == items[k].answer;
    AnswerSelection(query, threshold, hits, classifierReply, generatorReply, l);
  }

  /** "What is folio number 12345678?" is refused by the guard. */
  lemma FolioScenario(threshold: real, hits: seq<Hit>, classifierReply: string, generatorReply: string)
    ensures Answer("What is folio number 12345678?", threshold, hits, classifierReply, generatorReply)
         == Reply(FolioRefusal, FolioRefusalText, 0.0)
  {
    var q := "What is folio number 12345678?";
    var head, digits := "What is folio number ", "12345678";
    assert q == head + digits + "?";
    assert Lower(head)[8..13] == "folio";
    assert Lower(q)[8..13] == Lower(head)[8..13];
    assert OccursAt("folio", Lower(q), 8);
    ContainsIff(Lower(q), "folio");
    assert q[21..29] == digits;
    assert DigitWindowAt(q, 21, 8);
    GuardFirst(q, threshold, hits, classifierReply, generatorReply);
  }

  /** A stored English question at distance 0.1 under the default threshold
      0.7 is a match: its English answer with score 0.9. */
  lemma EnglishMatchScenario(query: string, document: string, answers: Variants, rest: seq<Hit>,
                             classifierReply: string, generatorReply: string)
    requires !FolioCondition(query)
    ensures Answer(query, DefaultThreshold, [Hit(document, 0.1, Meta(answers, "english"))] + rest, classifierReply, generatorReply)
         == Reply(Matched(English), answers.english, 0.9)
  {
    AnswerSelection(query, DefaultThreshold, [Hit(document, 0.1, Meta(answers, "english"))] + rest,
                    classifierReply, generatorReply, English);
  }

  /** The classifier reply "NO" fails the gate. */
  lemma NoFails()
    ensures !IsFinance("NO")
  {
    assert "NO"[0..2] == "NO";
    StripAtIsStrip("NO", "NO", 0, 2);
  }

  /** The classifier reply "YES" passes the gate. */
  lemma YesPasses()
    ensures IsFinance("YES")
  {
    assert "YES"[0..3] == "YES";
    StripAtIsStrip("YES", "YES", 0, 3);
    assert Upper("YES") == "YES";
  }

  /** A distant question (distance 0.9, threshold 0.7) that the classifier
      calls "NO" gets the finance-only refusal. */
  lemma DistantRefusedScenario(query: string, document: string, meta: Meta, rest: seq<Hit>, generatorReply: string)
    requires !FolioCondition(query)
    ensures Answer(query, DefaultThreshold, [Hit(document, 0.9, meta)] + rest, "NO", generatorReply)
         == Reply(DomainRefusal, DomainRefusalText, 0.0)
  {
    var hits := [Hit(document, 0.9, meta)] + rest;
    assert hits[0].distance == 0.9;
    NoFails();
    GuardPasses(query, DefaultThreshold, hits, "NO", generatorReply);
  }

  /** The same question called "YES" by the classifier gets the generated
      text with score 0.1. */
  lemma DistantGeneratedScenario(query: string, document: string, meta: Meta, rest: seq<Hit>, generatorReply: string)
    requires !FolioCondition(query)
    ensures Answer(query, DefaultThreshold, [Hit(document, 0.9, meta)] + rest, "YES", generatorReply)
         == Reply(Generated(Context([Hit(document, 0.9, meta)] + rest)), generatorReply, 0.1)
  {
    var hits := [Hit(document, 0.9, meta)] + rest;
    assert hits[0].distance == 0.9;
    YesPasses();
    GuardPasses(query, DefaultThreshold, hits, "YES", generatorReply);
  }
}
