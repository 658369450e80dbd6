/** The start-up ingestion of the corpus as a planner: given the number of
    vectors already stored and the corpus items, the entries that are added to
    the similarity index, in the order they are added. Computing each
    entry's embedding is the index's business and is not part of the plan. */
module Ingestion {
  import opened TextOps
  import opened Corpus

  /** One `collection.add` call: the key, the document (the question text)
      and the metadata. */
  datatype Entry = Entry(key: string, document: string, meta: Meta)

  /** The entry for the `l` variant of `item`'s question. */
  function EntryFor(item: Item, l: Lang): Entry {
    Entry(item.id + "_" + LangTag(l), item.question.In(l), Meta(item.answer, LangTag(l)))
  }

  /** A question variant is indexed only when it is not blank after stripping. */
  predicate Indexed(item: Item, l: Lang) {
    Strip(item.question.In(l)) != []
  }

  /** Position of a tag in the ingestion order english, hinglish, hindi. */
  function TagRank(tag: string): int {
    if tag == "english" then 0 else if tag == "hinglish" then 1 else if tag == "hindi" then 2 else 3
  }

  /** The entry for one variant, if it is indexed. */
  function VariantEntry(item: Item, l: Lang): seq<Entry> {
    if Indexed(item, l) then [EntryFor(item, l)] else []
  }

  /** Ingestion ranks of the three tags. */
  lemma TagRanks()
    ensures TagRank(LangTag(English)) == 0
    ensures TagRank(LangTag(Hinglish)) == 1
    ensures TagRank(LangTag(Hindi)) == 2
  {
    assert "hinglish" != "english" by { assert |"hinglish"| != |"english"|; }
    assert "hindi" != "english" by { assert |"hindi"| != |"english"|; }
    assert "hindi" != "hinglish" by { assert |"hindi"| != |"hinglish"|; }
  }

  /** Entries strictly ordered by the rank of their language tag. */
  predicate RankSorted(es: seq<Entry>) {
    forall i, j :: 0 <= i < j < |es| ==> TagRank(es[i].meta.language) < TagRank(es[j].meta.language)
  }

  /** The entries of one variant all carry that variant's tag. */
  lemma VariantEntryTag(item: Item, l: Lang)
    ensures |VariantEntry(item, l)| <= 1
    ensures forall e :: e in VariantEntry(item, l) <==> Indexed(item, l) && e == EntryFor(item, l)
    ensures forall i :: 0 <= i < |VariantEntry(item, l)| ==> VariantEntry(item, l)[i].meta.language == LangTag(l)
  {
  }

  /** Putting entries of lower rank in front of sorted entries keeps them sorted. */
  lemma SortedConcat(xs: seq<Entry>, ys: seq<Entry>)
    requires RankSorted(xs) && RankSorted(ys)
    requires forall i, j :: 0 <= i < |xs| && 0 <= j < |ys| ==> TagRank(xs[i].meta.language) < TagRank(ys[j].meta.language)
    ensures RankSorted(xs + ys)
  {
    forall i, j | 0 <= i < j < |xs + ys|
      ensures TagRank((xs + ys)[i].meta.language) < TagRank((xs + ys)[j].meta.language)
    {
      if j < |xs| {
        assert (xs + ys)[i] == xs[i] && (xs + ys)[j] == xs[j];
      } else if i < |xs| {
        assert (xs + ys)[i] == xs[i] && (xs + ys)[j] == ys[j - |xs|];
      } else {
        assert (xs + ys)[i] == ys[i - |xs|] && (xs + ys)[j] == ys[j - |xs|];
      }
    }
  }

  /** The inner loop over the variants of one item, in the order english,
      hinglish, hindi. */
  function ItemEntries(item: Item): (es: seq<Entry>)
    ensures |es| <= 3
    ensures forall e :: e in es <==> exists l :: Indexed(item, l) && e == EntryFor(item, l)
    ensures RankSorted(es)
  {
    var es := VariantEntry(item, English) + VariantEntry(item, Hinglish) + VariantEntry(item, Hindi);
    ItemEntriesMembers(item);
    ItemEntriesSorted(item);
    es
  }

  /** The item's entries are exactly those of its indexed variants. */
  lemma ItemEntriesMembers(item: Item)
    ensures forall e :: e in VariantEntry(item, English) + VariantEntry(item, Hinglish) + VariantEntry(item, Hindi)
                    <==> exists l :: Indexed(item, l) && e == EntryFor(item, l)
  {
    var a := VariantEntry(item, English);
    var b := VariantEntry(item, Hinglish);
    var c := VariantEntry(item, Hindi);
    VariantEntryTag(item, English);
    VariantEntryTag(item, Hinglish);
    VariantEntryTag(item, Hindi);
    forall e ensures e in a + b + c <==> exists l :: Indexed(item, l) && e == EntryFor(item, l) {
      if e in a + b + c {
        if e in a {
          assert Indexed(item, English) && e == EntryFor(item, English);
        } else if e in b {
          assert Indexed(item, Hinglish) && e == EntryFor(item, Hinglish);
        } else {
          assert Indexed(item, Hindi) && e == EntryFor(item, Hindi);
        }
      }
      if exists l :: Indexed(item, l) && e == EntryFor(item, l) {
        var l :| Indexed(item, l) && e == EntryFor(item, l);
        if l == English {
          assert e in a;
        } else if l == Hinglish {
          assert e in b;
        } else {
          assert e in c;
        }
      }
    }
  }

  /** The item's entries follow the order english, hinglish, hindi. */
  lemma ItemEntriesSorted(item: Item)
    ensures RankSorted(VariantEntry(item, English) + VariantEntry(item, Hinglish) + VariantEntry(item, Hindi))
  {
    var a := VariantEntry(item, English);
    var b := VariantEntry(item, Hinglish);
    var c := VariantEntry(item, Hindi);
    VariantEntryTag(item, English);
    VariantEntryTag(item, Hinglish);
    VariantEntryTag(item, Hindi);
    TagRanks();
    SortedConcat(b, c);
    SortedConcat(a, b + c);
    assert a + b + c == a + (b + c);
  }

  /** The outer loop over the corpus items. */
  function CorpusEntries(items: seq<Item>): (es: seq<Entry>)
    ensures |es| <= 3 * |items|
    ensures forall e :: e in es <==> exists k, l :: 0 <= k < |items| && Indexed(items[k], l) && e == EntryFor(items[k], l)
  {
    if |items| == 0 then []
    else
      var first := ItemEntries(items[0]);
      var rest := CorpusEntries(items[1..]);
      CorpusEntriesTail(items, rest);
      first + rest
  }

  /** The entries of the items after the first are those of the variants of
      items 1 and onwards. */
  lemma CorpusEntriesTail(items: seq<Item>, rest: seq<Entry>)
    requires |items| > 0
    requires forall e :: e in rest <==> exists k, l :: 0 <= k < |items| - 1 && Indexed(items[1..][k], l) && e == EntryFor(items[1..][k], l)
    ensures forall e :: e in rest <==> exists k, l :: 1 <= k < |items| && Indexed(items[k], l) && e == EntryFor(items[k], l)
  {
    forall e ensures e in rest <==> exists k, l :: 1 <= k < |items| && Indexed(items[k], l) && e == EntryFor(items[k], l) {
      if e in rest {
        var k, l :| 0 <= k < |items| - 1 && Indexed(items[1..][k], l) && e == EntryFor(items[1..][k], l);
        assert items[1..][k] == items[k + 1];
      }
      if exists k, l :: 1 <= k < |items| && Indexed(items[k], l) && e == EntryFor(items[k], l) {
        var k, l :| 1 <= k < |items| && Indexed(items[k], l) && e == EntryFor(items[k], l);
        assert items[1..][k - 1] == items[k];
      }
    }
  }

  /** The ingestion at start-up: every indexed variant of every item when the
      store is empty, nothing at all otherwise. */
  function Plan(storedCount: nat, items: seq<Item>): (es: seq<Entry>)
    ensures storedCount != 0 ==> es == []
    ensures |es| <= 3 * |items|
    ensures storedCount == 0 ==>
      forall e :: e in es <==> exists k, l :: 0 <= k < |items| && Indexed(items[k], l) && e == EntryFor(items[k], l)
  {
    if storedCount == 0 then CorpusEntries(items) else []
  }

  /** Planning a corpus split in two plans the first part, then the second. */
  lemma {:induction false} PlanConcat(a: seq<Item>, b: seq<Item>)
    ensures Plan(0, a + b) == Plan(0, a) + Plan(0, b)
    decreases |a|
  {
    if |a| > 0 {
      assert (a + b)[0] == a[0];
      assert (a + b)[1..] == a[1..] + b;
      PlanConcat(a[1..], b);
    } else {
      assert a + b == b;
    }
  }

  /** A one-item corpus is planned as that item's entries, so the plan holds
      every item's entries in corpus order, each once. */
  lemma PlanSingle(item: Item)
    ensures Plan(0, [item]) == ItemEntries(item)
  {
    assert [item][1..] == [];
  }

  /** Every planned entry is keyed `{id}_{lang}`, stores a non-blank question
      and carries all three answers of its item under a recognised language
      tag. */
  lemma PlannedEntryShape(storedCount: nat, items: seq<Item>, e: Entry)
    ensures e in Plan(storedCount, items) ==>
            exists k, l :: (0 <= k < |items|
                            && e.key == items[k].id + "_" + LangTag(l)
                            && e.document == items[k].question.In(l)
                            && Strip(e.document) != []
                            && e.meta.answers == items[k].answer
                            && ParseLang(e.meta.language) == Some(l))
  {
    if e in Plan(storedCount, items) {
      var k, l :| 0 <= k < |items| && Indexed(items[k], l) && e == EntryFor(items[k], l);
      ParseLangTag(l);
    }
  }

  /** Entries for different variants differ in their language tag. */
  lemma EntryForLangInjective(a: Item, l: Lang, b: Item, l': Lang)
    requires EntryFor(a, l) == EntryFor(b, l')
    ensures l == l' && a.question.In(l) == b.question.In(l)
  {
    assert LangTag(l) == EntryFor(a, l).meta.language == LangTag(l');
    ParseLangTag(l);
    ParseLangTag(l');
  }

  /** Every non-blank question variant of the corpus is planned when the
      store is empty, and a blank one never is. */
  lemma PlanCoversCorpus(items: seq<Item>, k: int, l: Lang)
    requires 0 <= k < |items|
    ensures EntryFor(items[k], l) in Plan(0, items) <==> Strip(items[k].question.In(l)) != []
  {
    var e := EntryFor(items[k], l);
    var plan := Plan(0, items);
    if e in plan {
      var k', l' :| 0 <= k' < |items| && Indexed(items[k'], l') && e == EntryFor(items[k'], l');
      EntryForLangInjective(items[k], l, items[k'], l');
    }
    if Indexed(items[k], l) {
      assert exists k', l' :: 0 <= k' < |items| && Indexed(items[k'], l') && e == EntryFor(items[k'], l');
    }
  }
}
