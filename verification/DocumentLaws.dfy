/** When chunking a document trips its own validator, exactly. */
module DocumentLaws {
  import opened Wrappers
  import opened Text
  import opened Lexer
  import opened Underscores
  import opened Items
  import opened Hierarchy
  import opened HierarchyLaws
  import opened Pipeline
  import opened PipelineLaws
  import opened BlockLaws
  import opened Conservation
  import BlockLimits
  import opened DocumentParts
  import opened ExtractedItems

  // ----------------------------------------------------------- merging and deduplication

  lemma {:induction false} CompositeExact(a: RawItem, b: RawItem)
    requires SolidItem(a) && SolidItem(b)
    ensures SolidItem(Composite(a, b))
    ensures FusesNothing(a.content) && FusesNothing(b.content) ==> FusesNothing(Composite(a, b).content)
  {
    hide Strip, FusesNothing;
    var text := MergedContent(a, b);
    FusesAround(a.content, PARENT_SEP, b.content);
    FusesStrip(text);
    var i :| 0 <= i < |a.content| && !IsSpace(a.content[i]);
    assert !IsSpace(text[i]);
    StrippedNotBlank(text);
  }

  lemma {:induction false} MergedSolid(cfg: ChunkingConfig, items: seq<RawItem>)
    requires SolidItems(items)
    ensures SolidItems(Merged(cfg, items))
    ensures PlainItems(items) ==> PlainItems(Merged(cfg, items))
  {
    hide SolidItem, Count, Merged, Composite, FusesNothing;
    var merged := Merged(cfg, items);
    forall k | 0 <= k < |merged|
      ensures SolidItem(merged[k]) && (PlainItems(items) ==> FusesNothing(merged[k].content))
    {
      MergedOrigins(cfg, items, merged[k]);
      if merged[k] !in items {
        var j :| 1 <= j < |items| && JoinsNeighbours(cfg, merged[k], items, j);
        CompositeExact(items[j - 1], items[j]);
      }
    }
  }

  /** Merging neither hides an oversized item nor makes one. */
  lemma {:induction false} MergedSized(cfg: ChunkingConfig, items: seq<RawItem>)
    requires Roomy(cfg)
    ensures Sized(cfg, Merged(cfg, items)) <==> Sized(cfg, items)
  {
    hide Count, Merged, Composite;
    var merged := Merged(cfg, items);
    forall m: RawItem | m in merged && Sized(cfg, items) ensures Count(m.content) <= ChildLimit(cfg) {
      MergedOrigins(cfg, items, m);
    }
    forall x: RawItem | x in items && Sized(cfg, merged) ensures Count(x.content) <= ChildLimit(cfg) {
      if Count(x.content) > cfg.targetTokens {
        LargeSurvives(cfg, items, x);
      }
    }
  }

  lemma {:induction false} FirstsSolid(items: seq<RawItem>)
    requires SolidItems(items)
    ensures SolidItems(Firsts(items, {}))
    ensures PlainItems(items) ==> PlainItems(Firsts(items, {}))
  {
    hide SolidItem, Firsts, KeyOf, FusesNothing;
    FirstsDistinct(items, {});
  }

  /** Deduplication does not hide an oversized item either: what stays in its place counts the
      same. */
  lemma {:induction false} FirstsSized(cfg: ChunkingConfig, items: seq<RawItem>)
    ensures Sized(cfg, Firsts(items, {})) <==> Sized(cfg, items)
  {
    hide Count, Firsts, KeyOf;
    FirstsDistinct(items, {});
    forall x: RawItem | x in items && Sized(cfg, Firsts(items, {})) ensures Count(x.content) <= ChildLimit(cfg) {
      KeySurvives(items, {}, x);
      var y :| y in Firsts(items, {}) && KeyOf(y) == KeyOf(x);
      SameKeySameCount(x, y);
    }
  }

  // ------------------------------------------------------------------------ main results

  /** The items that reach the hierarchy: extracted, merged and without duplicates. */
  function KeptItems(cfg: ChunkingConfig, doc: Document): (r: seq<RawItem>)
    requires cfg.maxChars > 0
  {
    Firsts(Merged(cfg, RawItems(cfg, doc)), {})
  }

  lemma {:induction false} KeptItemsExact(cfg: ChunkingConfig, doc: Document)
    requires Roomy(cfg)
    ensures SolidItems(KeptItems(cfg, doc))
    ensures Sized(cfg, KeptItems(cfg, doc)) <==> DocumentFits(cfg, doc)
    ensures Sized(cfg, KeptItems(cfg, doc)) <==> Sized(cfg, RawItems(cfg, doc))
    ensures PlainDocument(cfg, doc) ==> PlainItems(KeptItems(cfg, doc))
  {
    hide RawItems, Merged, Firsts, SolidItems, PlainItems, Sized, DocumentFits, PlainDocument;
    var items := RawItems(cfg, doc);
    RawItemsExact(cfg, doc);
    MergedSolid(cfg, items);
    MergedSized(cfg, items);
    FirstsSolid(Merged(cfg, items));
    FirstsSized(cfg, Merged(cfg, items));
  }

  /** Merging and deduplication decide nothing about sizes: a document is accepted if and only if
      every extracted item and every parent text is within its limit. */
  lemma {:induction false} AcceptedIffExtractedSized(cfg: ChunkingConfig, doc: Document, organization: int)
    requires Roomy(cfg)
    ensures
      Acceptable(cfg, DocumentChunks(cfg, doc, organization), Some(doc.id), Some(organization)) <==>
      Sized(cfg, RawItems(cfg, doc)) && ParentsFit(cfg, KeptItems(cfg, doc))
  {
    hide RawItems, Merged, Firsts, SolidItems, Acceptable, HierarchyOf, DocumentFits, ParentsFit, Count;
    KeptItemsExact(cfg, doc);
    AcceptedExactly(cfg, Target(doc.id, organization), KeptItems(cfg, doc));
  }

  /** The validator's verdict on any document, exactly: it is accepted if and only if every part
      that is used fits, and no truncated parent overruns its limit. */
  lemma {:induction false} DocumentAcceptedExactly(cfg: ChunkingConfig, doc: Document, organization: int)
    requires Roomy(cfg)
    ensures
      Acceptable(cfg, DocumentChunks(cfg, doc, organization), Some(doc.id), Some(organization)) <==>
      DocumentFits(cfg, doc) && ParentsFit(cfg, KeptItems(cfg, doc))
  {
    hide RawItems, KeptItems, DocumentFits, SolidItems, Acceptable, DocumentChunks, Sized, ParentsFit, PlainItems;
    KeptItemsExact(cfg, doc);
    AcceptedIffExtractedSized(cfg, doc, organization);
  }

  // -------------------------------------------------------------------- in simpler terms

  /** No window of an oversized sentence of the running text fuses tokens. */
  ghost predicate TextFusesNothing(cfg: ChunkingConfig, doc: Document)
    requires cfg.maxChars > 0
  {
    forall b: Block :: b in UsedBlocks(doc) && RunningText(b) ==> WindowsFuseNothing(cfg, TextSentences(b.text))
  }

  /** The same as fitting, with running text judged by its words instead of its windows. */
  ghost predicate BlockFitsByWords(cfg: ChunkingConfig, block: Block)
    requires cfg.maxChars > 0
  {
    if RunningText(block) then CheapTokens(block.text, ChildLimit(cfg)) else BlockFits(cfg, block)
  }

  ghost predicate DocumentFitsByWords(cfg: ChunkingConfig, doc: Document)
    requires cfg.maxChars > 0
  {
    (forall b :: b in UsedBlocks(doc) ==> BlockFitsByWords(cfg, b)) &&
    TablesFit(cfg, UsedTables(doc)) && TitleFits(cfg, doc)
  }

  lemma {:induction false} WordsDecideFit(cfg: ChunkingConfig, doc: Document)
    requires Roomy(cfg) && TextFusesNothing(cfg, doc)
    ensures DocumentFits(cfg, doc) <==> DocumentFitsByWords(cfg, doc)
  {
    hide UsedBlocks, UsedTables, TablesFit, TitleFits, TextSentences, WindowsFuseNothing, CheapTokens,
         BlockLimits.HugeWithin, Count;
    forall b: Block | b in UsedBlocks(doc) ensures BlockFits(cfg, b) <==> BlockFitsByWords(cfg, b) {
      if RunningText(b) {
        BlockLimits.WordsDecide(cfg, b.text, ChildLimit(cfg));
      }
    }
  }

  /** Where neither a window nor a truncated parent fuses tokens, the document's own words decide:
      it is accepted if and only if every heading, list line, table row and single word of the
      running text that is used fits. */
  lemma {:induction false} WordsDecideAcceptance(cfg: ChunkingConfig, doc: Document, organization: int)
    requires Roomy(cfg) && TextFusesNothing(cfg, doc) && ParentsFuseNothing(cfg, KeptItems(cfg, doc))
    ensures
      Acceptable(cfg, DocumentChunks(cfg, doc, organization), Some(doc.id), Some(organization)) <==>
      DocumentFitsByWords(cfg, doc)
  {
    hide KeptItems, DocumentFits, DocumentFitsByWords, Acceptable, DocumentChunks, ParentsFit, ParentsFuseNothing,
         TextFusesNothing;
    DocumentAcceptedExactly(cfg, doc, organization);
    WordsDecideFit(cfg, doc);
    ParentsFitThen(cfg, KeptItems(cfg, doc));
  }

  /** Both conditions hold of every document in whose used texts nothing fuses, such as a document
      without underscores. */
  lemma {:induction false} PlainDocumentFusesNothing(cfg: ChunkingConfig, doc: Document)
    requires Roomy(cfg) && PlainDocument(cfg, doc)
    ensures TextFusesNothing(cfg, doc) && ParentsFuseNothing(cfg, KeptItems(cfg, doc))
  {
    hide KeptItems, FusesNothing, WindowsFuseNothing, TextSentences, UsedBlocks, SolidItem, Sized, DocumentFits,
         ParentFusesNothing, Groups, RawItems, NothingExtracted, CleanTables;
    forall b: Block | b in UsedBlocks(doc) && RunningText(b)
      ensures WindowsFuseNothing(cfg, TextSentences(b.text))
    {
      PlainTextFusesNothing(cfg, b.text);
    }
    var items := KeptItems(cfg, doc);
    KeptItemsExact(cfg, doc);
    forall g: seq<RawItem> | g in Groups(items) ensures ParentFusesNothing(cfg, g) {
      GroupOf(items, g);
      forall i | 0 <= i < |g| ensures FusesNothing(g[i].content) {
        assert g[i] in items;
      }
      PlainGroupFusesNothing(cfg, g);
    }
  }

  lemma {:induction false} PlainDocumentAccepted(cfg: ChunkingConfig, doc: Document, organization: int)
    requires Roomy(cfg) && PlainDocument(cfg, doc)
    ensures
      Acceptable(cfg, DocumentChunks(cfg, doc, organization), Some(doc.id), Some(organization)) <==>
      DocumentFitsByWords(cfg, doc)
  {
    hide KeptItems, DocumentFitsByWords, Acceptable, DocumentChunks, ParentsFuseNothing, TextFusesNothing,
         PlainDocument;
    PlainDocumentFusesNothing(cfg, doc);
    WordsDecideAcceptance(cfg, doc, organization);
  }
}
