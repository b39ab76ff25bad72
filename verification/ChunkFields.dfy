/** What the chunks of a hierarchy carry, field by field, and what the validator asks of each. */
module ChunkFields {
  import opened Wrappers
  import opened Text
  import opened Lexer
  import opened Tokenizer
  import opened Sentences
  import opened Items
  import opened Packing
  import opened Hierarchy
  import opened HierarchyLaws
  import opened Duplicates

  // -------------------------------------------------------------------- children and parents

  /** The chunks that are not parents, in order. */
  function Children(chunks: seq<Chunk>): (r: seq<Chunk>)
  {
    if chunks == [] then [] else (if chunks[0].kind == PARENT then [] else [chunks[0]]) + Children(chunks[1..])
  }

  function Parents(chunks: seq<Chunk>): (r: seq<Chunk>)
  {
    if chunks == [] then [] else (if chunks[0].kind == PARENT then [chunks[0]] else []) + Parents(chunks[1..])
  }

  lemma {:induction false} SplitAppend(a: seq<Chunk>, b: seq<Chunk>)
    ensures Children(a + b) == Children(a) + Children(b) && Parents(a + b) == Parents(a) + Parents(b)
  {
    if a == [] {
      assert a + b == b;
    } else {
      assert (a + b)[1..] == a[1..] + b;
      SplitAppend(a[1..], b);
    }
  }

  lemma {:induction false} NoneAreParents(chunks: seq<Chunk>)
    requires forall c :: c in chunks ==> c.kind != PARENT
    ensures Children(chunks) == chunks && Parents(chunks) == []
  {
    if chunks != [] {
      assert chunks[0] in chunks && forall c :: c in chunks[1..] ==> c in chunks;
      NoneAreParents(chunks[1..]);
    }
  }

  /** Fields that every chunk computes from its text and place. */
  ghost predicate Stamped(c: Chunk, cfg: ChunkingConfig, target: Target)
  {
    c.document == target.document && c.organization == target.organization &&
    c.tokenCount == Count(c.content) && c.charCount == |c.content| &&
    c.id == ChunkId(target.document, c.index, cfg.version, Join([Space(' ')], Words(c.content)))
  }

  /** The chunk shows the item as it is. */
  ghost predicate ShowsItem(c: Chunk, x: RawItem, cfg: ChunkingConfig, target: Target)
  {
    c.content == x.content && c.kind == x.kind && c.origin == x.origin && c.rows == x.rows &&
    Stamped(c, cfg, target)
  }

  /** The parent of a group shows the texts of its items, a blank line between them, cut off at the
      parent limit, and the place of the first. */
  ghost predicate ShowsGroup(c: Chunk, g: seq<RawItem>, cfg: ChunkingConfig, target: Target)
  {
    var text := Join([Space('\n'), Space('\n')], ContentsOf(g));
    g != [] && c.kind == PARENT && c.parent.None? && c.rows.None? && c.origin == g[0].origin &&
    c.content == (if Count(text) <= cfg.maxParentTokens then text else Truncate(text, cfg.maxParentTokens)) &&
    Stamped(c, cfg, target)
  }

  lemma {:induction false} FamilyFields(cfg: ChunkingConfig, target: Target, group: seq<RawItem>, index: nat)
    requires group != [] && NoParents(group)
    ensures var family := Family(cfg, target, group, index);
      |Children(family)| == |group| && |Parents(family)| == 1 && ShowsGroup(Parents(family)[0], group, cfg, target) &&
      forall k :: 0 <= k < |group| ==>
        ShowsItem(Children(family)[k], group[k], cfg, target) &&
        Children(family)[k].parent == Some(Parents(family)[0].id)
  {
    hide ContentHash, Count, ParentText, Words, Join, ChildChunks;
    var parent := ParentChunk(cfg, target, group, index);
    var children := ChildChunks(cfg, target, group, parent.id, index + 1);
    NormalisedIsWords(parent.content);
    ParentShows(cfg, target, group, index);
    forall k | 0 <= k < |group|
      ensures ShowsItem(children[k], group[k], cfg, target) && children[k].parent == Some(parent.id)
    {
      NormalisedIsWords(group[k].content);
    }
    NoneAreParents(children);
    SplitAppend([parent], children);
    assert [parent][1..] == [];
  }

  lemma {:induction false} ParentShows(cfg: ChunkingConfig, target: Target, group: seq<RawItem>, index: nat)
    requires group != []
    ensures ShowsGroup(ParentChunk(cfg, target, group, index), group, cfg, target)
  {
    hide ContentHash, Count, Words, Join, Truncate;
    NormalisedIsWords(ParentText(cfg, group));
  }

  /** The section an item is filed under: its own, or its top heading, or a default. */
  function SectionOf(x: RawItem): (s: Str)
  {
    match x.origin.section
    case Some(s) =>
      if s != [] then s else TopHeading(x)
    case None => TopHeading(x)
  }

  function TopHeading(x: RawItem): (s: Str)
  {
    if x.origin.headingPath == []
    then [Letter('D'), Letter('e'), Letter('f'), Letter('a'), Letter('u'), Letter('l'), Letter('t')]
    else x.origin.headingPath[0]
  }

  /** Neighbours with the same section share their parent, others do not. */
  ghost predicate FamiliesAreSections(children: seq<Chunk>, items: seq<RawItem>)
    requires |children| == |items|
  {
    forall k :: 1 <= k < |items| ==>
      (children[k - 1].parent == children[k].parent <==> SectionOf(items[k - 1]) == SectionOf(items[k]))
  }

  ghost predicate AllShow(children: seq<Chunk>, items: seq<RawItem>, cfg: ChunkingConfig, target: Target)
  {
    |children| == |items| && forall k :: 0 <= k < |items| ==> ShowsItem(children[k], items[k], cfg, target)
  }

  ghost predicate AllHead(parents: seq<Chunk>, groups: seq<seq<RawItem>>, cfg: ChunkingConfig, target: Target)
  {
    |parents| == |groups| && forall g :: 0 <= g < |groups| ==> ShowsGroup(parents[g], groups[g], cfg, target)
  }

  lemma {:induction false} GroupFields(
      cfg: ChunkingConfig, target: Target, groups: seq<seq<RawItem>>, index: nat)
    requires AllNonEmpty(groups) && forall i :: 0 <= i < |groups| ==> NoParents(groups[i])
    ensures var chunks := GroupChunks(cfg, target, groups, index);
      AllShow(Children(chunks), Flatten(groups), cfg, target) && AllHead(Parents(chunks), groups, cfg, target)
    decreases |groups|
  {
    hide Family, ShowsItem, ShowsGroup, NoParents, AllShow, AllHead;
    NothingShown(cfg, target);
    if groups != [] {
      var g, later := groups[0], index + 1 + |groups[0]|;
      var family, rest := Family(cfg, target, g, index), GroupChunks(cfg, target, groups[1..], later);
      FamilyShows(cfg, target, g, index);
      GroupFields(cfg, target, groups[1..], later);
      SplitAppend(family, rest);
      ShowAppend(Children(family), g, Children(rest), Flatten(groups[1..]), cfg, target);
      HeadAppend(Parents(family), [g], Parents(rest), groups[1..], cfg, target);
      assert groups == [g] + groups[1..];
    }
  }

  lemma {:induction false} NothingShown(cfg: ChunkingConfig, target: Target)
    ensures AllShow([], [], cfg, target) && AllHead([], [], cfg, target)
  {
  }

  lemma {:induction false} FamilyShows(cfg: ChunkingConfig, target: Target, group: seq<RawItem>, index: nat)
    requires group != [] && NoParents(group)
    ensures AllShow(Children(Family(cfg, target, group, index)), group, cfg, target)
    ensures AllHead(Parents(Family(cfg, target, group, index)), [group], cfg, target)
  {
    hide Family, ShowsItem, ShowsGroup, NoParents;
    FamilyFields(cfg, target, group, index);
  }

  lemma {:induction false} ShowAppend(
      c: seq<Chunk>, x: seq<RawItem>, d: seq<Chunk>, y: seq<RawItem>, cfg: ChunkingConfig, target: Target)
    requires AllShow(c, x, cfg, target) && AllShow(d, y, cfg, target)
    ensures AllShow(c + d, x + y, cfg, target)
  {
    hide ShowsItem;
  }

  lemma {:induction false} HeadAppend(
      c: seq<Chunk>, g: seq<seq<RawItem>>, d: seq<Chunk>, h: seq<seq<RawItem>>, cfg: ChunkingConfig, target: Target)
    requires AllHead(c, g, cfg, target) && AllHead(d, h, cfg, target)
    ensures AllHead(c + d, g + h, cfg, target)
  {
    hide ShowsGroup;
  }

  /** The chunks that are not parents show exactly the items, in order: text, kind, place, row range,
      owners, counts and identity.  The parents show exactly the groups. */
  lemma {:induction false} ChunksShowItems(cfg: ChunkingConfig, target: Target, items: seq<RawItem>)
    requires forall x :: x in items ==> x.kind != PARENT
    ensures AllShow(Children(HierarchyOf(cfg, target, items)), items, cfg, target)
    ensures AllHead(Parents(HierarchyOf(cfg, target, items)), Groups(items), cfg, target)
  {
    hide Groups, GroupChunks, AllShow, AllHead;
    GroupsAreMaximalRuns(items);
    GroupsNonEmpty(items);
    FlattenNoParents(Groups(items));
    GroupFields(cfg, target, Groups(items), 0);
  }

  lemma {:induction false} SectionIsKey(x: RawItem)
    ensures SectionKey(x) == SectionOf(x)
  {
  }

  // --------------------------------------------------------------- parents shared by section

  /** In a family all children have the parent's identifier, and it carries the family's index. */
  lemma {:induction false} FamilyParents(cfg: ChunkingConfig, target: Target, group: seq<RawItem>, index: nat)
    requires group != [] && NoParents(group)
    ensures var children := Children(Family(cfg, target, group, index));
      |children| == |group| && forall k :: 0 <= k < |children| ==>
        children[k].parent.Some? && children[k].parent.value.index == index
  {
    hide ContentHash, Count, ParentText, ChildChunks;
    var parent := ParentChunk(cfg, target, group, index);
    var children := ChildChunks(cfg, target, group, parent.id, index + 1);
    NoneAreParents(children);
    SplitAppend([parent], children);
    assert [parent][1..] == [];
  }

  /** Each child's parent index, family by family. */
  function ParentIndices(groups: seq<seq<RawItem>>, index: nat): (r: seq<nat>)
    ensures |r| == |Flatten(groups)|
  {
    if groups == [] then []
    else seq(|groups[0]|, _ => index) + ParentIndices(groups[1..], index + 1 + |groups[0]|)
  }

  lemma {:induction false} IndicesOfChildren(
      cfg: ChunkingConfig, target: Target, groups: seq<seq<RawItem>>, index: nat)
    requires AllNonEmpty(groups) && forall i :: 0 <= i < |groups| ==> NoParents(groups[i])
    ensures var children := Children(GroupChunks(cfg, target, groups, index));
      |children| == |Flatten(groups)| && forall k :: 0 <= k < |children| ==>
        children[k].parent.Some? && children[k].parent.value.index == ParentIndices(groups, index)[k]
    decreases |groups|
  {
    hide Family, NoParents;
    if groups != [] {
      var g, later := groups[0], index + 1 + |groups[0]|;
      FamilyParents(cfg, target, g, index);
      IndicesOfChildren(cfg, target, groups[1..], later);
      SplitAppend(Family(cfg, target, g, index), GroupChunks(cfg, target, groups[1..], later));
    }
  }

  lemma {:induction false} IndicesGrow(groups: seq<seq<RawItem>>, index: nat)
    requires AllNonEmpty(groups)
    ensures forall k :: 0 <= k < |ParentIndices(groups, index)| ==> index <= ParentIndices(groups, index)[k]
  {
    if groups != [] {
      IndicesGrow(groups[1..], index + 1 + |groups[0]|);
    }
  }

  /** Groups that differ from their neighbours in section. */
  ghost predicate Apart(groups: seq<seq<RawItem>>)
  {
    (forall g :: 0 <= g < |groups| ==> groups[g] != [] && SameSection(groups[g])) &&
    forall g :: 1 <= g < |groups| ==> SectionKey(groups[g - 1][0]) != SectionKey(groups[g][0])
  }

  lemma {:induction false} ApartRest(groups: seq<seq<RawItem>>)
    requires groups != [] && Apart(groups)
    ensures Apart(groups[1..])
  {
    hide SameSection, SectionKey;
    var rest := groups[1..];
    assert forall g :: 0 <= g < |rest| ==> rest[g] == groups[g + 1];
  }

  lemma {:induction false} IndicesAreSections(groups: seq<seq<RawItem>>, index: nat, k: nat)
    requires AllNonEmpty(groups) && Apart(groups) && 1 <= k < |Flatten(groups)|
    ensures var items, at := Flatten(groups), ParentIndices(groups, index);
      at[k - 1] == at[k] <==> SectionKey(items[k - 1]) == SectionKey(items[k])
    decreases |groups|
  {
    hide SectionKey;
    var g, rest := groups[0], groups[1..];
    var later := index + 1 + |g|;
    ApartRest(groups);
    IndicesGrow(rest, later);
    assert SameSection(g);
    if k > |g| {
      IndicesAreSections(rest, later, k - |g|);
      assert Flatten(groups)[k] == Flatten(rest)[k - |g|] && Flatten(groups)[k - 1] == Flatten(rest)[k - |g| - 1];
    } else if k == |g| {
      assert rest != [] && rest[0] == groups[1];
      assert Flatten(rest)[0] == rest[0][0];
      assert SectionKey(g[k - 1]) == SectionKey(g[0]);
    } else {
      assert SectionKey(g[k - 1]) == SectionKey(g[0]) && SectionKey(g[k]) == SectionKey(g[0]);
    }
  }

  /** Two neighbouring items get the same parent if and only if they are filed under the same
      section. */
  lemma {:induction false} ParentsAreSections(cfg: ChunkingConfig, target: Target, items: seq<RawItem>)
    requires forall x :: x in items ==> x.kind != PARENT
    ensures var children := Children(HierarchyOf(cfg, target, items));
      |children| == |items| && FamiliesAreSections(children, items)
  {
    hide Groups, GroupChunks, SectionKey, SectionOf;
    var groups := Groups(items);
    var chunks := HierarchyOf(cfg, target, items);
    var children := Children(chunks);
    GroupsAreMaximalRuns(items);
    GroupsNonEmpty(items);
    FlattenNoParents(groups);
    IndicesOfChildren(cfg, target, groups, 0);
    forall k | 1 <= k < |items|
      ensures children[k - 1].parent == children[k].parent <==> SectionOf(items[k - 1]) == SectionOf(items[k])
    {
      SectionIsKey(items[k - 1]);
      SectionIsKey(items[k]);
      IndicesAreSections(groups, 0, k);
      var a, b := children[k - 1], children[k];
      assert a in children && b in children;
      if a.parent.value.index == b.parent.value.index {
        SameIndexSameParent(cfg, target, items, a, b);
      }
    }
  }

  lemma {:induction false} ChildrenAreChunks(chunks: seq<Chunk>, c: Chunk)
    requires c in Children(chunks)
    ensures c in chunks && c.kind != PARENT
  {
    if c !in Children(chunks[1..]) {
      assert c == chunks[0];
    } else {
      ChildrenAreChunks(chunks[1..], c);
    }
  }

  /** A child's reference is the identifier of a chunk of the batch that carries its index. */
  lemma {:induction false} ReferenceFound(
      cfg: ChunkingConfig, target: Target, items: seq<RawItem>, a: Chunk) returns (p: nat)
    requires forall x :: x in items ==> x.kind != PARENT
    requires a in Children(HierarchyOf(cfg, target, items)) && a.parent.Some?
    ensures var chunks := HierarchyOf(cfg, target, items);
      p < |chunks| && chunks[p].id == a.parent.value && chunks[p].index == a.parent.value.index
  {
    hide Groups, GroupChunks, Count;
    var chunks := HierarchyOf(cfg, target, items);
    HierarchyShape(cfg, target, items);
    assert chunks[0..] == chunks;
    LinkedResolves(chunks, 0, None);
    ChildrenAreChunks(chunks, a);
    var i :| 0 <= i < |chunks| && chunks[i] == a;
    p :| 0 <= p < i && chunks[p].id == a.parent.value && chunks[p].kind == PARENT;
  }

  /** References with the same index are the same. */
  lemma {:induction false} SameIndexSameParent(
      cfg: ChunkingConfig, target: Target, items: seq<RawItem>, a: Chunk, b: Chunk)
    requires forall x :: x in items ==> x.kind != PARENT
    requires a in Children(HierarchyOf(cfg, target, items)) && a.parent.Some?
    requires b in Children(HierarchyOf(cfg, target, items)) && b.parent.Some?
    requires a.parent.value.index == b.parent.value.index
    ensures a.parent == b.parent
  {
    hide HierarchyOf, Count, Linked;
    var p := ReferenceFound(cfg, target, items, a);
    var q := ReferenceFound(cfg, target, items, b);
    HierarchyShape(cfg, target, items);
  }

  /** Identifiers agree exactly if document, position, settings version and words do. */
  lemma {:induction false} IdentityExactly(
      c: Chunk, d: Chunk, cfg: ChunkingConfig, other: ChunkingConfig, s: Target, t: Target)
    requires Stamped(c, cfg, s) && Stamped(d, other, t)
    ensures c.id == d.id <==>
      c.document == d.document && c.index == d.index && cfg.version == other.version &&
      Words(c.content) == Words(d.content)
  {
    hide Words, Count, Join;
    WordsAreWords(c.content);
    WordsAreWords(d.content);
    WordsOfJoin(Words(c.content));
    WordsOfJoin(Words(d.content));
  }

  // --------------------------------------------------------------------------- validation

  /** What the validator asks of a batch: positions and identifiers are unique; every chunk has text, its
      own length, the expected owners, and at most its limit and 50 tokens; and a reference to a
      parent names another chunk of the batch that is a parent. */
  lemma {:induction false} AcceptableExactly(
      cfg: ChunkingConfig, chunks: seq<Chunk>, document: int, organization: int)
    ensures Acceptable(cfg, chunks, Some(document), Some(organization)) <==>
      (forall i, j :: 0 <= i < j < |chunks| ==> chunks[i].id != chunks[j].id && chunks[i].index != chunks[j].index) &&
      forall c :: c in chunks ==>
        (exists k :: 0 <= k < |c.content| && !IsSpace(c.content[k])) && c.charCount == |c.content| &&
        c.document == document && c.organization == organization &&
        c.tokenCount <= (if c.kind == PARENT then cfg.maxParentTokens + 50 else cfg.maxTokens + 50) &&
        (c.parent.Some? ==> exists p :: p in chunks && p.id == c.parent.value && p.kind == PARENT && p.id != c.id)
  {
    hide IsSpace;
    forall c | c in chunks
      ensures Sound(cfg, c, chunks, Some(document), Some(organization)) <==>
        (exists k :: 0 <= k < |c.content| && !IsSpace(c.content[k])) && c.charCount == |c.content| &&
        c.document == document && c.organization == organization &&
        c.tokenCount <= (if c.kind == PARENT then cfg.maxParentTokens + 50 else cfg.maxTokens + 50) &&
        (c.parent.Some? ==> exists p :: p in chunks && p.id == c.parent.value && p.kind == PARENT && p.id != c.id)
    {
      ResolvesExactly(c, chunks);
    }
    assert forall c :: c in chunks ==> exists i :: 0 <= i < |chunks| && chunks[i] == c;
  }

  lemma {:induction false} ResolvesExactly(c: Chunk, chunks: seq<Chunk>)
    ensures ParentResolves(c, chunks) <==>
      (c.parent.Some? ==> exists p :: p in chunks && p.id == c.parent.value && p.kind == PARENT && p.id != c.id)
  {
    if c.parent.Some? && exists p :: p in chunks && p.id == c.parent.value && p.kind == PARENT && p.id != c.id {
      var p :| p in chunks && p.id == c.parent.value && p.kind == PARENT && p.id != c.id;
      var j :| 0 <= j < |chunks| && chunks[j] == p;
      assert chunks[j].id == c.parent.value && chunks[j].kind == PARENT;
    }
  }
}
