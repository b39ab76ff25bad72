/** Parent and child chunks, their identities, and the validator they must pass. */
module Hierarchy {
  import opened Wrappers
  import opened Text
  import opened Lexer
  import opened Tokenizer
  import opened Items
  import opened Packing

  // -------------------------------------------------------------------------- identity

  /** Whitespace runs become one space, then the ends are stripped. */
  function Collapse(s: Str): (r: Str)
    decreases |s|
  {
    if s == [] then []
    else if IsSpace(s[0]) then [BLANK] + Collapse(LStrip(s[1..]))
    else [s[0]] + Collapse(s[1..])
  }

  /** The content hash, as the normalised text it is computed from: equal hashes are equal
      normalised texts. */
  function ContentHash(text: Str): (r: Str) { Strip(Collapse(text)) }

  /** A chunk identifier, as the fields its name-based UUID is computed from: equal
      identifiers have equal fields. */
  datatype ChunkId = ChunkId(document: int, index: nat, version: string, contentHash: Str)

  datatype Chunk = Chunk(
    id: ChunkId,
    document: int,
    organization: int,
    parent: Option<ChunkId>,
    index: nat,
    kind: ChunkType,
    content: Str,
    origin: Origin,
    rows: Option<(nat, nat)>,
    tokenCount: nat,
    charCount: nat)

  datatype Target = Target(document: int, organization: int)

  function MakeChunk(
      cfg: ChunkingConfig, target: Target, index: nat, parent: Option<ChunkId>, kind: ChunkType,
      content: Str, origin: Origin, rows: Option<(nat, nat)>): (c: Chunk)
  {
    Chunk(ChunkId(target.document, index, cfg.version, ContentHash(content)),
          target.document, target.organization, parent, index, kind, content, origin, rows,
          Count(content), |content|)
  }

  // -------------------------------------------------------------------------- grouping

  const DEFAULT_SECTION: Str :=
    [Letter('D'), Letter('e'), Letter('f'), Letter('a'), Letter('u'), Letter('l'), Letter('t')]

  /** The item's section, or its top heading, or a default. */
  function SectionKey(item: RawItem): (k: Str)
  {
    if item.origin.section.Some? && item.origin.section.value != [] then item.origin.section.value
    else if item.origin.headingPath != [] then item.origin.headingPath[0]
    else DEFAULT_SECTION
  }

  predicate SameSection(items: seq<RawItem>)
  {
    forall i :: 0 <= i < |items| ==> SectionKey(items[i]) == SectionKey(items[0])
  }

  function Groups(items: seq<RawItem>): (r: seq<seq<RawItem>>)
  {
    Greedy([], items, SameSection)
  }

  method GroupItems(items: seq<RawItem>) returns (grouped: seq<seq<RawItem>>)
    ensures grouped == Groups(items)
  {
    hide SectionKey, Greedy;
    grouped := [];
    var current: seq<RawItem> := [];
    var section: Str := [];
    assert items[0..] == items;
    for i := 0 to |items|
      invariant SameSection(current)
      invariant current != [] ==> section == SectionKey(current[0])
      invariant grouped + Greedy(current, items[i..], SameSection) == Groups(items)
    {
      var key := SectionKey(items[i]);
      GreedyStep(current, items, i, SameSection);
      SameSectionSnoc(current, items[i]);
      if current != [] && key != section {
        grouped := grouped + [current];
        current := [items[i]];
        section := key;
      } else {
        current := current + [items[i]];
        section := key;
      }
    }
    assert items[|items|..] == [];
    GreedyEnd(current, SameSection);
    if current != [] {
      grouped := grouped + [current];
    }
  }

  lemma SameSectionSnoc(items: seq<RawItem>, x: RawItem)
    requires SameSection(items)
    ensures SameSection(items + [x]) <==> items == [] || SectionKey(x) == SectionKey(items[0])
    ensures SameSection([x])
  {
    hide SectionKey;
    var all := items + [x];
    assert all[|items|] == x;
    if items != [] {
      assert all[0] == items[0];
    }
  }

  /** The groups are exactly the maximal runs of equal section: they concatenate to the items,
      each is non-empty and of one section, and neighbouring groups differ in section. */
  lemma GroupsAreMaximalRuns(items: seq<RawItem>)
    ensures Flatten(Groups(items)) == items
    ensures forall i :: 0 <= i < |Groups(items)| ==>
              Groups(items)[i] != [] && SameSection(Groups(items)[i])
    ensures forall j :: 1 <= j < |Groups(items)| ==>
              SectionKey(Groups(items)[j - 1][0]) != SectionKey(Groups(items)[j][0])
  {
    hide SectionKey, Greedy;
    var groups := Groups(items);
    GreedyIsPartition([], items, SameSection);
    GreedyIsMaximal([], items, SameSection);
    assert [] + items == items;
    forall i | 0 <= i < |groups| ensures groups[i] != [] && SameSection(groups[i]) {
      assert Admissible(groups[i], SameSection);
    }
    forall j | 1 <= j < |groups|
      ensures SectionKey(groups[j - 1][0]) != SectionKey(groups[j][0])
    {
      assert ClosedBefore(groups[j - 1], groups[j], SameSection);
      SameSectionSnoc(groups[j - 1], groups[j][0]);
    }
  }

  // -------------------------------------------------------------------------- building

  function ContentsOf(items: seq<RawItem>): (r: seq<Str>)
    ensures |r| == |items|
    ensures forall i :: 0 <= i < |r| ==> r[i] == items[i].content
  {
    if items == [] then [] else [items[0].content] + ContentsOf(items[1..])
  }

  const PARENT_SEP: Str := [NEWLINE, NEWLINE]

  /** The parent's text: the group's contents, truncated when they exceed the parent limit. */
  function ParentText(cfg: ChunkingConfig, group: seq<RawItem>): (r: Str)
  {
    var text := Join(PARENT_SEP, ContentsOf(group));
    if Count(text) > cfg.maxParentTokens then Truncate(text, cfg.maxParentTokens) else text
  }

  function ParentChunk(cfg: ChunkingConfig, target: Target, group: seq<RawItem>, index: nat): (c: Chunk)
    requires group != []
  {
    MakeChunk(cfg, target, index, None, PARENT, ParentText(cfg, group), group[0].origin, None)
  }

  function ChildChunk(cfg: ChunkingConfig, target: Target, item: RawItem, parent: ChunkId, index: nat)
    : (c: Chunk)
  {
    MakeChunk(cfg, target, index, Some(parent), item.kind, item.content, item.origin, item.rows)
  }

  function ChildChunks(
      cfg: ChunkingConfig, target: Target, items: seq<RawItem>, parent: ChunkId, index: nat)
    : (r: seq<Chunk>)
    ensures |r| == |items|
    ensures forall i :: 0 <= i < |r| ==> r[i] == ChildChunk(cfg, target, items[i], parent, index + i)
  {
    if items == [] then []
    else [ChildChunk(cfg, target, items[0], parent, index)] +
         ChildChunks(cfg, target, items[1..], parent, index + 1)
  }

  /** A group's chunks: its parent, then its children. */
  function Family(cfg: ChunkingConfig, target: Target, group: seq<RawItem>, index: nat): (r: seq<Chunk>)
    requires group != []
    ensures |r| == 1 + |group|
  {
    var parent := ParentChunk(cfg, target, group, index);
    [parent] + ChildChunks(cfg, target, group, parent.id, index + 1)
  }

  ghost predicate AllNonEmpty(groups: seq<seq<RawItem>>)
  {
    forall i :: 0 <= i < |groups| ==> groups[i] != []
  }

  /** The chunks of the groups, one family after the other. */
  function GroupChunks(cfg: ChunkingConfig, target: Target, groups: seq<seq<RawItem>>, index: nat)
    : (r: seq<Chunk>)
    requires AllNonEmpty(groups)
  {
    if groups == [] then []
    else
      Family(cfg, target, groups[0], index) +
      GroupChunks(cfg, target, groups[1..], index + 1 + |groups[0]|)
  }

  /** One step of building, seen from inside a loop over the groups. */
  lemma GroupChunksStep(
      cfg: ChunkingConfig, target: Target, groups: seq<seq<RawItem>>, g: nat, index: nat)
    requires g < |groups| && AllNonEmpty(groups[g..])
    ensures groups[g] != [] && AllNonEmpty(groups[g + 1..])
    ensures GroupChunks(cfg, target, groups[g..], index) ==
      Family(cfg, target, groups[g], index) +
      GroupChunks(cfg, target, groups[g + 1..], index + 1 + |groups[g]|)
  {
    hide Family;
    assert groups[g..][0] == groups[g] && groups[g..][1..] == groups[g + 1..];
  }

  lemma GroupsNonEmpty(items: seq<RawItem>)
    ensures AllNonEmpty(Groups(items))
  {
    GroupsAreMaximalRuns(items);
  }

  function HierarchyOf(cfg: ChunkingConfig, target: Target, items: seq<RawItem>): (r: seq<Chunk>)
  {
    GroupsNonEmpty(items);
    GroupChunks(cfg, target, Groups(items), 0)
  }

  method BuildHierarchy(cfg: ChunkingConfig, target: Target, items: seq<RawItem>)
    returns (chunks: seq<Chunk>)
    ensures chunks == HierarchyOf(cfg, target, items)
  {
    hide ParentText, ChildChunks, Greedy, GroupChunks, MakeChunk, SameSection;
    GroupsNonEmpty(items);
    if items == [] {
      GreedyEnd([], SameSection);
      NoGroups(cfg, target, 0);
      return [];
    }
    var grouped := GroupItems(items);
    chunks := [];
    var index: nat := 0;
    assert grouped[0..] == grouped;
    for g := 0 to |grouped|
      invariant AllNonEmpty(grouped[g..])
      invariant chunks + GroupChunks(cfg, target, grouped[g..], index) == HierarchyOf(cfg, target, items)
    {
      var group := grouped[g];
      GroupChunksStep(cfg, target, grouped, g, index);
      var text := SynthesizeParent(cfg, group);
      var parent := MakeChunk(cfg, target, index, None, PARENT, text, group[0].origin, None);
      var children := BuildChildren(cfg, target, group, parent.id, index + 1);
      chunks := chunks + ([parent] + children);
      index := index + 1 + |group|;
    }
    assert grouped[|grouped|..] == [];
    NoGroups(cfg, target, index);
  }

  lemma NoGroups(cfg: ChunkingConfig, target: Target, index: nat)
    ensures GroupChunks(cfg, target, [], index) == []
  {
  }

  method SynthesizeParent(cfg: ChunkingConfig, group: seq<RawItem>) returns (text: Str)
    ensures text == ParentText(cfg, group)
  {
    hide Join, Truncate, Count, ContentsOf;
    var parts: seq<Str> := [];
    for i := 0 to |group|
      invariant |parts| == i && forall j :: 0 <= j < i ==> parts[j] == group[j].content
    {
      parts := parts + [group[i].content];
    }
    assert parts == ContentsOf(group);
    text := Join(PARENT_SEP, parts);
    var tokens := CountTokens(text);
    if tokens > cfg.maxParentTokens {
      text := TruncateToTokens(text, cfg.maxParentTokens);
    }
  }

  method BuildChildren(
      cfg: ChunkingConfig, target: Target, group: seq<RawItem>, parent: ChunkId, first: nat)
    returns (children: seq<Chunk>)
    ensures children == ChildChunks(cfg, target, group, parent, first)
  {
    hide ChildChunk, ChildChunks;
    children := [];
    for i := 0 to |group|
      invariant |children| == i
      invariant forall j :: 0 <= j < i ==> children[j] == ChildChunk(cfg, target, group[j], parent, first + j)
    {
      children := children + [ChildChunk(cfg, target, group[i], parent, first + i)];
    }
    assert children == ChildChunks(cfg, target, group, parent, first);
  }

  // ------------------------------------------------------------------------- validation

  datatype Rejection =
    | DuplicateId(id: ChunkId)
    | EmptyContent(index: nat)
    | DuplicateIndex(index: nat)
    | WrongDocument(id: ChunkId)
    | WrongOrganization(id: ChunkId)
    | WrongLength(index: nat)
    | ParentTooLarge(index: nat)
    | ChildTooLarge(index: nat)
    | SelfParent(id: ChunkId)
    | Orphan(id: ChunkId)
    | ParentNotParent(id: ChunkId)

  predicate WithinTokenLimit(cfg: ChunkingConfig, c: Chunk)
  {
    c.tokenCount <= (if c.kind == PARENT then cfg.maxParentTokens else cfg.maxTokens) + 50
  }

  predicate OwnedBy(c: Chunk, document: Option<int>, organization: Option<int>)
  {
    (document.Some? ==> c.document == document.value) &&
    (organization.Some? ==> c.organization == organization.value)
  }

  ghost predicate ParentResolves(c: Chunk, chunks: seq<Chunk>)
  {
    c.parent.Some? ==>
      c.parent.value != c.id &&
      exists j :: 0 <= j < |chunks| && chunks[j].id == c.parent.value && chunks[j].kind == PARENT
  }

  ghost predicate Sound(
      cfg: ChunkingConfig, c: Chunk, chunks: seq<Chunk>, document: Option<int>, organization: Option<int>)
  {
    !IsBlank(c.content) && OwnedBy(c, document, organization) && c.charCount == |c.content| &&
    WithinTokenLimit(cfg, c) && ParentResolves(c, chunks)
  }

  /** A batch of chunks without duplicate identifiers or indices in which every chunk is
      sound by itself. */
  ghost predicate Acceptable(
      cfg: ChunkingConfig, chunks: seq<Chunk>, document: Option<int>, organization: Option<int>)
  {
    (forall i, j :: 0 <= i < j < |chunks| ==>
      chunks[i].id != chunks[j].id && chunks[i].index != chunks[j].index) &&
    forall i :: 0 <= i < |chunks| ==> Sound(cfg, chunks[i], chunks, document, organization)
  }

  /** One step of collecting identifiers. */
  lemma {:induction false} CollectStep(chunks: seq<Chunk>, k: nat)
    requires k < |chunks|
    ensures var ids := set c | c in chunks[..k] :: c.id;
      (chunks[k].id in ids <==> exists i :: 0 <= i < k && chunks[i].id == chunks[k].id) &&
      (set c | c in chunks[..k + 1] :: c.id) == ids + {chunks[k].id}
    ensures (set c | c in chunks[..k + 1] && c.kind == PARENT :: c.id) ==
      (set c | c in chunks[..k] && c.kind == PARENT :: c.id) +
      (if chunks[k].kind == PARENT then {chunks[k].id} else {})
  {
    assert chunks[..k + 1] == chunks[..k] + [chunks[k]];
    assert forall i :: 0 <= i < k ==> chunks[i] in chunks[..k];
  }

  method CollectIds(chunks: seq<Chunk>)
    returns (duplicate: Option<Rejection>, ids: set<ChunkId>, parents: set<ChunkId>)
    ensures duplicate.None? <==> forall i, j :: 0 <= i < j < |chunks| ==> chunks[i].id != chunks[j].id
    ensures duplicate.None? ==>
      ids == (set c | c in chunks :: c.id) && parents == (set c | c in chunks && c.kind == PARENT :: c.id)
  {
    duplicate, ids, parents := None, {}, {};
    for k := 0 to |chunks|
      invariant duplicate.None?
      invariant forall i, j :: 0 <= i < j < k ==> chunks[i].id != chunks[j].id
      invariant ids == set c | c in chunks[..k] :: c.id
      invariant parents == set c | c in chunks[..k] && c.kind == PARENT :: c.id
    {
      var chunk := chunks[k];
      CollectStep(chunks, k);
      if chunk.id in ids {
        duplicate := Some(DuplicateId(chunk.id));
        return;
      }
      ids := ids + {chunk.id};
      if chunk.kind == PARENT {
        parents := parents + {chunk.id};
      }
    }
    assert chunks[..|chunks|] == chunks;
  }

  /** The checks on one chunk, in the order they are made. */
  method CheckChunk(
      cfg: ChunkingConfig, c: Chunk, document: Option<int>, organization: Option<int>,
      seen: set<nat>, ids: set<ChunkId>, parents: set<ChunkId>)
    returns (r: Option<Rejection>)
    ensures r.None? <==>
      !IsBlank(c.content) && c.index !in seen && OwnedBy(c, document, organization) &&
      c.charCount == |c.content| && WithinTokenLimit(cfg, c) &&
      (c.parent.Some? ==> c.parent.value != c.id && c.parent.value in ids && c.parent.value in parents)
  {
    var _, _ := StripSplits(c.content);
    if c.content == [] || Strip(c.content) == [] {
      return Some(EmptyContent(c.index));
    }
    if c.index in seen {
      return Some(DuplicateIndex(c.index));
    }
    if document.Some? && c.document != document.value {
      return Some(WrongDocument(c.id));
    }
    if organization.Some? && c.organization != organization.value {
      return Some(WrongOrganization(c.id));
    }
    if c.charCount != |c.content| {
      return Some(WrongLength(c.index));
    }
    if c.kind == PARENT {
      if c.tokenCount > cfg.maxParentTokens + 50 {
        return Some(ParentTooLarge(c.index));
      }
    } else if c.tokenCount > cfg.maxTokens + 50 {
      return Some(ChildTooLarge(c.index));
    }
    if c.parent.Some? {
      if c.parent.value == c.id {
        return Some(SelfParent(c.id));
      }
      if c.parent.value !in ids {
        return Some(Orphan(c.id));
      }
      if c.parent.value !in parents {
        return Some(ParentNotParent(c.id));
      }
    }
    return None;
  }

  /** The validator accepts exactly the acceptable batches. */
  method ValidateChunks(
      cfg: ChunkingConfig, chunks: seq<Chunk>, document: Option<int>, organization: Option<int>)
    returns (r: Option<Rejection>)
    ensures r.None? <==> Acceptable(cfg, chunks, document, organization)
  {
    if chunks == [] {
      return None;
    }
    var duplicate, ids, parents := CollectIds(chunks);
    if duplicate.Some? {
      return duplicate;
    }
    var seen: set<nat> := {};
    for k := 0 to |chunks|
      invariant forall i, j :: 0 <= i < j < k ==> chunks[i].index != chunks[j].index
      invariant seen == set c | c in chunks[..k] :: c.index
      invariant forall i :: 0 <= i < k ==> Sound(cfg, chunks[i], chunks, document, organization)
    {
      var chunk := chunks[k];
      r := CheckChunk(cfg, chunk, document, organization, seen, ids, parents);
      ResolvesBySets(chunk, chunks, ids, parents);
      SeenIndices(chunks, k);
      if r.Some? {
        return;
      }
      seen := seen + {chunk.index};
    }
    return None;
  }

  lemma ResolvesBySets(c: Chunk, chunks: seq<Chunk>, ids: set<ChunkId>, parents: set<ChunkId>)
    requires ids == set d | d in chunks :: d.id
    requires parents == set d | d in chunks && d.kind == PARENT :: d.id
    ensures ParentResolves(c, chunks) <==>
      (c.parent.Some? ==> c.parent.value != c.id && c.parent.value in ids && c.parent.value in parents)
  {
    if c.parent.Some? && c.parent.value in parents {
      var d :| d in chunks && d.kind == PARENT && d.id == c.parent.value;
      var j :| 0 <= j < |chunks| && chunks[j] == d;
      assert chunks[j].id == c.parent.value && chunks[j].kind == PARENT;
    }
  }

  lemma SeenIndices(chunks: seq<Chunk>, k: nat)
    requires k < |chunks|
    ensures var seen := set c | c in chunks[..k] :: c.index;
      (chunks[k].index in seen <==> exists i :: 0 <= i < k && chunks[i].index == chunks[k].index) &&
      (set c | c in chunks[..k + 1] :: c.index) == seen + {chunks[k].index}
  {
    assert chunks[..k + 1] == chunks[..k] + [chunks[k]];
    assert forall i :: 0 <= i < k ==> chunks[i] in chunks[..k];
  }
}
