/** The chunk hierarchy meets its own validator. */
module HierarchyLaws {
  import opened Wrappers
  import opened Text
  import opened Lexer
  import opened Underscores
  import opened Tokenizer
  import opened Splitting
  import opened Items
  import opened Packing
  import opened Hierarchy
  import opened WindowTokens

  /** Indices run up from `first` without gaps, and identifiers, owners and counts agree with
      each chunk's own fields. */
  ghost predicate Numbered(chunks: seq<Chunk>, target: Target, first: nat)
  {
    forall i :: 0 <= i < |chunks| ==>
      chunks[i].index == first + i == chunks[i].id.index &&
      chunks[i].document == target.document && chunks[i].organization == target.organization &&
      chunks[i].tokenCount == Count(chunks[i].content) && chunks[i].charCount == |chunks[i].content|
  }

  /** Read left to right, every non-parent chunk points at the nearest parent chunk before it;
      `current` is that parent at the start. */
  ghost predicate Linked(chunks: seq<Chunk>, current: Option<ChunkId>)
  {
    chunks == [] ||
    if chunks[0].kind == PARENT then
      chunks[0].parent == None && Linked(chunks[1..], Some(chunks[0].id))
    else
      current.Some? && chunks[0].parent == current && Linked(chunks[1..], current)
  }

  ghost predicate NoParents(items: seq<RawItem>)
  {
    forall i :: 0 <= i < |items| ==> items[i].kind != PARENT
  }

  // ---------------------------------------------------------------- numbers and links

  lemma {:induction false} ChildrenLinked(
      cfg: ChunkingConfig, target: Target, items: seq<RawItem>, parent: ChunkId, first: nat, rest: seq<Chunk>)
    requires NoParents(items) && Linked(rest, Some(parent))
    ensures Linked(ChildChunks(cfg, target, items, parent, first) + rest, Some(parent))
  {
    hide ContentHash, Count;
    var children := ChildChunks(cfg, target, items, parent, first);
    if items == [] {
      assert children + rest == rest;
    } else {
      ChildrenLinked(cfg, target, items[1..], parent, first + 1, rest);
      assert (children + rest)[1..] == ChildChunks(cfg, target, items[1..], parent, first + 1) + rest;
    }
  }

  lemma FamilyLinked(
      cfg: ChunkingConfig, target: Target, group: seq<RawItem>, index: nat, current: Option<ChunkId>,
      later: seq<Chunk>)
    requires group != [] && NoParents(group)
    requires Linked(later, Some(ParentChunk(cfg, target, group, index).id))
    ensures Linked(Family(cfg, target, group, index) + later, current)
  {
    hide ContentHash, Count, ParentText, ChildChunks;
    var parent := ParentChunk(cfg, target, group, index);
    var children := ChildChunks(cfg, target, group, parent.id, index + 1);
    ChildrenLinked(cfg, target, group, parent.id, index + 1, later);
    assert ([parent] + children + later)[1..] == children + later;
  }

  lemma {:induction false} GroupChunksLinked(
      cfg: ChunkingConfig, target: Target, groups: seq<seq<RawItem>>, index: nat, current: Option<ChunkId>)
    requires AllNonEmpty(groups) && forall i :: 0 <= i < |groups| ==> NoParents(groups[i])
    ensures Linked(GroupChunks(cfg, target, groups, index), current)
    decreases |groups|
  {
    hide Family, ParentChunk, NoParents;
    if groups != [] {
      var parent := ParentChunk(cfg, target, groups[0], index);
      var later := GroupChunks(cfg, target, groups[1..], index + 1 + |groups[0]|);
      GroupChunksLinked(cfg, target, groups[1..], index + 1 + |groups[0]|, Some(parent.id));
      FamilyLinked(cfg, target, groups[0], index, current, later);
    }
  }

  lemma FamilyNumbered(cfg: ChunkingConfig, target: Target, group: seq<RawItem>, index: nat)
    requires group != []
    ensures Numbered(Family(cfg, target, group, index), target, index)
  {
    hide ContentHash, Count, ParentText;
  }

  lemma NumberedAppend(a: seq<Chunk>, b: seq<Chunk>, target: Target, first: nat)
    requires Numbered(a, target, first) && Numbered(b, target, first + |a|)
    ensures Numbered(a + b, target, first)
  {
    hide Count;
  }

  lemma {:induction false} GroupChunksNumbered(
      cfg: ChunkingConfig, target: Target, groups: seq<seq<RawItem>>, index: nat)
    requires AllNonEmpty(groups)
    ensures Numbered(GroupChunks(cfg, target, groups, index), target, index)
    decreases |groups|
  {
    hide Family, Count;
    if groups != [] {
      var later := index + 1 + |groups[0]|;
      FamilyNumbered(cfg, target, groups[0], index);
      GroupChunksNumbered(cfg, target, groups[1..], later);
      NumberedAppend(Family(cfg, target, groups[0], index), GroupChunks(cfg, target, groups[1..], later),
                     target, index);
    }
  }

  /** Following the links finds a parent chunk in the batch. */
  lemma {:induction false} LinkedResolves(all: seq<Chunk>, k: nat, current: Option<ChunkId>)
    requires k <= |all| && Linked(all[k..], current)
    requires current.Some? ==>
      exists j :: 0 <= j < k && all[j].id == current.value && all[j].kind == PARENT
    ensures forall i :: k <= i < |all| && all[i].parent.Some? ==>
      exists j :: 0 <= j < i && all[j].id == all[i].parent.value && all[j].kind == PARENT
    decreases |all| - k
  {
    if k < |all| {
      var next := if all[k].kind == PARENT then Some(all[k].id) else current;
      assert all[k..][1..] == all[k + 1..] && all[k..][0] == all[k];
      LinkedResolves(all, k + 1, next);
    }
  }

  // ------------------------------------------------------------------------ parent texts

  /** What every extracted item is: not a parent, and not blank. */
  predicate SolidItem(item: RawItem) { item.kind != PARENT && !IsBlank(item.content) }

  ghost predicate SolidItems(items: seq<RawItem>)
  {
    forall i :: 0 <= i < |items| ==> SolidItem(items[i])
  }

  /** The text of a group before truncation. */
  function GroupText(group: seq<RawItem>): (r: Str) { Join(PARENT_SEP, ContentsOf(group)) }

  /** The parent of items that each fit a parent is never blank, truncated or not. */
  lemma {:induction false} ParentNotBlank(cfg: ChunkingConfig, group: seq<RawItem>)
    requires group != [] && SolidItems(group)
    requires forall i :: 0 <= i < |group| ==> Count(group[i].content) <= cfg.maxParentTokens
    ensures !IsBlank(ParentText(cfg, group))
  {
    hide Content, Contents, SumCost, Truncate, Cost, Join, IsBlank;
    var parts := ContentsOf(group);
    var text := Join(PARENT_SEP, parts);
    assert SolidItem(group[0]);
    if Count(text) > cfg.maxParentTokens {
      SeparatorBlank();
      ContentJoin(PARENT_SEP, parts);
      FirstTokenFits(parts, cfg.maxParentTokens);
      TruncationNotBlank(text, cfg.maxParentTokens);
    } else {
      JoinNotBlank(parts);
    }
  }

  /** Truncation keeps something if the first token fits. */
  lemma {:induction false} TruncationNotBlank(text: Str, limit: nat)
    requires Count(text) > limit
    requires Content(text) != [] ==> Cost(Content(text)[0]) <= limit
    ensures !IsBlank(Truncate(text, limit))
  {
    hide Content, Cost, Kept, Fragments, FitCount, DropUnderscores, Ink, Truncate, IsBlank;
    var kept := Kept(text, limit);
    FirstTokenCosts(text, limit);
    TruncateKeeps(text, limit);
    FitCountLongest(Fragments(text), limit);
    PatternsAgree(text);
    if Content(kept) == [] {
      SumCostOne(Content(text));
      assert false;
    }
    SomeInk(kept);
    InkDropUnderscores(kept);
    InkRStrip(DropUnderscores(kept));
    if IsBlank(Truncate(text, limit)) {
      InkBlank(Truncate(text, limit));
      assert false;
    }
  }

  lemma {:induction false} FirstTokenCosts(text: Str, limit: nat)
    requires Count(text) > limit
    requires Content(text) != [] ==> Cost(Content(text)[0]) <= limit
    ensures Content(text) != [] && limit > 0
  {
    hide Content;
  }

  lemma {:induction false} SomeInk(s: Str)
    requires Content(s) != []
    ensures Ink(s) != []
  {
    hide Content, Ink;
    TokensSpell(s);
  }

  lemma {:induction false} InkRStrip(s: Str)
    ensures Ink(RStrip(s)) == Ink(s)
  {
    hide RStrip, Ink;
    var r := RStrip(s);
    assert s == r + s[|r|..];
    InkAppend(r, s[|r|..]);
    InkBlank(s[|r|..]);
  }

  /** Truncation fuses nothing in the group's text, or none is needed. */
  predicate ParentFusesNothing(cfg: ChunkingConfig, group: seq<RawItem>)
  {
    Count(GroupText(group)) <= cfg.maxParentTokens || FusesNothing(Kept(GroupText(group), cfg.maxParentTokens))
  }

  /** Then the parent's text never exceeds the parent limit. */
  lemma {:induction false} ParentTextFits(cfg: ChunkingConfig, group: seq<RawItem>)
    requires ParentFusesNothing(cfg, group)
    ensures Count(ParentText(cfg, group)) <= cfg.maxParentTokens
  {
    hide Content, SumCost, Truncate, Join, FusesNothing, Kept;
    if Count(GroupText(group)) > cfg.maxParentTokens {
      TruncateExactly(GroupText(group), cfg.maxParentTokens);
    }
  }

  /** In particular if nothing fuses in the items. */
  lemma {:induction false} PlainGroupFusesNothing(cfg: ChunkingConfig, group: seq<RawItem>)
    requires forall i :: 0 <= i < |group| ==> FusesNothing(group[i].content)
    ensures ParentFusesNothing(cfg, group)
  {
    hide FusesNothing, Join, Count, Fragments, FragmentsEnd, FitCount;
    var text := GroupText(group);
    SeparatorBlank();
    FusesJoin(PARENT_SEP, ContentsOf(group));
    LeadingFuseNothing(text, FitCount(Fragments(text), cfg.maxParentTokens));
  }

  lemma {:induction false} SeparatorBlank()
    ensures IsBlank(PARENT_SEP)
  {
  }

  lemma {:induction false} JoinNotBlank(parts: seq<Str>)
    requires parts != [] && !IsBlank(parts[0])
    ensures !IsBlank(Join(PARENT_SEP, parts))
  {
    var i :| 0 <= i < |parts[0]| && !IsSpace(parts[0][i]);
    assert Join(PARENT_SEP, parts)[i] == parts[0][i];
  }

  /** The first token of texts that each fit a limit fits it, too. */
  lemma {:induction false} FirstTokenFits(parts: seq<Str>, limit: nat)
    requires forall i :: 0 <= i < |parts| ==> Count(parts[i]) <= limit
    ensures Contents(parts) != [] ==> Cost(Contents(parts)[0]) <= limit
  {
    hide Content, Contents, Cost, SumCost;
    if Contents(parts) != [] {
      var t := Contents(parts)[0];
      ContentsOwner(parts, t);
      var i :| 0 <= i < |parts| && t in Content(parts[i]);
      CostAtMostCount(Content(parts[i]), t);
    }
  }

  lemma OneContent(s: Str)
    ensures Contents([s]) == Content(s)
  {
    hide Content;
    assert Contents([s]) == Content(s) + Contents([]);
  }

  lemma SumCostOne(toks: seq<Str>)
    requires toks != []
    ensures SumCost(toks[..0 + 1]) == Cost(toks[0])
  {
    hide Cost;
    assert toks[..1][1..] == [];
  }

  // -------------------------------------------------------------------------- acceptance

  /** Parents hold texts of groups, other chunks hold items. */
  ghost predicate Carries(cfg: ChunkingConfig, c: Chunk, items: seq<RawItem>, groups: seq<seq<RawItem>>)
  {
    if c.kind == PARENT then exists g :: g in groups && c.content == ParentText(cfg, g)
    else exists x: RawItem :: x in items && c.content == x.content
  }

  lemma {:induction false} FamilyCarries(
      cfg: ChunkingConfig, target: Target, group: seq<RawItem>, index: nat, items: seq<RawItem>,
      groups: seq<seq<RawItem>>)
    requires group != [] && group in groups && NoParents(group)
    requires forall x :: x in group ==> x in items
    ensures forall c :: c in Family(cfg, target, group, index) ==> Carries(cfg, c, items, groups)
  {
    hide ContentHash, Count, ParentText, ChildChunk;
    var parent := ParentChunk(cfg, target, group, index);
    var children := ChildChunks(cfg, target, group, parent.id, index + 1);
    forall c | c in children ensures Carries(cfg, c, items, groups) {
      var i :| 0 <= i < |children| && c == children[i];
      ChildChunkHolds(cfg, target, group[i], parent.id, index + 1 + i);
      assert group[i] in items;
    }
  }

  lemma {:induction false} GroupChunksCarry(
      cfg: ChunkingConfig, target: Target, groups: seq<seq<RawItem>>, index: nat, items: seq<RawItem>,
      all: seq<seq<RawItem>>)
    requires AllNonEmpty(groups) && forall g :: g in groups ==> g in all && NoParents(g)
    requires forall x :: x in Flatten(groups) ==> x in items
    ensures forall c :: c in GroupChunks(cfg, target, groups, index) ==> Carries(cfg, c, items, all)
    decreases |groups|
  {
    hide Family, Carries, NoParents;
    if groups != [] {
      assert forall x :: x in groups[0] || x in Flatten(groups[1..]) ==> x in Flatten(groups);
      FamilyCarries(cfg, target, groups[0], index, items, all);
      GroupChunksCarry(cfg, target, groups[1..], index + 1 + |groups[0]|, items, all);
    }
  }

  /** A parent chunk holding the group's text. */
  ghost predicate Heads(cfg: ChunkingConfig, c: Chunk, g: seq<RawItem>)
  {
    c.kind == PARENT && c.content == ParentText(cfg, g) && c.tokenCount == Count(ParentText(cfg, g))
  }

  lemma {:induction false} ParentHeads(cfg: ChunkingConfig, target: Target, group: seq<RawItem>, index: nat)
    requires group != []
    ensures Heads(cfg, ParentChunk(cfg, target, group, index), group)
  {
    hide ParentText;
  }

  lemma {:induction false} FamilyHeads(cfg: ChunkingConfig, target: Target, group: seq<RawItem>, index: nat)
    requires group != []
    ensures exists c :: c in Family(cfg, target, group, index) && Heads(cfg, c, group)
  {
    hide ParentChunk, Heads, ChildChunks;
    ParentHeads(cfg, target, group, index);
    assert Family(cfg, target, group, index)[0] == ParentChunk(cfg, target, group, index);
  }

  lemma {:induction false} EveryGroupAppears(
      cfg: ChunkingConfig, target: Target, groups: seq<seq<RawItem>>, index: nat, g: seq<RawItem>)
    requires AllNonEmpty(groups) && g in groups
    ensures exists c :: c in GroupChunks(cfg, target, groups, index) && Heads(cfg, c, g)
    decreases |groups|
  {
    hide Family, Heads;
    if g == groups[0] {
      FamilyHeads(cfg, target, g, index);
    } else {
      EveryGroupAppears(cfg, target, groups[1..], index + 1 + |groups[0]|, g);
    }
  }

  /** A chunk holding the item's text. */
  ghost predicate Holds(c: Chunk, x: RawItem)
  {
    c.kind == x.kind && c.content == x.content && c.tokenCount == Count(x.content)
  }

  lemma FamilyHolds(cfg: ChunkingConfig, target: Target, group: seq<RawItem>, index: nat, x: RawItem)
    requires x in group
    ensures exists c :: c in Family(cfg, target, group, index) && Holds(c, x)
  {
    hide Count, ParentChunk, ChildChunk, Holds;
    var parent := ParentChunk(cfg, target, group, index);
    var children := ChildChunks(cfg, target, group, parent.id, index + 1);
    var i :| 0 <= i < |group| && group[i] == x;
    ChildChunkHolds(cfg, target, x, parent.id, index + 1 + i);
    assert children[i] in Family(cfg, target, group, index);
  }

  lemma ChildChunkHolds(cfg: ChunkingConfig, target: Target, item: RawItem, parent: ChunkId, index: nat)
    ensures Holds(ChildChunk(cfg, target, item, parent, index), item)
  {
  }

  lemma {:induction false} EveryItemAppears(
      cfg: ChunkingConfig, target: Target, groups: seq<seq<RawItem>>, index: nat, x: RawItem)
    requires AllNonEmpty(groups) && x in Flatten(groups)
    ensures exists c :: c in GroupChunks(cfg, target, groups, index) && Holds(c, x)
    decreases |groups|
  {
    hide Family, Holds;
    if x in groups[0] {
      FamilyHolds(cfg, target, groups[0], index, x);
    } else {
      EveryItemAppears(cfg, target, groups[1..], index + 1 + |groups[0]|, x);
    }
  }

  lemma {:induction false} FlattenNoParents(groups: seq<seq<RawItem>>)
    requires forall x :: x in Flatten(groups) ==> x.kind != PARENT
    ensures forall i :: 0 <= i < |groups| ==> NoParents(groups[i])
  {
    if groups != [] {
      assert forall x :: x in groups[0] ==> x in Flatten(groups);
      FlattenNoParents(groups[1..]);
    }
  }

  /** The shape of every hierarchy over items none of which is itself a parent: indices are
      exactly 0, 1, 2, ...; identifiers are distinct; every non-parent chunk points at the
      nearest parent before it. */
  lemma HierarchyShape(cfg: ChunkingConfig, target: Target, items: seq<RawItem>)
    requires forall x :: x in items ==> x.kind != PARENT
    ensures var chunks := HierarchyOf(cfg, target, items);
      Numbered(chunks, target, 0) && Linked(chunks, None) &&
      forall i, j :: 0 <= i < j < |chunks| ==>
        chunks[i].id != chunks[j].id && chunks[i].index != chunks[j].index
  {
    hide Count, Groups, GroupChunks;
    GroupsAreMaximalRuns(items);
    GroupsNonEmpty(items);
    FlattenNoParents(Groups(items));
    GroupChunksNumbered(cfg, target, Groups(items), 0);
    GroupChunksLinked(cfg, target, Groups(items), 0, None);
  }

  /** Every item and every parent text is non-blank and within its limit. */
  ghost predicate WithinLimits(cfg: ChunkingConfig, items: seq<RawItem>)
  {
    (forall x: RawItem :: x in items ==> !IsBlank(x.content) && Count(x.content) <= cfg.maxTokens + 50) &&
    forall g :: g in Groups(items) ==>
      !IsBlank(ParentText(cfg, g)) && Count(ParentText(cfg, g)) <= cfg.maxParentTokens + 50
  }

  /** Of any items, none of them a parent, the hierarchy passes its own validator if and only if
      every item and every parent text is non-blank and within its limit: identifiers, indices,
      owners, counts and links never fail. */
  lemma {:induction false} AcceptedIffWithinLimits(cfg: ChunkingConfig, target: Target, items: seq<RawItem>)
    requires forall x :: x in items ==> x.kind != PARENT
    ensures
      Acceptable(cfg, HierarchyOf(cfg, target, items), Some(target.document), Some(target.organization)) <==>
      WithinLimits(cfg, items)
  {
    hide Count, Groups, GroupChunks, IsBlank, ParentText;
    var chunks, groups := HierarchyOf(cfg, target, items), Groups(items);
    GroupsAreMaximalRuns(items);
    GroupsNonEmpty(items);
    HierarchyShape(cfg, target, items);
    FlattenNoParents(groups);
    assert chunks[0..] == chunks;
    LinkedResolves(chunks, 0, None);
    GroupChunksCarry(cfg, target, groups, 0, items, groups);
    if WithinLimits(cfg, items) {
      forall i | 0 <= i < |chunks|
        ensures Sound(cfg, chunks[i], chunks, Some(target.document), Some(target.organization))
      {
        assert chunks[i] in chunks && Carries(cfg, chunks[i], items, groups);
      }
    }
    if Acceptable(cfg, chunks, Some(target.document), Some(target.organization)) {
      SoundMeansWithin(cfg, target, items);
    }
  }

  lemma {:induction false} SoundMeansWithin(cfg: ChunkingConfig, target: Target, items: seq<RawItem>)
    requires forall x :: x in items ==> x.kind != PARENT
    requires Acceptable(
      cfg, HierarchyOf(cfg, target, items), Some(target.document), Some(target.organization))
    ensures WithinLimits(cfg, items)
  {
    hide Count, Groups, GroupChunks, IsBlank, ParentText;
    var chunks, groups := HierarchyOf(cfg, target, items), Groups(items);
    GroupsAreMaximalRuns(items);
    GroupsNonEmpty(items);
    forall x | x in items ensures !IsBlank(x.content) && Count(x.content) <= cfg.maxTokens + 50 {
      EveryItemAppears(cfg, target, groups, 0, x);
      var c :| c in chunks && Holds(c, x);
      var k :| 0 <= k < |chunks| && chunks[k] == c;
      assert Sound(cfg, chunks[k], chunks, Some(target.document), Some(target.organization));
    }
    forall g | g in groups
      ensures !IsBlank(ParentText(cfg, g)) && Count(ParentText(cfg, g)) <= cfg.maxParentTokens + 50
    {
      EveryGroupAppears(cfg, target, groups, 0, g);
      var c :| c in chunks && Heads(cfg, c, g);
      var k :| 0 <= k < |chunks| && chunks[k] == c;
      assert Sound(cfg, chunks[k], chunks, Some(target.document), Some(target.organization));
    }
  }

  /** Every parent text is within its limit. */
  ghost predicate ParentsFit(cfg: ChunkingConfig, items: seq<RawItem>)
  {
    forall g :: g in Groups(items) ==> Count(ParentText(cfg, g)) <= cfg.maxParentTokens + 50
  }

  /** The items of a group are items, and none is blank. */
  lemma {:induction false} GroupOf(items: seq<RawItem>, g: seq<RawItem>)
    requires SolidItems(items) && g in Groups(items)
    ensures g != [] && SolidItems(g) && forall x :: x in g ==> x in items
  {
    hide Groups, SolidItem;
    GroupsAreMaximalRuns(items);
    var k :| 0 <= k < |Groups(items)| && Groups(items)[k] == g;
    FlattenMembers(Groups(items), k);
    assert forall i :: 0 <= i < |g| ==> g[i] in items;
  }

  /** Of items as they are extracted, the hierarchy passes its own validator if and only if every
      item and every parent text is within its limit plus the tolerance. */
  lemma {:induction false} AcceptedExactly(cfg: ChunkingConfig, target: Target, items: seq<RawItem>)
    requires SolidItems(items) && cfg.maxTokens + 50 <= cfg.maxParentTokens
    ensures
      Acceptable(cfg, HierarchyOf(cfg, target, items), Some(target.document), Some(target.organization)) <==>
      (forall x: RawItem :: x in items ==> Count(x.content) <= cfg.maxTokens + 50) && ParentsFit(cfg, items)
  {
    hide Count, Groups, HierarchyOf, IsBlank, ParentText, Acceptable;
    AcceptedIffWithinLimits(cfg, target, items);
    assert forall x: RawItem :: x in items ==> SolidItem(x);
    if forall x: RawItem :: x in items ==> Count(x.content) <= cfg.maxTokens + 50 {
      forall g: seq<RawItem> | g in Groups(items) ensures !IsBlank(ParentText(cfg, g)) {
        GroupOf(items, g);
        assert forall i :: 0 <= i < |g| ==> g[i] in items;
        ParentNotBlank(cfg, g);
      }
    }
  }

  ghost predicate ParentsFuseNothing(cfg: ChunkingConfig, items: seq<RawItem>)
  {
    forall g :: g in Groups(items) ==> ParentFusesNothing(cfg, g)
  }

  /** Where truncation fuses nothing, parents fit by themselves. */
  lemma {:induction false} ParentsFitThen(cfg: ChunkingConfig, items: seq<RawItem>)
    requires ParentsFuseNothing(cfg, items)
    ensures ParentsFit(cfg, items)
  {
    hide Count, Groups, ParentText, ParentFusesNothing;
    forall g | g in Groups(items) ensures Count(ParentText(cfg, g)) <= cfg.maxParentTokens + 50 {
      ParentTextFits(cfg, g);
    }
  }
}
