/** Settings and working records of the chunking engine. */
module Items {
  import opened Wrappers
  import opened Text

  datatype ChunkingConfig = ChunkingConfig(
    version: string,
    targetTokens: nat,
    maxTokens: nat,
    maxChars: nat,
    maxParentTokens: nat,
    smallTokens: nat,
    maxTableRows: nat)

  const DEFAULT_CONFIG := ChunkingConfig("1.0.0", 400, 800, 4000, 1600, 40, 30)

  datatype ChunkType = TEXT | PARAGRAPH | HEADING | LIST | TABLE | COMPOSITE | PARENT

  /** Where a piece of text came from; shared by all pieces of one block. */
  datatype Origin = Origin(
    headingPath: seq<Str>,
    headingContext: Option<Str>,
    page: Option<int>,
    section: Option<Str>)

  /** A chunk before indexing.  `rows` is the half-open row range of a table slice. */
  datatype RawItem = RawItem(content: Str, kind: ChunkType, origin: Origin, rows: Option<(nat, nat)>)

  /** Constructing an item strips its content. */
  function NewItem(content: Str, kind: ChunkType, origin: Origin): (r: RawItem)
  {
    RawItem(Strip(content), kind, origin, None)
  }

  /** One item per piece of text, all from the same block. */
  function Wrap(pieces: seq<Str>, kind: ChunkType, origin: Origin): (r: seq<RawItem>)
    ensures |r| == |pieces|
    ensures forall i :: 0 <= i < |r| ==> r[i] == NewItem(pieces[i], kind, origin)
  {
    seq(|pieces|, i requires 0 <= i < |pieces| => NewItem(pieces[i], kind, origin))
  }

  lemma WrapAppend(a: seq<Str>, b: seq<Str>, kind: ChunkType, origin: Origin)
    ensures Wrap(a + b, kind, origin) == Wrap(a, kind, origin) + Wrap(b, kind, origin)
  {
    hide NewItem;
  }

  lemma WrapOne(piece: Str, kind: ChunkType, origin: Origin)
    ensures Wrap([piece], kind, origin) == [NewItem(piece, kind, origin)]
  {
    hide NewItem;
  }
}
