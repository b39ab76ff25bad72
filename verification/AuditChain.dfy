/** The audit hash chain, its verifier, and what tampering it finds and where. */
module AuditChain {
  import opened Wrappers

  /** The fields of an audit record that enter its hash, as strings. */
  datatype Canonical = Canonical(
    id: string,
    userId: string,
    action: string,
    resourceType: string,
    resourceId: string,
    ipAddress: string,
    createdAt: string)

  /** A record, and the chain hash its metadata carries, if any. */
  datatype Record = Record(fields: Canonical, embedded: Option<string>)

  /** The digest and the serialisation in use. */
  datatype Codec = Codec(hash: string -> string, json: Canonical -> string)

  /** What is asked of them: no collisions, and digests made of characters other than colons
      (hexadecimal ones are), non-empty and different from the genesis label. */
  ghost predicate CollisionFree(c: Codec)
  {
    (forall x, y :: c.hash(x) == c.hash(y) ==> x == y) &&
    (forall x, y :: c.json(x) == c.json(y) ==> x == y) &&
    forall x :: c.hash(x) != "" && c.hash(x) != GENESIS_LABEL && ':' !in c.hash(x)
  }

  const GENESIS_LABEL := "GENESIS_BLOCK"

  function Genesis(c: Codec, organization: string): string { c.hash(GENESIS_LABEL + ":" + organization) }

  function ChainStep(c: Codec, previous: string, fields: Canonical): string
  {
    c.hash(previous + ":" + c.json(fields))
  }

  /** The end hash of a ledger. */
  function Chain(c: Codec, organization: string, records: seq<Record>): (h: string)
  {
    if records == [] then Genesis(c, organization)
    else
      ChainStep(c, Chain(c, organization, records[..|records| - 1]), records[|records| - 1].fields)
  }

  function Fields(records: seq<Record>): (r: seq<Canonical>)
    ensures |r| == |records| && forall i :: 0 <= i < |r| ==> r[i] == records[i].fields
  {
    seq(|records|, i requires 0 <= i < |records| => records[i].fields)
  }

  // ---------------------------------------------------------------------- the verifier

  datatype Status = VALID | INVALID | INCOMPLETE

  datatype Verdict = Verdict(
    status: Status,
    checked: nat,
    tampered: Option<string>,
    root: Option<string>,
    latest: Option<string>)

  /** The record carries a hash other than `expected`. */
  predicate Contradicts(r: Record, expected: string)
  {
    r.embedded.Some? && r.embedded.value != "" && r.embedded.value != expected
  }

  predicate MismatchAt(c: Codec, organization: string, records: seq<Record>, i: nat)
    requires i < |records|
  {
    Contradicts(records[i], Chain(c, organization, records[..i + 1]))
  }

  /** The first record from position `i` on that contradicts the chain. */
  function FirstMismatch(c: Codec, organization: string, records: seq<Record>, i: nat): (r: Option<nat>)
    requires i <= |records|
    ensures r.Some? ==> i <= r.value < |records| && MismatchAt(c, organization, records, r.value)
    ensures forall j :: i <= j < (if r.Some? then r.value else |records|) ==>
              !MismatchAt(c, organization, records, j)
    decreases |records| - i
  {
    if i == |records| then None
    else if MismatchAt(c, organization, records, i) then Some(i)
    else FirstMismatch(c, organization, records, i + 1)
  }

  /** The verdict on a ledger, by where the first contradicting record is. */
  function VerdictOn(c: Codec, organization: string, records: seq<Record>, published: Option<string>)
    : (v: Verdict)
  {
    if records == [] then Verdict(INCOMPLETE, 0, None, None, None)
    else
      var root, latest := Some(Genesis(c, organization)), Chain(c, organization, records);
      match FirstMismatch(c, organization, records, 0)
      case Some(i) =>
        Verdict(INVALID, i + 1, Some(records[i].fields.id), root, Some(Chain(c, organization, records[..i])))
      case None =>
        if published.Some? && published.value != "" && published.value != latest then
          Verdict(INVALID, |records|, None, root, Some(latest))
        else Verdict(VALID, |records|, None, root, Some(latest))
  }

  lemma ChainSnoc(c: Codec, organization: string, records: seq<Record>, i: nat)
    requires i < |records|
    ensures Chain(c, organization, records[..i + 1]) ==
            ChainStep(c, Chain(c, organization, records[..i]), records[i].fields)
  {
    assert records[..i + 1][..i] == records[..i];
  }

  method VerifyLedger(c: Codec, organization: string, records: seq<Record>, published: Option<string>)
    returns (v: Verdict)
    ensures v == VerdictOn(c, organization, records, published)
  {
    if records == [] {
      return Verdict(INCOMPLETE, 0, None, None, None);
    }
    var current := c.hash(GENESIS_LABEL + ":" + organization);
    var root := current;
    assert records[..0] == [];
    for i := 0 to |records|
      invariant current == Chain(c, organization, records[..i])
      invariant forall j :: 0 <= j < i ==> !MismatchAt(c, organization, records, j)
    {
      var record := records[i];
      var step := c.hash(current + ":" + c.json(record.fields));
      ChainSnoc(c, organization, records, i);
      if record.embedded.Some? && record.embedded.value != "" && record.embedded.value != step {
        assert MismatchAt(c, organization, records, i);
        return Verdict(INVALID, i + 1, Some(record.fields.id), Some(root), Some(current));
      }
      current := step;
    }
    assert records[..|records|] == records;
    if published.Some? && published.value != "" && current != published.value {
      return Verdict(INVALID, |records|, None, Some(root), Some(current));
    }
    return Verdict(VALID, |records|, None, Some(root), Some(current));
  }

  // ----------------------------------------------------------------- the chain is injective

  /** Two colon-free heads before the first colon are determined by the whole. */
  lemma {:induction false} ColonSplit(a: string, x: string, b: string, y: string)
    requires ':' !in a && ':' !in b && a + ":" + x == b + ":" + y
    ensures a == b && x == y
  {
    var s := a + ":" + x;
    assert s[|a|] == ':' && s[|b|] == ':';
    assert forall i :: 0 <= i < |a| ==> s[i] == a[i] && s[i] in a;
    assert forall i :: 0 <= i < |b| ==> s[i] == b[i] && s[i] in b;
    assert a == s[..|a|] == s[..|b|] == b;
    assert x == s[|a| + 1..] == y;
  }

  lemma ChainDigest(c: Codec, organization: string, records: seq<Record>)
    requires CollisionFree(c)
    ensures Chain(c, organization, records) != "" && ':' !in Chain(c, organization, records)
    ensures Chain(c, organization, records) != GENESIS_LABEL
  {
  }

  lemma GenesisIsNoStep(c: Codec, organization: string, previous: string, fields: Canonical)
    requires CollisionFree(c) && ':' !in previous && previous != GENESIS_LABEL
    ensures Genesis(c, organization) != ChainStep(c, previous, fields)
  {
    if Genesis(c, organization) == ChainStep(c, previous, fields) {
      ColonSplit(GENESIS_LABEL, organization, previous, c.json(fields));
      assert false;
    }
  }

  lemma StepInjective(c: Codec, p: string, f: Canonical, q: string, g: Canonical)
    requires CollisionFree(c) && ':' !in p && ':' !in q
    requires ChainStep(c, p, f) == ChainStep(c, q, g)
    ensures p == q && f == g
  {
    ColonSplit(p, c.json(f), q, c.json(g));
  }

  lemma GenesisInjective(c: Codec, org1: string, org2: string)
    requires CollisionFree(c) && Genesis(c, org1) == Genesis(c, org2)
    ensures org1 == org2
  {
    ColonSplit(GENESIS_LABEL, org1, GENESIS_LABEL, org2);
  }

  /** Equal end hashes mean the same organisation and the same records: the fold is injective
      over ledgers of every length. */
  lemma {:induction false} ChainInjective(
      c: Codec, org1: string, a: seq<Record>, org2: string, b: seq<Record>)
    requires CollisionFree(c) && Chain(c, org1, a) == Chain(c, org2, b)
    ensures org1 == org2 && Fields(a) == Fields(b)
    decreases |a|
  {
    hide Genesis, ChainStep, CollisionFree;
    if a == [] && b == [] {
      GenesisInjective(c, org1, org2);
    } else if a == [] {
      var front := b[..|b| - 1];
      ChainDigest(c, org2, front);
      GenesisIsNoStep(c, org1, Chain(c, org2, front), b[|b| - 1].fields);
    } else if b == [] {
      var front := a[..|a| - 1];
      ChainDigest(c, org1, front);
      GenesisIsNoStep(c, org2, Chain(c, org1, front), a[|a| - 1].fields);
    } else {
      var af, bf := a[..|a| - 1], b[..|b| - 1];
      ChainDigest(c, org1, af);
      ChainDigest(c, org2, bf);
      StepInjective(c, Chain(c, org1, af), a[|a| - 1].fields, Chain(c, org2, bf), b[|b| - 1].fields);
      ChainInjective(c, org1, af, org2, bf);
      assert Fields(a) == Fields(af) + [a[|a| - 1].fields];
      assert Fields(b) == Fields(bf) + [b[|b| - 1].fields];
    }
  }

  /** Ledgers of different lengths have different end hashes. */
  lemma LengthsTell(c: Codec, organization: string, a: seq<Record>, b: seq<Record>)
    requires CollisionFree(c) && |a| != |b|
    ensures Chain(c, organization, a) != Chain(c, organization, b)
  {
    hide Chain, CollisionFree;
    if Chain(c, organization, a) == Chain(c, organization, b) {
      ChainInjective(c, organization, a, organization, b);
      assert false;
    }
  }

  /** A VALID verdict against the published end hash of a ledger means that the records are,
      field for field and in order, those of that ledger. */
  lemma ValidMeansPublished(
      c: Codec, organization: string, records: seq<Record>, original: seq<Record>, v: Verdict)
    requires CollisionFree(c) && records != []
    requires v == VerdictOn(c, organization, records, Some(Chain(c, organization, original)))
    requires v.status == VALID
    ensures Fields(records) == Fields(original)
  {
    ChainDigest(c, organization, original);
    ChainInjective(c, organization, records, organization, original);
  }

  // ------------------------------------------------------------- honest and altered ledgers

  /** Every hash carried is the honest one; records may also carry none. */
  ghost predicate Honest(c: Codec, organization: string, records: seq<Record>)
  {
    forall i :: 0 <= i < |records| ==> !MismatchAt(c, organization, records, i)
  }

  /** Every record carries its honest hash. */
  ghost predicate FullyChained(c: Codec, organization: string, records: seq<Record>)
  {
    forall i :: 0 <= i < |records| ==>
      records[i].embedded == Some(Chain(c, organization, records[..i + 1]))
  }

  /** The verifier accepts exactly the non-empty ledgers in which no carried hash is wrong and
      whose end hash is the published one, when one is given. */
  lemma ValidExactly(
      c: Codec, organization: string, records: seq<Record>, published: Option<string>, v: Verdict)
    requires v == VerdictOn(c, organization, records, published)
    ensures v.status == VALID <==>
      records != [] && Honest(c, organization, records) &&
      (published.Some? && published.value != "" ==> published.value == Chain(c, organization, records))
  {
  }

  /** The end hash by folding forward over the records' fields from a starting hash. */
  function FoldHash(c: Codec, start: string, fields: seq<Canonical>): (h: string)
    decreases |fields|
  {
    if fields == [] then start else FoldHash(c, c.hash(start + ":" + c.json(fields[0])), fields[1..])
  }

  lemma {:induction false} FoldSnoc(c: Codec, start: string, fields: seq<Canonical>, f: Canonical)
    ensures FoldHash(c, start, fields + [f]) == c.hash(FoldHash(c, start, fields) + ":" + c.json(f))
    decreases |fields|
  {
    if fields == [] {
      assert (fields + [f])[1..] == [];
    } else {
      assert (fields + [f])[1..] == fields[1..] + [f];
      FoldSnoc(c, c.hash(start + ":" + c.json(fields[0])), fields[1..], f);
    }
  }

  /** The hash every chain of an organisation starts from. */
  function Root(c: Codec, organization: string): (h: string) { c.hash("GENESIS_BLOCK" + ":" + organization) }

  lemma {:induction false} ChainIsFold(c: Codec, organization: string, records: seq<Record>)
    ensures Chain(c, organization, records) == FoldHash(c, Root(c, organization), Fields(records))
    decreases |records|
  {
    hide FoldHash;
    if records == [] {
      FoldNothing(c, Root(c, organization));
    } else {
      var front, last := records[..|records| - 1], records[|records| - 1];
      ChainIsFold(c, organization, front);
      FoldSnoc(c, Root(c, organization), Fields(front), last.fields);
      assert Fields(records) == Fields(front) + [last.fields];
    }
  }

  lemma {:induction false} FoldNothing(c: Codec, start: string)
    ensures FoldHash(c, start, []) == start
  {
  }

  /** The record carries a hash, and not the one of the chain up to it. */
  predicate CarriesWrongHash(c: Codec, organization: string, records: seq<Record>, i: nat)
    requires i < |records|
  {
    match records[i].embedded
    case Some(h) => h != "" && h != FoldHash(c, Root(c, organization), Fields(records[..i + 1]))
    case None => false
  }

  /** The verdict, exactly: an empty ledger is INCOMPLETE; the first record that carries a wrong hash
      makes it INVALID there, naming the record; otherwise a published end hash other than the
      ledger's makes it INVALID as a whole, naming none; everything else is VALID. */
  lemma {:induction false} VerdictExactly(
      c: Codec, organization: string, records: seq<Record>, published: Option<string>, i: nat)
    requires i <= |records|
    requires forall j :: 0 <= j < i ==> !CarriesWrongHash(c, organization, records, j)
    requires i < |records| ==> CarriesWrongHash(c, organization, records, i)
    ensures var end := FoldHash(c, Root(c, organization), Fields(records));
      var root := Some(Root(c, organization));
      VerdictOn(c, organization, records, published) ==
        if records == [] then Verdict(INCOMPLETE, 0, None, None, None)
        else if i < |records| then
          Verdict(INVALID, i + 1, Some(records[i].fields.id), root,
                  Some(FoldHash(c, Root(c, organization), Fields(records[..i]))))
        else if published.Some? && published.value != "" && published.value != end then
          Verdict(INVALID, |records|, None, root, Some(end))
        else Verdict(VALID, |records|, None, root, Some(end))
  {
    hide Chain, FoldHash, Root, Genesis;
    forall j | 0 <= j < |records|
      ensures MismatchAt(c, organization, records, j) <==> CarriesWrongHash(c, organization, records, j)
    {
      ChainIsFold(c, organization, records[..j + 1]);
    }
    ChainIsFold(c, organization, records);
    ChainIsFold(c, organization, records[..i]);
    RootIsGenesis(c, organization);
  }

  lemma {:induction false} RootIsGenesis(c: Codec, organization: string)
    ensures Root(c, organization) == Genesis(c, organization)
  {
  }

  /** Up to `i`, the ledger `t` shows the same records as `original`. */
  ghost predicate AgreeUpTo(t: seq<Record>, original: seq<Record>, i: nat)
  {
    i <= |t| && i <= |original| && t[..i] == original[..i]
  }

  lemma NoMismatchBefore(c: Codec, organization: string, t: seq<Record>, original: seq<Record>, i: nat, j: nat)
    requires CollisionFree(c) && FullyChained(c, organization, original)
    requires AgreeUpTo(t, original, i) && j < i
    ensures !MismatchAt(c, organization, t, j)
  {
    assert t[j] == t[..i][j] == original[..i][j] == original[j];
    assert t[..j + 1] == t[..i][..j + 1] == original[..i][..j + 1] == original[..j + 1];
  }

  /** If the record at `i` contradicts the chain and everything before it is as it was, the
      verifier stops there and names it. */
  lemma StopsAt(
      c: Codec, organization: string, t: seq<Record>, original: seq<Record>, i: nat,
      published: Option<string>, v: Verdict)
    requires CollisionFree(c) && FullyChained(c, organization, original)
    requires AgreeUpTo(t, original, i) && i < |t| && MismatchAt(c, organization, t, i)
    requires v == VerdictOn(c, organization, t, published)
    ensures v.status == INVALID && v.checked == i + 1 && v.tampered == Some(t[i].fields.id)
  {
    var k :| 0 <= k < |t| && MismatchAt(c, organization, t, k) &&
      (forall j :: 0 <= j < k ==> !MismatchAt(c, organization, t, j)) && v.checked == k + 1 &&
      v.tampered == Some(t[k].fields.id) && v.status == INVALID;
    if k < i {
      NoMismatchBefore(c, organization, t, original, i, k);
      assert false;
    }
  }

  /** Altering the fields of a record, first at index `i`, is found there, whatever follows. */
  lemma AlterationLocated(
      c: Codec, organization: string, original: seq<Record>, t: seq<Record>, i: nat,
      published: Option<string>, v: Verdict)
    requires CollisionFree(c) && FullyChained(c, organization, original)
    requires AgreeUpTo(t, original, i) && i < |t| && i < |original|
    requires t[i].embedded == original[i].embedded && t[i].fields != original[i].fields
    requires v == VerdictOn(c, organization, t, published)
    ensures v.status == INVALID && v.checked == i + 1 && v.tampered == Some(t[i].fields.id)
  {
    var h := Chain(c, organization, original[..i + 1]);
    ChainDigest(c, organization, original[..i + 1]);
    if Chain(c, organization, t[..i + 1]) == h {
      ChainInjective(c, organization, t[..i + 1], organization, original[..i + 1]);
      assert false;
    }
    StopsAt(c, organization, t, original, i, published, v);
  }

  /** A genuine record standing at a position other than its own is found there: this covers
      deleting, duplicating and reordering records. */
  lemma DisplacementLocated(
      c: Codec, organization: string, original: seq<Record>, t: seq<Record>, i: nat, from: nat,
      published: Option<string>, v: Verdict)
    requires CollisionFree(c) && FullyChained(c, organization, original)
    requires AgreeUpTo(t, original, i) && i < |t|
    requires from < |original| && from != i && t[i] == original[from]
    requires v == VerdictOn(c, organization, t, published)
    ensures v.status == INVALID && v.checked == i + 1 && v.tampered == Some(t[i].fields.id)
  {
    ChainDigest(c, organization, original[..from + 1]);
    LengthsTell(c, organization, t[..i + 1], original[..from + 1]);
    StopsAt(c, organization, t, original, i, published, v);
  }

  /** Deleting a record other than the last is found at its place, which the next record now
      holds. */
  lemma DeletionLocated(
      c: Codec, organization: string, original: seq<Record>, i: nat, published: Option<string>, v: Verdict)
    requires CollisionFree(c) && FullyChained(c, organization, original) && i + 1 < |original|
    requires v == VerdictOn(c, organization, original[..i] + original[i + 1..], published)
    ensures v.status == INVALID && v.checked == i + 1
    ensures v.tampered == Some(original[i + 1].fields.id)
  {
    var t := original[..i] + original[i + 1..];
    assert t[..i] == original[..i] && t[i] == original[i + 1];
    DisplacementLocated(c, organization, original, t, i, i + 1, published, v);
  }

  /** Inserting a record before a genuine one is always found: at the inserted record, which is
      then named, exactly if that record carries a hash that does not fit; and otherwise at
      the genuine record right after it. */
  lemma InsertionLocated(
      c: Codec, organization: string, original: seq<Record>, i: nat, x: Record,
      published: Option<string>, v: Verdict)
    requires CollisionFree(c) && FullyChained(c, organization, original) && i < |original|
    requires v == VerdictOn(c, organization, original[..i] + [x] + original[i..], published)
    ensures v.status == INVALID
    ensures
      if Contradicts(x, ChainStep(c, Chain(c, organization, original[..i]), x.fields))
      then v.checked == i + 1 && v.tampered == Some(x.fields.id)
      else v.checked == i + 2 && v.tampered == Some(original[i].fields.id)
  {
    hide Chain;
    var t := original[..i] + [x] + original[i..];
    assert t[..i] == original[..i] && t[i] == x && t[i + 1] == original[i];
    ChainSnoc(c, organization, t, i);
    if MismatchAt(c, organization, t, i) {
      StopsAt(c, organization, t, original, i, published, v);
    } else {
      ChainDigest(c, organization, original[..i + 1]);
      LengthsTell(c, organization, t[..i + 2], original[..i + 1]);
      assert MismatchAt(c, organization, t, i + 1);
      forall j | 0 <= j < i ensures !MismatchAt(c, organization, t, j) {
        NoMismatchBefore(c, organization, t, original, i, j);
      }
    }
  }

  /** One genuine record vouches for everything before it: if a VALID ledger holds, anywhere,
      the record `original[j]` with its hash, then it holds it at position `j`, after exactly
      the original records, whether or not those still carry their hashes. */
  lemma GenuineRecordVouches(
      c: Codec, organization: string, original: seq<Record>, t: seq<Record>, k: nat, j: nat,
      published: Option<string>)
    requires CollisionFree(c) && FullyChained(c, organization, original)
    requires k < |t| && j < |original| && t[k] == original[j]
    requires VerdictOn(c, organization, t, published).status == VALID
    ensures k == j && Fields(t[..k + 1]) == Fields(original[..j + 1])
  {
    assert !MismatchAt(c, organization, t, k);
    ChainDigest(c, organization, original[..j + 1]);
    ChainInjective(c, organization, t[..k + 1], organization, original[..j + 1]);
  }

  /** Cutting records off the end leaves a valid ledger; only a published end hash shows it,
      and it always does. */
  lemma TruncationShownByPublishedHash(
      c: Codec, organization: string, original: seq<Record>, n: nat, published: Option<string>, v: Verdict)
    requires CollisionFree(c) && FullyChained(c, organization, original) && 0 < n <= |original|
    requires published == None || published == Some(Chain(c, organization, original))
    requires v == VerdictOn(c, organization, original[..n], published)
    ensures v.status == VALID <==> published == None || n == |original|
  {
    var t := original[..n];
    forall j | 0 <= j < n ensures !MismatchAt(c, organization, t, j) {
      NoMismatchBefore(c, organization, t, original, n, j);
    }
    ValidExactly(c, organization, t, published, v);
    ChainDigest(c, organization, original);
    if n < |original| {
      LengthsTell(c, organization, t, original);
    }
    if n == |original| {
      assert t == original;
    }
  }

  // --------------------------------------------------------- the assumption can be met

  /** Two characters for one, none of them a colon. */
  function Escaped(s: string): (r: string)
    ensures ':' !in r
  {
    if s == "" then "" else (if s[0] == ':' then "cc" else ['o', s[0]]) + Escaped(s[1..])
  }

  lemma {:induction false} EscapedInjective(a: string, b: string)
    requires Escaped(a) == Escaped(b)
    ensures a == b
  {
    if a != "" && b != "" {
      assert Escaped(a)[..2] == Escaped(b)[..2] && Escaped(a)[2..] == Escaped(b)[2..];
      assert Escaped(a)[0] == Escaped(b)[0] && Escaped(a)[1] == Escaped(b)[1];
      EscapedInjective(a[1..], b[1..]);
    }
  }

  function Joined(parts: seq<string>): (r: string)
  {
    if parts == [] then "" else Escaped(parts[0]) + ":" + Joined(parts[1..])
  }

  lemma {:induction false} JoinedInjective(a: seq<string>, b: seq<string>)
    requires |a| == |b| && Joined(a) == Joined(b)
    ensures a == b
  {
    if a != [] {
      ColonSplit(Escaped(a[0]), Joined(a[1..]), Escaped(b[0]), Joined(b[1..]));
      EscapedInjective(a[0], b[0]);
      JoinedInjective(a[1..], b[1..]);
    }
  }

  function AsList(f: Canonical): (r: seq<string>)
  {
    [f.id, f.userId, f.action, f.resourceType, f.resourceId, f.ipAddress, f.createdAt]
  }

  function PlainCodec(): (c: Codec)
  {
    Codec(x => "h" + Escaped(x), f => Joined(AsList(f)))
  }

  lemma AsListInjective(f: Canonical, g: Canonical)
    requires AsList(f) == AsList(g)
    ensures f == g
  {
    assert forall i :: 0 <= i < 7 ==> AsList(f)[i] == AsList(g)[i];
    assert f.id == AsList(f)[0] && f.userId == AsList(f)[1] && f.action == AsList(f)[2] &&
      f.resourceType == AsList(f)[3] && f.resourceId == AsList(f)[4] && f.ipAddress == AsList(f)[5] &&
      f.createdAt == AsList(f)[6];
  }

  /** What is asked of the digest and the serialisation is free of contradiction: an escaping
      "digest" and a delimiting serialisation satisfy it. */
  lemma CollisionFreeIsPossible()
    ensures CollisionFree(PlainCodec())
  {
    var c := PlainCodec();
    forall x, y | c.hash(x) == c.hash(y) ensures x == y {
      assert c.hash(x)[1..] == Escaped(x) && c.hash(y)[1..] == Escaped(y);
      EscapedInjective(x, y);
    }
    forall f: Canonical, g: Canonical | c.json(f) == c.json(g) ensures f == g {
      JoinedInjective(AsList(f), AsList(g));
      AsListInjective(f, g);
    }
    forall x ensures c.hash(x) != "" && c.hash(x) != GENESIS_LABEL && ':' !in c.hash(x) {
      assert c.hash(x)[0] == 'h';
    }
  }
}
