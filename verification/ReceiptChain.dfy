/** The hash chain over the batches of a generation, and why it pins the batch list down. */
module ReceiptChain {
  import opened Text
  import opened Values
  import opened Json
  import opened Batching
  import Receipt

  datatype Kind = Detail | Index

  function KindText(kind: Kind): string {
    match kind case Detail => "detail" case Index => "index"
  }

  /** What the chain records of one batch. */
  datatype Link = Link(kind: Kind, offset: nat, count: nat, payload: Digest)

  function LinkText(link: Link): string {
    "\n" + KindText(link.kind) + "|" + Decimal(link.offset) + "|" + Decimal(link.count) + "|" + link.payload
  }

  function Step(sha: Hash, digest: Digest, link: Link): Digest {
    sha(Utf8(digest + LinkText(link)))
  }

  function ChainFrom(sha: Hash, digest: Digest, links: seq<Link>): Digest
    decreases |links|
  {
    if links == [] then digest else ChainFrom(sha, Step(sha, digest, links[0]), links[1..])
  }

  /** The digest of the whole chain; the empty chain has the digest of no bytes. */
  function Chain(sha: Hash, links: seq<Link>): Digest {
    ChainFrom(sha, sha([]), links)
  }

  /** `receipt_payload_hash`; `None` when the batch holds a value receipts refuse. */
  function PayloadHash(sha: Hash, batch: seq<Row>): Option<Digest> {
    var encoding :- Receipt.Encode(List(batch));
    Some(sha(encoding))
  }

  /** The links of consecutive batches of one kind. */
  function Links(sha: Hash, kind: Kind, offset: nat, batches: seq<seq<Row>>): Option<seq<Link>>
    decreases |batches|
  {
    if batches == [] then Some([])
    else
      var payload :- PayloadHash(sha, batches[0]);
      var rest :- Links(sha, kind, offset + |batches[0]|, batches[1..]);
      Some([Link(kind, offset, |batches[0]|, payload)] + rest)
  }

  /** `receipt_digest`. */
  method ReceiptDigest(sha: Hash, details: seq<seq<Row>>, indexes: seq<seq<Row>>) returns (r: Option<Digest>)
    ensures var d, i := Links(sha, Detail, 0, details), Links(sha, Index, 0, indexes);
      r == if d.None? || i.None? then None else Some(Chain(sha, d.value + i.value))
  {
    var digest: Digest := sha([]);
    FoldIsChain(sha, digest, Detail, 0, details);
    r := ExtendOver(sha, digest, Detail, details);
    if r.Some? {
      ghost var d, i := Links(sha, Detail, 0, details), Links(sha, Index, 0, indexes);
      if i.Some? { ChainFromConcat(sha, digest, d.value, i.value); }
      FoldIsChain(sha, r.value, Index, 0, indexes);
      r := ExtendOver(sha, r.value, Index, indexes);
    }
  }

  function Extended(sha: Hash, digest: Digest, links: Option<seq<Link>>): Option<Digest> {
    match links case None => None case Some(ls) => Some(ChainFrom(sha, digest, ls))
  }

  /** The chain carried over the batches one at a time. */
  function Fold(sha: Hash, digest: Digest, kind: Kind, offset: nat, batches: seq<seq<Row>>): Option<Digest>
    decreases |batches|
  {
    if batches == [] then Some(digest)
    else
      var payload :- PayloadHash(sha, batches[0]);
      Fold(sha, Step(sha, digest, Link(kind, offset, |batches[0]|, payload)), kind, offset + |batches[0]|, batches[1..])
  }

  lemma {:induction false} FoldIsChain(sha: Hash, digest: Digest, kind: Kind, offset: nat, batches: seq<seq<Row>>)
    ensures Fold(sha, digest, kind, offset, batches) == Extended(sha, digest, Links(sha, kind, offset, batches))
    decreases |batches|
  {
    if batches != [] {
      LinksStep(sha, digest, kind, offset, batches);
      var payload := PayloadHash(sha, batches[0]);
      if payload.Some? {
        var next := Step(sha, digest, Link(kind, offset, |batches[0]|, payload.value));
        FoldIsChain(sha, next, kind, offset + |batches[0]|, batches[1..]);
      }
    }
  }

  method ExtendOver(sha: Hash, start: Digest, kind: Kind, batches: seq<seq<Row>>) returns (r: Option<Digest>)
    ensures r == Fold(sha, start, kind, 0, batches)
  {
    hide PayloadHash, Step;
    var digest: Digest, offset: nat := start, 0;
    ghost var rest := batches;
    for k := 0 to |batches|
      invariant rest == batches[k..]
      invariant Fold(sha, digest, kind, offset, rest) == Fold(sha, start, kind, 0, batches)
    {
      rest := rest[1..];
      var payload := PayloadHash(sha, batches[k]);
      if payload.None? {
        return None;
      }
      digest := Step(sha, digest, Link(kind, offset, |batches[k]|, payload.value));
      offset := offset + |batches[k]|;
    }
    return Some(digest);
  }

  lemma LinksStep(sha: Hash, digest: Digest, kind: Kind, offset: nat, batches: seq<seq<Row>>)
    requires batches != []
    ensures var payload := PayloadHash(sha, batches[0]);
      Extended(sha, digest, Links(sha, kind, offset, batches))
      == if payload.None? then None
         else Extended(sha, Step(sha, digest, Link(kind, offset, |batches[0]|, payload.value)),
                       Links(sha, kind, offset + |batches[0]|, batches[1..]))
  {
    var payload, rest := PayloadHash(sha, batches[0]), Links(sha, kind, offset + |batches[0]|, batches[1..]);
    if payload.Some? && rest.Some? {
      var link := Link(kind, offset, |batches[0]|, payload.value);
      assert ([link] + rest.value)[0] == link && ([link] + rest.value)[1..] == rest.value;
    }
  }

  lemma {:induction false} ChainFromConcat(sha: Hash, start: Digest, a: seq<Link>, b: seq<Link>)
    ensures ChainFrom(sha, start, a + b) == ChainFrom(sha, ChainFrom(sha, start, a), b)
    decreases |a|
  {
    if a == [] {
      assert a + b == b;
    } else {
      assert (a + b)[1..] == a[1..] + b;
      ChainFromConcat(sha, Step(sha, start, a[0]), a[1..], b);
    }
  }

  // ------------------------------------------------------- the chain determines its links

  lemma BarEnds(a: nat, b: nat, x: string, y: string)
    requires Decimal(a) + ("|" + x) == Decimal(b) + ("|" + y)
    ensures a == b && x == y
  {
    NumbersEnd(Decimal(a), Decimal(b), "|" + x, "|" + y);
    DecimalValue(a);
    DecimalValue(b);
    SameText("|", x, y);
  }

  lemma LinkTextInjective(a: Link, b: Link)
    requires LinkText(a) == LinkText(b)
    ensures a == b
  {
    LinkTextParts(a);
    LinkTextParts(b);
    SameText("\n", AfterBreak(a), AfterBreak(b));
    KindSplits(a, b);
    BarEnds(a.offset, b.offset, AfterOffset(a), AfterOffset(b));
    BarEnds(a.count, b.count, a.payload, b.payload);
  }

  function AfterOffset(link: Link): string {
    Decimal(link.count) + ("|" + link.payload)
  }

  function AfterKind(link: Link): string {
    Decimal(link.offset) + ("|" + AfterOffset(link))
  }

  function AfterBreak(link: Link): string {
    KindText(link.kind) + ("|" + AfterKind(link))
  }

  lemma LinkTextParts(link: Link)
    ensures LinkText(link) == "\n" + AfterBreak(link)
  {
    var o, c, p := Decimal(link.offset), Decimal(link.count), link.payload;
    var k := KindText(link.kind);
    assert "\n" + k + "|" + o + "|" + c + "|" + p == "\n" + (k + ("|" + (o + ("|" + (c + ("|" + p))))));
  }

  lemma KindSplits(a: Link, b: Link)
    requires AfterBreak(a) == AfterBreak(b)
    ensures a.kind == b.kind && AfterKind(a) == AfterKind(b)
  {
    assert AfterBreak(a)[0] == KindText(a.kind)[0] && AfterBreak(b)[0] == KindText(b.kind)[0];
    SameText(KindText(a.kind), "|" + AfterKind(a), "|" + AfterKind(b));
    SameText("|", AfterKind(a), AfterKind(b));
  }

  /** One step back: equal digests come from equal digests and equal links, or from a collision. */
  lemma StepDetermines(sha: Hash, d: Digest, e: Digest, a: Link, b: Link) returns (x: Bytes, y: Bytes)
    requires Step(sha, d, a) == Step(sha, e, b)
    ensures (d == e && a == b) || Collision(sha, x, y)
  {
    x, y := Utf8(d + LinkText(a)), Utf8(e + LinkText(b));
    if x == y {
      DecodeUtf8Inverts(d + LinkText(a));
      DecodeUtf8Inverts(e + LinkText(b));
      assert d == (d + LinkText(a))[..64] && e == (e + LinkText(b))[..64];
      SameText(d, LinkText(a), LinkText(b));
      LinkTextInjective(a, b);
    }
  }

  lemma ChainLast(sha: Hash, links: seq<Link>)
    requires links != []
    ensures Chain(sha, links) == Step(sha, Chain(sha, links[..|links| - 1]), links[|links| - 1])
  {
    var n := |links| - 1;
    assert links == links[..n] + [links[n]];
    ChainFromConcat(sha, sha([]), links[..n], [links[n]]);
    assert [links[n]][1..] == [];
  }

  /**
    Two batch lists with the same chain digest are the same list, whatever their lengths, unless
    the hash function collides; the collision is produced.
   */
  lemma {:induction false} ChainDeterminesLinks(sha: Hash, a: seq<Link>, b: seq<Link>) returns (x: Bytes, y: Bytes)
    requires Chain(sha, a) == Chain(sha, b)
    ensures a == b || Collision(sha, x, y)
    decreases |a|
  {
    hide LinkText, Utf8;
    x, y := [], [];
    if a != [] && b != [] {
      var m, n := |a| - 1, |b| - 1;
      ChainLast(sha, a);
      ChainLast(sha, b);
      x, y := StepDetermines(sha, Chain(sha, a[..m]), Chain(sha, b[..n]), a[m], b[n]);
      if !Collision(sha, x, y) {
        x, y := ChainDeterminesLinks(sha, a[..m], b[..n]);
        assert a == a[..m] + [a[m]] && b == b[..n] + [b[n]];
      }
    } else if a != [] {
      ChainLast(sha, a);
      x := Utf8(Chain(sha, a[..|a| - 1]) + LinkText(a[|a| - 1]));
      Utf8AtLeast(Chain(sha, a[..|a| - 1]) + LinkText(a[|a| - 1]));
    } else if b != [] {
      ChainLast(sha, b);
      y := Utf8(Chain(sha, b[..|b| - 1]) + LinkText(b[|b| - 1]));
      Utf8AtLeast(Chain(sha, b[..|b| - 1]) + LinkText(b[|b| - 1]));
    }
  }

  /** Batches with the same payload hash hold the same rows, up to what receipts identify. */
  lemma PayloadDetermines(sha: Hash, a: seq<Row>, b: seq<Row>) returns (x: Bytes, y: Bytes)
    requires PayloadHash(sha, a).Some? && PayloadHash(sha, a) == PayloadHash(sha, b)
    ensures Receipt.Normal(List(a)) == Receipt.Normal(List(b)) || Collision(sha, x, y)
  {
    x, y := Receipt.Encode(List(a)).value, Receipt.Encode(List(b)).value;
    if x == y { Receipt.PrefixFree(List(a), List(b), [], []); }
  }
}
