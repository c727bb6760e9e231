/** What both codecs share about a piece's key and text fields: which
    pieces can be encoded, that an absent comment or constant is written as
    nothing, and that an empty comment reads back as absent. */
module Fields {
  import opened Wrappers
  import opened SpellTypes
  import opened ByteIO
  import opened ParamBlock

  /** A piece either encoder can write: its key has the four bytes that
      `key[0..4]` slices (a shorter key panics), and `order` enumerates its
      map. */
  predicate Encodable(p: Piece, order: ParamOrder) {
    |p.data.key| >= 4 && OrdersBlock(order, p.data.params)
  }

  /** Every piece of a list can be written, piece `i` in its own map's order
      `orders[i]`: each deserialized `HashMap` has a hasher state of its own,
      so equal maps in two pieces need not be visited alike. */
  predicate AllEncodable(ps: seq<Piece>, orders: seq<ParamOrder>) {
    |orders| == |ps| && forall i | 0 <= i < |ps| :: Encodable(ps[i], orders[i])
  }

  /** What holds of a list holds of its pieces from `i` on. */
  lemma AllEncodableFrom(ps: seq<Piece>, orders: seq<ParamOrder>, i: nat)
    requires i <= |ps| && AllEncodable(ps, orders)
    ensures AllEncodable(ps[i..], orders[i..])
  {
    forall j | 0 <= j < |ps| - i
      ensures Encodable(ps[i..][j], orders[i..][j])
    {
      assert ps[i..][j] == ps[i + j] && orders[i..][j] == orders[i + j];
    }
  }

  /** `if let Some(c) = c { extend_from_slice(c) }`: the field's bytes, or
      nothing. */
  function OrEmpty(b: Option<Bytes>): Bytes {
    if b.Some? then b.value else []
  }

  /** The comment when there is one, then a NUL either way. */
  method WriteComment(comment: Option<Bytes>, out: ByteBuffer)
    modifies out
    ensures out.bytes == old(out.bytes) + (OrEmpty(comment) + [NUL])
  {
    if comment.Some? {
      out.ExtendFromSlice(comment.value);
    }
    out.Push(NUL);
    AppendAssoc(old(out.bytes), OrEmpty(comment), [NUL]);
  }

  /** An empty decoded comment becomes None. */
  function CommentOf(c: Bytes): (r: Option<Bytes>)
    ensures r.None? <==> c == []
  {
    if c == [] then None else Some(c)
  }

  /** A comment survives when it is absent, or non-empty and NUL-free: an
      empty one comes back as None. */
  predicate CommentRoundTrips(c: Option<Bytes>) {
    c.None? || (c.value != [] && NUL !in c.value)
  }

  /** A comment that meets CommentRoundTrips is read back, NUL-terminated,
      as itself. */
  lemma CommentRoundTrip(c: Option<Bytes>, t: Bytes)
    requires CommentRoundTrips(c)
    ensures ReadUntilOf(OrEmpty(c) + [NUL] + t, NUL) == Read(OrEmpty(c), t)
    ensures CommentOf(OrEmpty(c)) == c
  {
    ReadUntilOfField(OrEmpty(c), NUL, t);
  }

  /** A stripped key holds no byte the key does not. */
  lemma StripPsiNoNul(key: Bytes)
    requires |key| >= 4 && NUL !in key
    ensures NUL !in StripPsi(key)
  {
    if key[..4] == PSI {
      forall i | 0 <= i < |key| - 4 ensures key[4..][i] != NUL {
        assert key[4..][i] == key[i + 4];
      }
    }
  }
}
