/** The earlier codec. The header and the parameter block are those of the
    current codec, but a piece carries no opcode: it is the position byte,
    the key with `psi:` stripped, a NUL, the comment, a NUL, and always the
    parameter block. Encoding cannot fail. */
module LegacyCodec {
  import opened Wrappers
  import opened SpellTypes
  import opened ByteIO
  import opened Header
  import opened ParamBlock
  import opened Fields

  // ---------------------------------------------------------------------------
  // Encoding

  /** One piece as `bin` writes it: the position byte, the stripped key and
      a NUL, the comment (nothing when absent) and a NUL, and the block. */
  function PieceBytes(p: Piece, order: ParamOrder): Bytes
    requires Encodable(p, order)
  {
    [PackXY(p.x, p.y)] + (StripPsi(p.data.key) + [NUL]) + (OrEmpty(p.data.comment) + [NUL])
      + BlockBytes(p.data.params, p.data.constant, order)
  }

  /** The pieces in turn, piece `i` with its own map's order `orders[i]`. */
  function PiecesBytes(ps: seq<Piece>, orders: seq<ParamOrder>): Bytes
    requires AllEncodable(ps, orders)
  {
    if ps == [] then [] else PieceBytes(ps[0], orders[0]) + PiecesBytes(ps[1..], orders[1..])
  }

  /** The whole of `bin`'s output: the header, then every piece. */
  function Encode(s: Spell, orders: seq<ParamOrder>): Bytes
    requires AllEncodable(s.pieces, orders)
  {
    HeaderBytes(s) + PiecesBytes(s.pieces, orders)
  }

  lemma PiecesFrom(ps: seq<Piece>, orders: seq<ParamOrder>, i: nat)
    requires i < |ps| && AllEncodable(ps, orders)
    ensures AllEncodable(ps[i..], orders[i..]) && AllEncodable(ps[i + 1..], orders[i + 1..])
    ensures PiecesBytes(ps[i..], orders[i..])
         == PieceBytes(ps[i], orders[i]) + PiecesBytes(ps[i + 1..], orders[i + 1..])
  {
    AllEncodableFrom(ps, orders, i);
    AllEncodableFrom(ps, orders, i + 1);
    assert ps[i..][1..] == ps[i + 1..];
    assert orders[i..][1..] == orders[i + 1..];
  }

  /** One piece, on the buffer. */
  method WritePiece(p: Piece, order: ParamOrder, out: ByteBuffer)
    requires Encodable(p, order)
    modifies out
    ensures out.bytes == old(out.bytes) + PieceBytes(p, order)
  {
    var key := p.data.key;
    if key[..4] == PSI {
      key := key[4..];
    }
    out.Push(PackXY(p.x, p.y));
    WriteField(key, out);
    WriteComment(p.data.comment, out);
    WriteParamBlock(p.data.params, p.data.constant, order, out);
  }

  /** A NUL-terminated field. */
  method WriteField(field: Bytes, out: ByteBuffer)
    modifies out
    ensures out.bytes == old(out.bytes) + (field + [NUL])
  {
    out.ExtendFromSlice(field);
    out.Push(NUL);
    AppendAssoc(old(out.bytes), field, [NUL]);
  }

  /** `bin`: the header and then every piece, in a fresh buffer. */
  method Bin(s: Spell, orders: seq<ParamOrder>) returns (r: Bytes)
    requires AllEncodable(s.pieces, orders)
    ensures r == Encode(s, orders)
  {
    var out := new ByteBuffer();
    WriteHeader(s, out);
    assert out.bytes == HeaderBytes(s);
    WritePieces(s.pieces, orders, out);
    return out.bytes;
  }

  /** Every piece, in order. */
  method WritePieces(ps: seq<Piece>, orders: seq<ParamOrder>, out: ByteBuffer)
    requires AllEncodable(ps, orders)
    modifies out
    ensures out.bytes == old(out.bytes) + PiecesBytes(ps, orders)
  {
    OwesAll(out.bytes, ps, orders);
    for i := 0 to |ps|
      invariant Owes(out.bytes, ps, orders, i, old(out.bytes))
    {
      WriteNextPiece(ps, orders, i, old(out.bytes), out);
    }
    assert ps[|ps|..] == [] && orders[|ps|..] == [];
  }

  /** Having written `written` after `start`, the encoding of pieces `i`
      onwards is what remains of the whole list's encoding. */
  ghost predicate Owes(written: Bytes, ps: seq<Piece>, orders: seq<ParamOrder>, i: nat, start: Bytes)
    requires i <= |ps| && AllEncodable(ps, orders)
  {
    && AllEncodable(ps[i..], orders[i..])
    && written + PiecesBytes(ps[i..], orders[i..]) == start + PiecesBytes(ps, orders)
  }

  /** Before any piece is written, the whole encoding is owed. */
  lemma OwesAll(start: Bytes, ps: seq<Piece>, orders: seq<ParamOrder>)
    requires AllEncodable(ps, orders)
    ensures Owes(start, ps, orders, 0, start)
  {
    assert ps[0..] == ps && orders[0..] == orders;
  }

  /** The loop body of WritePieces: piece `i`, keeping what is still owed. */
  method WriteNextPiece(ps: seq<Piece>, orders: seq<ParamOrder>, i: nat, ghost start: Bytes, out: ByteBuffer)
    requires i < |ps| && AllEncodable(ps, orders)
    requires Owes(out.bytes, ps, orders, i, start)
    modifies out
    ensures Owes(out.bytes, ps, orders, i + 1, start)
  {
    ghost var before := out.bytes;
    WritePiece(ps[i], orders[i], out);
    PiecesFrom(ps, orders, i);
    AppendAssoc(before, PieceBytes(ps[i], orders[i]), PiecesBytes(ps[i + 1..], orders[i + 1..]));
  }

  // ---------------------------------------------------------------------------
  // Decoding

  /** One piece: the position byte, the NUL-terminated key (namespaced), the
      NUL-terminated comment and the parameter block. */
  function DecodePieceOf(s: Bytes): (r: Result<Read<Piece>, DecodeError>)
    ensures r.Ok? ==> |r.value.rest| < |s|
  {
    var xy :- NextOf(s);
    var key := ReadUntilOf(xy.rest, NUL);
    var comment := ReadUntilOf(key.rest, NUL);
    var block :- ReadBlockOf(comment.rest);
    var pos := UnpackXY(xy.val);
    Ok(Read(Piece(SpellData(Namespaced(key.val), block.val.0, block.val.1, CommentOf(comment.val)), pos.0, pos.1),
            block.rest))
  }

  /** Pieces until the input runs out, appended to `acc`. */
  function DecodePiecesOf(s: Bytes, acc: seq<Piece>): Result<seq<Piece>, DecodeError>
    decreases |s|
  {
    if |s| == 0 then Ok(acc)
    else
      var p :- DecodePieceOf(s);
      DecodePiecesOf(p.rest, acc + [p.val])
  }

  /** `decode`: the header, then pieces until the input is exhausted. */
  function DecodeSpell(data: Bytes): Result<Spell, DecodeError> {
    var h := ReadHeaderOf(data);
    var ps :- DecodePiecesOf(h.rest, []);
    Ok(Spell(h.val.1, ps, h.val.0))
  }

  /** One piece, on the cursor. */
  method DecodePiece(cursor: Cursor) returns (r: Result<Piece, DecodeError>)
    requires cursor.pos <= |cursor.data|
    modifies cursor
    ensures cursor.pos <= |cursor.data|
    ensures Agrees(DecodePieceOf(cursor.data[old(cursor.pos)..]), r, cursor.data[cursor.pos..])
  {
    var xy :- cursor.Next();
    var x := xy / 16;
    var y := xy % 16;
    var key := cursor.ReadUntil(NUL);
    if COLON !in key {
      key := PSI + key;
    }
    var text := cursor.ReadUntil(NUL);
    var comment := if text == [] then None else Some(text);
    var block :- ReadParamBlock(cursor);
    return Ok(Piece(SpellData(key, block.0, block.1, comment), x, y));
  }

  method Decode(data: Bytes) returns (r: Result<Spell, DecodeError>)
    ensures r == DecodeSpell(data)
  {
    var cursor := new Cursor(data);
    assert cursor.data[cursor.pos..] == data;
    var name, mods := ReadHeader(cursor);
    ghost var start := cursor.pos;
    var pieces: seq<Piece> := [];
    while cursor.pos < |cursor.data|
      invariant start <= cursor.pos <= |cursor.data| && cursor.data == data
      invariant DecodePiecesOf(data[start..], []) == DecodePiecesOf(data[cursor.pos..], pieces)
      decreases |cursor.data| - cursor.pos
    {
      var p :- DecodePiece(cursor);
      pieces := pieces + [p];
    }
    return Ok(Spell(mods, pieces, name));
  }

  // ---------------------------------------------------------------------------
  // Round trip

  /** What a piece must satisfy to come back unchanged: a position that fits
      in four bits each, a NUL-free key that survives the namespace rule, a
      comment that is absent or non-empty, and a block that decodes back. */
  predicate PieceRoundTrips(p: Piece) {
    && p.x < 16 && p.y < 16
    && |p.data.key| >= 4 && NUL !in p.data.key && KeyRoundTrips(p.data.key)
    && CommentRoundTrips(p.data.comment)
    && BlockRoundTrips(p.data.params, p.data.constant)
  }

  /** How DecodePieceOf reads a piece, given its parts. */
  lemma DecodeParts(x: byte, y: byte, key: Bytes, comment: Option<Bytes>, block: Bytes,
                    params: Option<ParamMap>, constant: Option<Bytes>, t: Bytes)
    requires x < 16 && y < 16 && NUL !in key && CommentRoundTrips(comment)
    requires ReadBlockOf(block + t) == Ok(Read((params, constant), t))
    ensures DecodePieceOf([PackXY(x, y)] + (key + [NUL] + (OrEmpty(comment) + [NUL] + (block + t))))
         == Ok(Read(Piece(SpellData(Namespaced(key), params, constant, comment), x, y), t))
  {
    var afterKey := OrEmpty(comment) + [NUL] + (block + t);
    NextOfCons(PackXY(x, y), key + [NUL] + afterKey);
    ReadUntilOfField(key, NUL, afterKey);
    CommentRoundTrip(comment, block + t);
    PositionRoundTrip(x, y);
  }

  /** Piece round trip: a piece meeting PieceRoundTrips decodes back to
      itself, leaving what followed. */
  lemma PieceRoundTrip(p: Piece, order: ParamOrder, t: Bytes)
    requires Encodable(p, order) && PieceRoundTrips(p)
    ensures DecodePieceOf(PieceBytes(p, order) + t) == Ok(Read(p, t))
  {
    var d := p.data;
    var key := StripPsi(d.key);
    var block := BlockBytes(d.params, d.constant, order);
    PieceLayout(PackXY(p.x, p.y), key, OrEmpty(d.comment), block, t);
    StripPsiNoNul(d.key);
    BlockRoundTrip(d.params, d.constant, order, t);
    DecodeParts(p.x, p.y, key, d.comment, block, d.params, d.constant, t);
    NamespaceRoundTrip(d.key);
  }

  /** The piece layout, regrouped the way the decoder consumes it. */
  lemma PieceLayout(xy: byte, key: Bytes, comment: Bytes, block: Bytes, t: Bytes)
    ensures [xy] + (key + [NUL]) + (comment + [NUL]) + block + t
         == [xy] + (key + [NUL] + (comment + [NUL] + (block + t)))
  {
    AppendAssoc([xy] + (key + [NUL]) + (comment + [NUL]), block, t);
    AppendAssoc([xy] + (key + [NUL]), comment + [NUL], block + t);
    AppendAssoc([xy], key + [NUL], comment + [NUL] + (block + t));
  }

  /** Every piece of the list can be encoded with its own order and meets
      PieceRoundTrips. */
  predicate PiecesRoundTrips(ps: seq<Piece>, orders: seq<ParamOrder>) {
    && |orders| == |ps|
    && forall i | 0 <= i < |ps| :: Encodable(ps[i], orders[i]) && PieceRoundTrips(ps[i])
  }

  lemma {:induction false} PiecesRoundTrip(ps: seq<Piece>, orders: seq<ParamOrder>, acc: seq<Piece>)
    requires PiecesRoundTrips(ps, orders)
    ensures AllEncodable(ps, orders)
    ensures DecodePiecesOf(PiecesBytes(ps, orders), acc) == Ok(acc + ps)
    decreases |ps|
  {
    if ps == [] {
      assert acc + ps == acc;
    } else {
      PiecesStep(ps, orders, acc);
      PiecesRoundTripsTail(ps, orders);
      PiecesRoundTrip(ps[1..], orders[1..], acc + [ps[0]]);
      assert acc + [ps[0]] + ps[1..] == acc + ps;
    }
  }

  /** PiecesRoundTrips holds of the rest of the list. */
  lemma PiecesRoundTripsTail(ps: seq<Piece>, orders: seq<ParamOrder>)
    requires |ps| > 0 && PiecesRoundTrips(ps, orders)
    ensures PiecesRoundTrips(ps[1..], orders[1..])
  {
    forall i | 0 <= i < |ps| - 1
      ensures Encodable(ps[1..][i], orders[1..][i]) && PieceRoundTrips(ps[1..][i])
    {
      assert ps[1..][i] == ps[i + 1] && orders[1..][i] == orders[i + 1];
    }
  }

  /** The first piece of a list decodes on its own, leaving the encoding of
      the rest. */
  lemma PiecesStep(ps: seq<Piece>, orders: seq<ParamOrder>, acc: seq<Piece>)
    requires |ps| > 0 && PiecesRoundTrips(ps, orders)
    ensures AllEncodable(ps, orders) && AllEncodable(ps[1..], orders[1..])
    ensures DecodePiecesOf(PiecesBytes(ps, orders), acc)
         == DecodePiecesOf(PiecesBytes(ps[1..], orders[1..]), acc + [ps[0]])
  {
    AllEncodableFrom(ps, orders, 1);
    var rest := PiecesBytes(ps[1..], orders[1..]);
    assert Encodable(ps[0], orders[0]) && PieceRoundTrips(ps[0]);
    PieceRoundTrip(ps[0], orders[0], rest);
    DecodePiecesStep(PieceBytes(ps[0], orders[0]) + rest, acc, ps[0], rest);
  }

  /** A non-empty input whose first piece decodes goes on after that piece. */
  lemma DecodePiecesStep(s: Bytes, acc: seq<Piece>, p: Piece, t: Bytes)
    requires DecodePieceOf(s) == Ok(Read(p, t))
    ensures DecodePiecesOf(s, acc) == DecodePiecesOf(t, acc + [p])
  {
    assert |s| > 0 by {
      if |s| == 0 {
        assert |DecodePieceOf(s).value.rest| < |s|;
      }
    }
  }

  /** Spell round trip: decoding `bin`'s output gives the spell back, except
      that an empty mods list comes back as one empty mod. */
  lemma SpellRoundTrip(s: Spell, orders: seq<ParamOrder>)
    requires NUL !in s.name && ModsOk(s.mods) && PiecesRoundTrips(s.pieces, orders)
    ensures AllEncodable(s.pieces, orders)
    ensures DecodeSpell(Encode(s, orders)) == Ok(s.(mods := DecodedMods(s.mods)))
  {
    PiecesRoundTrip(s.pieces, orders, []);
    HeaderRoundTrip(s, PiecesBytes(s.pieces, orders));
    assert [] + s.pieces == s.pieces;
  }

  // ---------------------------------------------------------------------------
  // Example

  /** A spell named "Test" with no mods and one `psi:tick` piece at (1, 2)
      without parameters, constant or comment. */
  function TickSpell(): Spell {
    Spell([], [Piece(SpellData(PSI + [0x74, 0x69, 0x63, 0x6B], None, None, None), 1, 2)], [0x54, 0x65, 0x73, 0x74])
  }

  /** Its encoding: name, NUL, `]`, then position 0x12, the key without its
      namespace and a NUL, the empty comment's NUL and 254 for "no block". */
  lemma TickExample(order: ParamOrder)
    ensures Encode(TickSpell(), [order])
         == [0x54, 0x65, 0x73, 0x74, 0x00, 0x5D, 0x12, 0x74, 0x69, 0x63, 0x6B, 0x00, 0x00, 0xFE]
  {
    var p := TickSpell().pieces[0];
    assert StripPsi(p.data.key) == [0x74, 0x69, 0x63, 0x6B];
    assert PiecesBytes(TickSpell().pieces, [order]) == PieceBytes(p, order);
  }

  /** And it decodes back to the spell, with the empty mods list read as one
      empty mod. */
  lemma TickRoundTrip(order: ParamOrder)
    ensures DecodeSpell(Encode(TickSpell(), [order])) == Ok(TickSpell().(mods := [Mod([], [])]))
  {
    var p := TickSpell().pieces[0];
    assert p.data.key[..4] == PSI && COLON !in p.data.key[4..];
    SpellRoundTrip(TickSpell(), [order]);
  }
}
