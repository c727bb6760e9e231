/** The current codec. After the header, each piece is a position byte, an
    opcode byte, the opcode's payload, a NUL-terminated comment and, for the
    generic opcode 255 only, the parameter block. */
module Codec {
  import opened Wrappers
  import opened SpellTypes
  import opened ByteIO
  import opened Header
  import opened ParamBlock
  import opened Fields

  // ---------------------------------------------------------------------------
  // Opcodes

  /** `SpecialTag`. Rust's `Mod` and `None` variants are called
      Modulus and NoTag here. */
  datatype SpecialTag =
    | Connector | ConstantNumber | VectorConstruct
    | VectorSum | VectorSub | VectorMul | VectorDiv
    | Sum | Sub | Mul | Div | Modulus
    | VectorExtractX | VectorExtractY | VectorExtractZ
    | EntityPosition | EntityLook | Die | ErrSuppressor | Caster
    | NoTag

  /** `special_tag as u8`. */
  function Discriminant(t: SpecialTag): byte {
    match t
    case Connector => 0
    case ConstantNumber => 1
    case VectorConstruct => 2
    case VectorSum => 3
    case VectorSub => 4
    case VectorMul => 5
    case VectorDiv => 6
    case Sum => 7
    case Sub => 8
    case Mul => 9
    case Div => 10
    case Modulus => 11
    case VectorExtractX => 12
    case VectorExtractY => 13
    case VectorExtractZ => 14
    case EntityPosition => 15
    case EntityLook => 16
    case Die => 17
    case ErrSuppressor => 18
    case Caster => 19
    case NoTag => 255
  }

  /** `TryFrom<u8> for SpecialTag`: exactly the bytes 0 to 19 and 255 name an
      opcode, and each names the one whose discriminant it is. */
  function TagOf(b: byte): (r: Result<SpecialTag, DecodeError>)
    ensures r.Ok? <==> b <= 19 || b == 255
    ensures r.Ok? ==> Discriminant(r.value) == b
    ensures r.Err? ==> r.error == InvalidDiscriminant
  {
    match b
    case 0 => Ok(Connector)
    case 1 => Ok(ConstantNumber)
    case 2 => Ok(VectorConstruct)
    case 3 => Ok(VectorSum)
    case 4 => Ok(VectorSub)
    case 5 => Ok(VectorMul)
    case 6 => Ok(VectorDiv)
    case 7 => Ok(Sum)
    case 8 => Ok(Sub)
    case 9 => Ok(Mul)
    case 10 => Ok(Div)
    case 11 => Ok(Modulus)
    case 12 => Ok(VectorExtractX)
    case 13 => Ok(VectorExtractY)
    case 14 => Ok(VectorExtractZ)
    case 15 => Ok(EntityPosition)
    case 16 => Ok(EntityLook)
    case 17 => Ok(Die)
    case 18 => Ok(ErrSuppressor)
    case 19 => Ok(Caster)
    case 255 => Ok(NoTag)
    case _ => Err(InvalidDiscriminant)
  }

  /** Every opcode's byte reads back as that opcode. */
  lemma DiscriminantRoundTrip(t: SpecialTag)
    ensures TagOf(Discriminant(t)) == Ok(t)
  {
  }

  /** The name `to_key` puts after `psi:` for each opcode but NoTag: one of
      the byte constants declared below, whose trailing comments give their
      text. */
  function TagName(t: SpecialTag): Bytes
    requires t != NoTag
  {
    match t
    case Connector => CONNECTOR_NAME
    case ConstantNumber => CONSTANT_NUMBER_NAME
    case VectorConstruct => VECTOR_CONSTRUCT_NAME
    case VectorSum => VECTOR_SUM_NAME
    case VectorSub => VECTOR_SUBTRACT_NAME
    case VectorMul => VECTOR_MULTIPLY_NAME
    case VectorDiv => VECTOR_DIVIDE_NAME
    case Sum => SUM_NAME
    case Sub => SUBTRACT_NAME
    case Mul => MULTIPLY_NAME
    case Div => DIVIDE_NAME
    case Modulus => MODULUS_NAME
    case VectorExtractX => VECTOR_EXTRACT_X_NAME
    case VectorExtractY => VECTOR_EXTRACT_Y_NAME
    case VectorExtractZ => VECTOR_EXTRACT_Z_NAME
    case EntityPosition => ENTITY_POSITION_NAME
    case EntityLook => ENTITY_LOOK_NAME
    case Die => TRICK_DIE_NAME
    case ErrSuppressor => ERROR_SUPPRESSOR_NAME
    case Caster => SELECTOR_CASTER_NAME
  }

  /** `to_key`: None exactly for NoTag; otherwise a key in the `psi:`
      namespace. */
  function ToKey(t: SpecialTag): (r: Option<Bytes>)
    ensures r.None? <==> t == NoTag
    ensures r.Some? ==> |r.value| >= 4 && r.value[..4] == PSI
  {
    if t == NoTag then None
    else
      var k := PSI + TagName(t);
      assert k[..4] == PSI;
      Some(k)
  }

  /** The three names the encoder gives an opcode of their own. */
  const CONNECTOR_NAME: Bytes := [0x63, 0x6F, 0x6E, 0x6E, 0x65, 0x63, 0x74, 0x6F, 0x72]  // "connector"
  const CONSTANT_NUMBER_NAME: Bytes := [0x63, 0x6F, 0x6E, 0x73, 0x74, 0x61, 0x6E, 0x74, 0x5F, 0x6E, 0x75, 0x6D, 0x62, 0x65, 0x72]  // "constant_number"
  const VECTOR_CONSTRUCT_NAME: Bytes := [0x6F, 0x70, 0x65, 0x72, 0x61, 0x74, 0x6F, 0x72, 0x5F, 0x76, 0x65, 0x63, 0x74, 0x6F, 0x72, 0x5F, 0x63, 0x6F, 0x6E, 0x73, 0x74, 0x72, 0x75, 0x63, 0x74]  // "operator_vector_construct"
  const VECTOR_SUM_NAME: Bytes := [0x6F, 0x70, 0x65, 0x72, 0x61, 0x74, 0x6F, 0x72, 0x5F, 0x76, 0x65, 0x63, 0x74, 0x6F, 0x72, 0x5F, 0x73, 0x75, 0x6D]  // "operator_vector_sum"
  const VECTOR_SUBTRACT_NAME: Bytes := [0x6F, 0x70, 0x65, 0x72, 0x61, 0x74, 0x6F, 0x72, 0x5F, 0x76, 0x65, 0x63, 0x74, 0x6F, 0x72, 0x5F, 0x73, 0x75, 0x62, 0x74, 0x72, 0x61, 0x63, 0x74]  // "operator_vector_subtract"
  const VECTOR_MULTIPLY_NAME: Bytes := [0x6F, 0x70, 0x65, 0x72, 0x61, 0x74, 0x6F, 0x72, 0x5F, 0x76, 0x65, 0x63, 0x74, 0x6F, 0x72, 0x5F, 0x6D, 0x75, 0x6C, 0x74, 0x69, 0x70, 0x6C, 0x79]  // "operator_vector_multiply"
  const VECTOR_DIVIDE_NAME: Bytes := [0x6F, 0x70, 0x65, 0x72, 0x61, 0x74, 0x6F, 0x72, 0x5F, 0x76, 0x65, 0x63, 0x74, 0x6F, 0x72, 0x5F, 0x64, 0x69, 0x76, 0x69, 0x64, 0x65]  // "operator_vector_divide"
  const SUM_NAME: Bytes := [0x6F, 0x70, 0x65, 0x72, 0x61, 0x74, 0x6F, 0x72, 0x5F, 0x73, 0x75, 0x6D]  // "operator_sum"
  const SUBTRACT_NAME: Bytes := [0x6F, 0x70, 0x65, 0x72, 0x61, 0x74, 0x6F, 0x72, 0x5F, 0x73, 0x75, 0x62, 0x74, 0x72, 0x61, 0x63, 0x74]  // "operator_subtract"
  const MULTIPLY_NAME: Bytes := [0x6F, 0x70, 0x65, 0x72, 0x61, 0x74, 0x6F, 0x72, 0x5F, 0x6D, 0x75, 0x6C, 0x74, 0x69, 0x70, 0x6C, 0x79]  // "operator_multiply"
  const DIVIDE_NAME: Bytes := [0x6F, 0x70, 0x65, 0x72, 0x61, 0x74, 0x6F, 0x72, 0x5F, 0x64, 0x69, 0x76, 0x69, 0x64, 0x65]  // "operator_divide"
  const MODULUS_NAME: Bytes := [0x6F, 0x70, 0x65, 0x72, 0x61, 0x74, 0x6F, 0x72, 0x5F, 0x6D, 0x6F, 0x64, 0x75, 0x6C, 0x75, 0x73]  // "operator_modulus"
  const VECTOR_EXTRACT_X_NAME: Bytes := [0x6F, 0x70, 0x65, 0x72, 0x61, 0x74, 0x6F, 0x72, 0x5F, 0x76, 0x65, 0x63, 0x74, 0x6F, 0x72, 0x5F, 0x65, 0x78, 0x74, 0x72, 0x61, 0x63, 0x74, 0x5F, 0x78]  // "operator_vector_extract_x"
  const VECTOR_EXTRACT_Y_NAME: Bytes := [0x6F, 0x70, 0x65, 0x72, 0x61, 0x74, 0x6F, 0x72, 0x5F, 0x76, 0x65, 0x63, 0x74, 0x6F, 0x72, 0x5F, 0x65, 0x78, 0x74, 0x72, 0x61, 0x63, 0x74, 0x5F, 0x79]  // "operator_vector_extract_y"
  const VECTOR_EXTRACT_Z_NAME: Bytes := [0x6F, 0x70, 0x65, 0x72, 0x61, 0x74, 0x6F, 0x72, 0x5F, 0x76, 0x65, 0x63, 0x74, 0x6F, 0x72, 0x5F, 0x65, 0x78, 0x74, 0x72, 0x61, 0x63, 0x74, 0x5F, 0x7A]  // "operator_vector_extract_z"
  const ENTITY_POSITION_NAME: Bytes := [0x6F, 0x70, 0x65, 0x72, 0x61, 0x74, 0x6F, 0x72, 0x5F, 0x65, 0x6E, 0x74, 0x69, 0x74, 0x79, 0x5F, 0x70, 0x6F, 0x73, 0x69, 0x74, 0x69, 0x6F, 0x6E]  // "operator_entity_position"
  const ENTITY_LOOK_NAME: Bytes := [0x6F, 0x70, 0x65, 0x72, 0x61, 0x74, 0x6F, 0x72, 0x5F, 0x65, 0x6E, 0x74, 0x69, 0x74, 0x79, 0x5F, 0x6C, 0x6F, 0x6F, 0x6B]  // "operator_entity_look"
  const TRICK_DIE_NAME: Bytes := [0x74, 0x72, 0x69, 0x63, 0x6B, 0x5F, 0x64, 0x69, 0x65]  // "trick_die"
  const ERROR_SUPPRESSOR_NAME: Bytes := [0x65, 0x72, 0x72, 0x6F, 0x72, 0x5F, 0x73, 0x75, 0x70, 0x70, 0x72, 0x65, 0x73, 0x73, 0x6F, 0x72]  // "error_suppressor"
  const SELECTOR_CASTER_NAME: Bytes := [0x73, 0x65, 0x6C, 0x65, 0x63, 0x74, 0x6F, 0x72, 0x5F, 0x63, 0x61, 0x73, 0x74, 0x65, 0x72]  // "selector_caster"

  /** The encoder's own `match key`: only three names get an opcode of their
      own, every other key is written with opcode 255. */
  function EncoderTag(key: Bytes): (r: SpecialTag)
    ensures r == Connector || r == ConstantNumber || r == VectorConstruct || r == NoTag
  {
    if key == CONNECTOR_NAME then Connector
    else if key == CONSTANT_NUMBER_NAME then ConstantNumber
    else if key == VECTOR_CONSTRUCT_NAME then VectorConstruct
    else NoTag
  }

  /** The encoder gives an opcode of its own exactly to the `to_key` names
      of opcodes 0 to 2, and recognises each of them. */
  lemma EncoderTagNames(key: Bytes)
    ensures EncoderTag(key) != NoTag ==> TagName(EncoderTag(key)) == key
    ensures EncoderTag(TagName(Connector)) == Connector
    ensures EncoderTag(TagName(ConstantNumber)) == ConstantNumber
    ensures EncoderTag(TagName(VectorConstruct)) == VectorConstruct
  {
    assert |CONNECTOR_NAME| == 9;
    assert |CONSTANT_NUMBER_NAME| == 15;
    assert |VECTOR_CONSTRUCT_NAME| == 25;
  }

  /** Opcodes 0 to 2 are written without a parameter block. */
  predicate BlockFree(t: SpecialTag) {
    t == Connector || t == ConstantNumber || t == VectorConstruct
  }

  /** The parameters an opcode's payload carries as bare side bytes, in the
      order written and read. ConstantNumber and NoTag have payloads of their
      own instead. */
  function FixedParams(t: SpecialTag): seq<Bytes> {
    match t
    case Connector | VectorExtractX | VectorExtractY | VectorExtractZ
      | EntityPosition | EntityLook | Die => [BuiltinParam(0)] // _target
    case VectorConstruct => [BuiltinParam(14), BuiltinParam(15), BuiltinParam(16)] // _x, _y, _z
    case VectorSum | VectorSub | VectorMul | VectorDiv => [BuiltinParam(6), BuiltinParam(7), BuiltinParam(8)] // _vector1 to _vector3
    case Sum | Sub | Mul | Div => [BuiltinParam(2), BuiltinParam(3), BuiltinParam(4)] // _number1 to _number3
    case Modulus => [BuiltinParam(2), BuiltinParam(3)] // _number1, _number2
    case ConstantNumber | ErrSuppressor | Caster | NoTag => []
  }

  // ---------------------------------------------------------------------------
  // Encoding

  /** `MissingParamError`: position and key of the piece, and the parameter
      the message names. */
  datatype EncodeError = MissingParam(x: byte, y: byte, piece: Bytes, param: Bytes)

  /** `get_param`: the side byte stored under `key`. The error is the same
      whichever parameter is missing: it always names `_target`. */
  function GetParam(p: Piece, key: Bytes): (r: Result<byte, EncodeError>)
    ensures r.Ok? <==> p.data.params.Some? && key in p.data.params.value
    ensures r.Ok? ==> r.value == p.data.params.value[key]
    ensures r.Err? ==> r.error == MissingParam(p.x, p.y, p.data.key, BuiltinParam(0))
  {
    var err := MissingParam(p.x, p.y, p.data.key, BuiltinParam(0));
    match p.data.params
    case None => Err(err)
    case Some(m) => if key in m then Ok(m[key]) else Err(err)
  }

  /** What an encoding step leaves in the buffer, and whether it gave up;
      a failed step leaves what it had already written. */
  datatype Emission = Emission(bytes: Bytes, outcome: Outcome<EncodeError>)

  function Done(b: Bytes): Emission {
    Emission(b, Pass)
  }

  /** `a` and then, unless `a` failed, `b`. */
  function Then(a: Emission, b: Emission): Emission {
    if a.outcome.Fail? then a else Emission(a.bytes + b.bytes, b.outcome)
  }

  /** One side byte per name, stopping at the first missing one. */
  function EmitSides(p: Piece, names: seq<Bytes>): Emission
    decreases |names|
  {
    if names == [] then Done([])
    else
      match GetParam(p, names[0])
      case Err(e) => Emission([], Fail(e))
      case Ok(b) => Then(Done([b]), EmitSides(p, names[1..]))
  }

  /** The opcode's payload: the constant for ConstantNumber, the stripped key
      for NoTag, the side bytes of its fixed parameters otherwise. */
  function Payload(p: Piece, tag: SpecialTag, key: Bytes): Emission {
    match tag
    case ConstantNumber => Done(OrEmpty(p.data.constant) + [NUL])
    case NoTag => Done(key + [NUL])
    case _ => EmitSides(p, FixedParams(tag))
  }

  /** What follows the payload: the comment, NUL and, unless the opcode is
      one of 0 to 2, the parameter block. */
  function PieceTail(p: Piece, tag: SpecialTag, order: ParamOrder): Bytes
    requires OrdersBlock(order, p.data.params)
  {
    OrEmpty(p.data.comment) + [NUL]
      + if BlockFree(tag) then [] else BlockBytes(p.data.params, p.data.constant, order)
  }

  /** One piece: position, opcode, payload and tail. */
  function EmitPiece(p: Piece, order: ParamOrder): Emission
    requires Encodable(p, order)
  {
    var key := StripPsi(p.data.key);
    var tag := EncoderTag(key);
    Then(Done([PackXY(p.x, p.y), Discriminant(tag)]), PieceBody(p, tag, key, order))
  }

  /** A piece after its position and opcode bytes: the payload and, unless
      that failed, the tail. */
  function PieceBody(p: Piece, tag: SpecialTag, key: Bytes, order: ParamOrder): Emission
    requires OrdersBlock(order, p.data.params)
  {
    Then(Payload(p, tag, key), Done(PieceTail(p, tag, order)))
  }

  /** The pieces in turn, piece `i` with its own map's order `orders[i]`. */
  function EmitPieces(ps: seq<Piece>, orders: seq<ParamOrder>): Emission
    requires AllEncodable(ps, orders)
  {
    if ps == [] then Done([]) else Then(EmitPiece(ps[0], orders[0]), EmitPieces(ps[1..], orders[1..]))
  }

  /** `extend_bin`'s output: the header, then the pieces in order. */
  function Encode(s: Spell, orders: seq<ParamOrder>): Emission
    requires AllEncodable(s.pieces, orders)
  {
    Then(Done(HeaderBytes(s)), EmitPieces(s.pieces, orders))
  }

  lemma SidesFrom(p: Piece, names: seq<Bytes>, i: nat)
    requires i < |names| && GetParam(p, names[i]).Ok?
    ensures EmitSides(p, names[i..]) == Then(Done([GetParam(p, names[i]).value]), EmitSides(p, names[i + 1..]))
  {
    assert names[i..][1..] == names[i + 1..];
  }

  /** The side bytes of `names`, on the buffer. */
  method WriteSides(p: Piece, names: seq<Bytes>, out: ByteBuffer) returns (o: Outcome<EncodeError>)
    modifies out
    ensures out.bytes == old(out.bytes) + EmitSides(p, names).bytes
    ensures o == EmitSides(p, names).outcome
  {
    ghost var start := out.bytes;
    for i := 0 to |names|
      invariant out.bytes + EmitSides(p, names[i..]).bytes == start + EmitSides(p, names).bytes
      invariant EmitSides(p, names[i..]).outcome == EmitSides(p, names).outcome
    {
      var side := GetParam(p, names[i]);
      if side.Err? {
        assert names[i..] != [];
        return Fail(side.error);
      }
      ghost var before := out.bytes;
      out.Push(side.value);
      SidesFrom(p, names, i);
      AppendAssoc(before, [side.value], EmitSides(p, names[i + 1..]).bytes);
    }
    assert names[|names|..] == [];
    o := Pass;
  }

  method WritePayload(p: Piece, tag: SpecialTag, key: Bytes, out: ByteBuffer) returns (o: Outcome<EncodeError>)
    modifies out
    ensures out.bytes == old(out.bytes) + Payload(p, tag, key).bytes
    ensures o == Payload(p, tag, key).outcome
  {
    match tag
    case ConstantNumber =>
      if p.data.constant.Some? {
        out.ExtendFromSlice(p.data.constant.value);
      }
      out.Push(NUL);
      o := Pass;
    case NoTag =>
      out.ExtendFromSlice(key);
      out.Push(NUL);
      o := Pass;
    case _ =>
      o := WriteSides(p, FixedParams(tag), out);
  }

  method WriteTail(p: Piece, tag: SpecialTag, order: ParamOrder, out: ByteBuffer)
    requires OrdersBlock(order, p.data.params)
    modifies out
    ensures out.bytes == old(out.bytes) + PieceTail(p, tag, order)
  {
    WriteComment(p.data.comment, out);
    if BlockFree(tag) {
      assert PieceTail(p, tag, order) == OrEmpty(p.data.comment) + [NUL];
      return;
    }
    WriteParamBlock(p.data.params, p.data.constant, order, out);
    AppendAssoc(old(out.bytes), OrEmpty(p.data.comment) + [NUL], BlockBytes(p.data.params, p.data.constant, order));
  }

  /** Payload and tail, on the buffer. */
  method WriteBody(p: Piece, tag: SpecialTag, key: Bytes, order: ParamOrder, out: ByteBuffer) returns (o: Outcome<EncodeError>)
    requires OrdersBlock(order, p.data.params)
    modifies out
    ensures out.bytes == old(out.bytes) + PieceBody(p, tag, key, order).bytes
    ensures o == PieceBody(p, tag, key, order).outcome
  {
    o := WritePayload(p, tag, key, out);
    if o.Fail? {
      return;
    }
    WriteTail(p, tag, order, out);
    AppendAssoc(old(out.bytes), Payload(p, tag, key).bytes, PieceTail(p, tag, order));
  }

  /** One piece, on the buffer. */
  method WritePiece(p: Piece, order: ParamOrder, out: ByteBuffer) returns (o: Outcome<EncodeError>)
    requires Encodable(p, order)
    modifies out
    ensures out.bytes == old(out.bytes) + EmitPiece(p, order).bytes
    ensures o == EmitPiece(p, order).outcome
  {
    var key := p.data.key;
    if key[..4] == PSI {
      key := key[4..];
    }
    assert key == StripPsi(p.data.key);
    var tag := EncoderTag(key);
    out.Push(PackXY(p.x, p.y));
    out.Push(Discriminant(tag));
    ghost var head := [PackXY(p.x, p.y), Discriminant(tag)];
    assert out.bytes == old(out.bytes) + head;
    o := WriteBody(p, tag, key, order, out);
    AppendAssoc(old(out.bytes), head, PieceBody(p, tag, key, order).bytes);
  }

  lemma PiecesFrom(ps: seq<Piece>, orders: seq<ParamOrder>, i: nat)
    requires i < |ps| && AllEncodable(ps, orders)
    ensures AllEncodable(ps[i..], orders[i..]) && AllEncodable(ps[i + 1..], orders[i + 1..])
    ensures EmitPieces(ps[i..], orders[i..])
         == Then(EmitPiece(ps[i], orders[i]), EmitPieces(ps[i + 1..], orders[i + 1..]))
  {
    AllEncodableFrom(ps, orders, i);
    AllEncodableFrom(ps, orders, i + 1);
    assert ps[i..][1..] == ps[i + 1..];
    assert orders[i..][1..] == orders[i + 1..];
  }

  /** `extend_bin`: appends the encoding to `out`, leaving the bytes already
      there alone; on a missing parameter it stops, and what it wrote so far
      stays. */
  method ExtendBin(s: Spell, orders: seq<ParamOrder>, out: ByteBuffer) returns (o: Outcome<EncodeError>)
    requires AllEncodable(s.pieces, orders)
    modifies out
    ensures out.bytes == old(out.bytes) + Encode(s, orders).bytes
    ensures o == Encode(s, orders).outcome
  {
    WriteHeader(s, out);
    o := WritePieces(s.pieces, orders, out);
    EncodeLayout(s, orders, old(out.bytes));
  }

  /** The pieces in turn, stopping at the first that fails. */
  method WritePieces(ps: seq<Piece>, orders: seq<ParamOrder>, out: ByteBuffer) returns (o: Outcome<EncodeError>)
    requires AllEncodable(ps, orders)
    modifies out
    ensures out.bytes == old(out.bytes) + EmitPieces(ps, orders).bytes
    ensures o == EmitPieces(ps, orders).outcome
  {
    OwesAll(out.bytes, ps, orders);
    for i := 0 to |ps|
      invariant Owes(out.bytes, ps, orders, i, old(out.bytes))
    {
      o := WriteNextPiece(ps, orders, i, old(out.bytes), out);
      if o.Fail? {
        return;
      }
    }
    o := Pass;
    OwesNothing(out.bytes, ps, orders, old(out.bytes));
  }

  /** Having written `written` after `start`, the encoding of pieces `i`
      onwards is what remains of the whole list's encoding. */
  ghost predicate Owes(written: Bytes, ps: seq<Piece>, orders: seq<ParamOrder>, i: nat, start: Bytes)
    requires i <= |ps| && AllEncodable(ps, orders)
  {
    && AllEncodable(ps[i..], orders[i..])
    && written + EmitPieces(ps[i..], orders[i..]).bytes == start + EmitPieces(ps, orders).bytes
    && EmitPieces(ps[i..], orders[i..]).outcome == EmitPieces(ps, orders).outcome
  }

  /** Before any piece is written, the whole encoding is owed. */
  lemma OwesAll(start: Bytes, ps: seq<Piece>, orders: seq<ParamOrder>)
    requires AllEncodable(ps, orders)
    ensures Owes(start, ps, orders, 0, start)
  {
    assert ps[0..] == ps && orders[0..] == orders;
  }

  /** Once every piece is written, nothing is owed and nothing failed. */
  lemma OwesNothing(written: Bytes, ps: seq<Piece>, orders: seq<ParamOrder>, start: Bytes)
    requires AllEncodable(ps, orders)
    requires Owes(written, ps, orders, |ps|, start)
    ensures written == start + EmitPieces(ps, orders).bytes
    ensures EmitPieces(ps, orders).outcome == Pass
  {
    assert ps[|ps|..] == [];
  }

  /** One turn of WritePieces' loop: piece `i`, written where the encoding
      of pieces `i` onwards is still owed. */
  method WriteNextPiece(ps: seq<Piece>, orders: seq<ParamOrder>, i: nat, ghost start: Bytes, out: ByteBuffer)
      returns (o: Outcome<EncodeError>)
    requires i < |ps| && AllEncodable(ps, orders)
    requires Owes(out.bytes, ps, orders, i, start)
    modifies out
    ensures o.Fail? ==> out.bytes == start + EmitPieces(ps, orders).bytes && o == EmitPieces(ps, orders).outcome
    ensures o.Pass? ==> Owes(out.bytes, ps, orders, i + 1, start)
  {
    ghost var before := out.bytes;
    o := WritePiece(ps[i], orders[i], out);
    PiecesFrom(ps, orders, i);
    ThenStep(EmitPiece(ps[i], orders[i]), EmitPieces(ps[i + 1..], orders[i + 1..]), EmitPieces(ps, orders), before, start);
  }

  /** The spell's encoding: its header, then its pieces. */
  lemma EncodeLayout(s: Spell, orders: seq<ParamOrder>, prefix: Bytes)
    requires AllEncodable(s.pieces, orders)
    ensures prefix + Encode(s, orders).bytes == (prefix + HeaderBytes(s)) + EmitPieces(s.pieces, orders).bytes
    ensures Encode(s, orders).outcome == EmitPieces(s.pieces, orders).outcome
  {
    AppendAssoc(prefix, HeaderBytes(s), EmitPieces(s.pieces, orders).bytes);
  }

  /** After writing `a` where `Then(a, b)` was still owed: if `a` failed,
      nothing more is owed; otherwise `b` is. */
  lemma ThenStep(a: Emission, b: Emission, total: Emission, before: Bytes, start: Bytes)
    requires before + Then(a, b).bytes == start + total.bytes
    requires Then(a, b).outcome == total.outcome
    ensures a.outcome.Fail? ==> before + a.bytes == start + total.bytes && a.outcome == total.outcome
    ensures a.outcome.Pass? ==> (before + a.bytes) + b.bytes == start + total.bytes && b.outcome == total.outcome
  {
    AppendAssoc(before, a.bytes, b.bytes);
  }

  /** `bin`: `extend_bin` on an empty buffer. */
  method Bin(s: Spell, orders: seq<ParamOrder>) returns (r: Result<Bytes, EncodeError>)
    requires AllEncodable(s.pieces, orders)
    ensures Encode(s, orders).outcome.Pass? ==> r == Ok(Encode(s, orders).bytes)
    ensures Encode(s, orders).outcome.Fail? ==> r == Err(Encode(s, orders).outcome.error)
  {
    var out := new ByteBuffer();
    var o := ExtendBin(s, orders, out);
    assert out.bytes == Encode(s, orders).bytes;
    if o.Fail? {
      return Err(o.error);
    }
    return Ok(out.bytes);
  }

  /** At most one side byte per name. */
  lemma {:induction false} SidesLen(p: Piece, names: seq<Bytes>)
    ensures |EmitSides(p, names).bytes| <= |names|
    decreases |names|
  {
    if names != [] && GetParam(p, names[0]).Ok? {
      SidesLen(p, names[1..]);
    }
  }

  /** Under the generic opcode a piece body is the key, a NUL, the comment,
      a NUL and the block. */
  lemma GenericBodyLen(p: Piece, key: Bytes, order: ParamOrder)
    requires OrdersBlock(order, p.data.params)
    ensures |PieceBody(p, NoTag, key, order).bytes|
         == |key| + |OrEmpty(p.data.comment)| + 2 + |BlockBytes(p.data.params, p.data.constant, order)|
  {
    assert Payload(p, NoTag, key) == Done(key + [NUL]);
  }

  /** Under opcodes 0 to 2 a piece body is at most the payload, the comment
      and a NUL. */
  lemma BlockFreeBodyLen(p: Piece, tag: SpecialTag, key: Bytes, order: ParamOrder)
    requires OrdersBlock(order, p.data.params) && BlockFree(tag)
    ensures |PieceBody(p, tag, key, order).bytes| <= |Payload(p, tag, key).bytes| + |OrEmpty(p.data.comment)| + 1
  {
    assert PieceTail(p, tag, order) == OrEmpty(p.data.comment) + [NUL];
  }

  /** Tag minimality: a piece with the shape of one of opcodes 0 to 2 is
      written shorter under that opcode than under the generic one, which
      spells out the key and always adds a block. */
  lemma TagMinimal(p: Piece, key: Bytes, order: ParamOrder)
    requires OrdersBlock(order, p.data.params)
    requires EncoderTag(key) != NoTag && PayloadRoundTrips(p.data, EncoderTag(key))
    ensures |PieceBody(p, EncoderTag(key), key, order).bytes| < |PieceBody(p, NoTag, key, order).bytes|
  {
    var tag := EncoderTag(key);
    assert |key| >= 9;
    GenericBodyLen(p, key, order);
    BlockFreeBodyLen(p, tag, key, order);
    BlockLen(p.data.params, p.data.constant, order);
    if tag == ConstantNumber {
      assert |Payload(p, tag, key).bytes| == |p.data.constant.value| + 1;
    } else {
      SidesLen(p, FixedParams(tag));
    }
  }

  // ---------------------------------------------------------------------------
  // Decoding

  /** The piece's key: `to_key` for an opcode that has one; otherwise read up
      to NUL and put in the `psi:` namespace when it names none. */
  function KeyOf(tag: SpecialTag, s: Bytes): (r: Read<Bytes>)
    ensures |r.rest| <= |s|
  {
    match ToKey(tag)
    case Some(k) => Read(k, s)
    case None =>
      var k := ReadUntilOf(s, NUL);
      Read(Namespaced(k.val), k.rest)
  }

  /** One side byte per name, each inserted into `acc` under that name. */
  function ReadSidesOf(s: Bytes, names: seq<Bytes>, acc: ParamMap): (r: Result<Read<ParamMap>, DecodeError>)
    ensures r.Ok? ==> |r.value.rest| <= |s|
    decreases |names|
  {
    if names == [] then Ok(Read(acc, s))
    else
      var b :- NextOf(s);
      ReadSidesOf(b.rest, names[1..], acc[names[0] := b.val])
  }

  /** The opcode's payload after the key: the constant up to NUL for
      ConstantNumber, the fixed parameters' side bytes otherwise. */
  function FixedOf(tag: SpecialTag, s: Bytes): (r: Result<Read<(ParamMap, Option<Bytes>)>, DecodeError>)
    ensures r.Ok? ==> |r.value.rest| <= |s|
  {
    if tag == ConstantNumber then
      var c := ReadUntilOf(s, NUL);
      Ok(Read((map[], Some(c.val)), c.rest))
    else
      var m :- ReadSidesOf(s, FixedParams(tag), map[]);
      Ok(Read((m.val, None), m.rest))
  }

  /** A piece after its position and opcode bytes: key, fixed payload,
      comment and, for NoTag only, the parameter block. */
  function DecodeBodyOf(pos: (byte, byte), tag: SpecialTag, s: Bytes): (r: Result<Read<Piece>, DecodeError>)
    ensures r.Ok? ==> |r.value.rest| <= |s|
  {
    var key := KeyOf(tag, s);
    var fixed :- FixedOf(tag, key.rest);
    var comment := ReadUntilOf(fixed.rest, NUL);
    if tag != NoTag then
      Ok(Read(Piece(SpellData(key.val, NonEmpty(fixed.val.0), fixed.val.1, CommentOf(comment.val)), pos.0, pos.1),
              comment.rest))
    else
      var block :- ReadBlockOf(comment.rest);
      Ok(Read(Piece(SpellData(key.val, block.val.0, block.val.1, CommentOf(comment.val)), pos.0, pos.1),
              block.rest))
  }

  /** One piece of the decoder's loop. */
  function DecodePieceOf(s: Bytes): (r: Result<Read<Piece>, DecodeError>)
    ensures r.Ok? ==> |r.value.rest| < |s|
  {
    var xy :- NextOf(s);
    var op :- NextOf(xy.rest);
    var tag :- TagOf(op.val);
    DecodeBodyOf(UnpackXY(xy.val), tag, op.rest)
  }

  /** Pieces until the input runs out, appended to `acc`. */
  function DecodePiecesOf(s: Bytes, acc: seq<Piece>): Result<seq<Piece>, DecodeError>
    decreases |s|
  {
    if |s| == 0 then Ok(acc)
    else
      var p :- DecodePieceOf(s);
      DecodePiecesOf(p.rest, acc + [p.val])
  }

  /** `decode`: the header, then pieces to the end of input. */
  function DecodeSpell(data: Bytes): Result<Spell, DecodeError> {
    var h := ReadHeaderOf(data);
    var ps :- DecodePiecesOf(h.rest, []);
    Ok(Spell(h.val.1, ps, h.val.0))
  }

  method ReadKey(cursor: Cursor, tag: SpecialTag) returns (key: Bytes)
    requires cursor.pos <= |cursor.data|
    modifies cursor
    ensures cursor.pos <= |cursor.data|
    ensures KeyOf(tag, cursor.data[old(cursor.pos)..]) == Read(key, cursor.data[cursor.pos..])
  {
    var k := ToKey(tag);
    if k.Some? {
      return k.value;
    }
    key := cursor.ReadUntil(NUL);
    if COLON !in key {
      key := PSI + key;
    }
  }

  method ReadSides(cursor: Cursor, names: seq<Bytes>) returns (r: Result<ParamMap, DecodeError>)
    requires cursor.pos <= |cursor.data|
    modifies cursor
    ensures cursor.pos <= |cursor.data|
    ensures Agrees(ReadSidesOf(cursor.data[old(cursor.pos)..], names, map[]), r, cursor.data[cursor.pos..])
  {
    ghost var start := cursor.pos;
    var params: ParamMap := map[];
    for i := 0 to |names|
      invariant cursor.pos <= |cursor.data|
      invariant ReadSidesOf(cursor.data[start..], names, map[])
             == ReadSidesOf(cursor.data[cursor.pos..], names[i..], params)
    {
      assert names[i..][1..] == names[i + 1..];
      var side :- cursor.Next();
      params := params[names[i] := side];
    }
    assert names[|names|..] == [];
    return Ok(params);
  }

  method ReadFixed(cursor: Cursor, tag: SpecialTag) returns (r: Result<(ParamMap, Option<Bytes>), DecodeError>)
    requires cursor.pos <= |cursor.data|
    modifies cursor
    ensures cursor.pos <= |cursor.data|
    ensures Agrees(FixedOf(tag, cursor.data[old(cursor.pos)..]), r, cursor.data[cursor.pos..])
  {
    if tag == ConstantNumber {
      var c := cursor.ReadUntil(NUL);
      return Ok((map[], Some(c)));
    }
    var params :- ReadSides(cursor, FixedParams(tag));
    return Ok((params, None));
  }

  /** One piece, on the cursor. */
  method DecodePiece(cursor: Cursor) returns (r: Result<Piece, DecodeError>)
    requires cursor.pos <= |cursor.data|
    modifies cursor
    ensures cursor.pos <= |cursor.data|
    ensures Agrees(DecodePieceOf(cursor.data[old(cursor.pos)..]), r, cursor.data[cursor.pos..])
  {
    var xy :- cursor.Next();
    var x := xy / 16;
    var y := xy % 16;
    var op :- cursor.Next();
    var tag :- TagOf(op);
    var key := ReadKey(cursor, tag);
    var fixed :- ReadFixed(cursor, tag);
    var text := cursor.ReadUntil(NUL);
    var comment := if text == [] then None else Some(text);
    if tag != NoTag {
      return Ok(Piece(SpellData(key, NonEmpty(fixed.0), fixed.1, comment), x, y));
    }
    var block :- ReadParamBlock(cursor);
    return Ok(Piece(SpellData(key, block.0, block.1, comment), x, y));
  }

  /** `decode`, on a cursor over `data`. */
  method Decode(data: Bytes) returns (r: Result<Spell, DecodeError>)
    ensures r == DecodeSpell(data)
  {
    var cursor := new Cursor(data);
    assert cursor.data[cursor.pos..] == data;
    var name, mods := ReadHeader(cursor);
    ghost var start := cursor.pos;
    var pieces: seq<Piece> := [];
    while cursor.pos < |cursor.data|
      invariant start <= cursor.pos <= |cursor.data| && cursor.data == data
      invariant DecodePiecesOf(data[start..], []) == DecodePiecesOf(data[cursor.pos..], pieces)
      decreases |cursor.data| - cursor.pos
    {
      var p :- DecodePiece(cursor);
      pieces := pieces + [p];
    }
    return Ok(Spell(mods, pieces, name));
  }

  // ---------------------------------------------------------------------------
  // Round trip

  /** What a piece with opcode 0 to 2 must carry to come back unchanged:
      for constant_number no map and a NUL-free constant; for the other two
      no constant and a map whose keys are exactly the opcode's fixed
      parameters. */
  predicate PayloadRoundTrips(d: SpellData, tag: SpecialTag) {
    if tag == ConstantNumber then
      d.params.None? && d.constant.Some? && NUL !in d.constant.value
    else
      && d.constant.None? && d.params.Some?
      && (forall k | k in d.params.value :: k in FixedParams(tag))
      && (forall i | 0 <= i < |FixedParams(tag)| :: FixedParams(tag)[i] in d.params.value)
  }

  /** What a piece must satisfy to decode back to itself. A piece the
      encoder gives an opcode of 0 to 2 must have exactly the key `to_key`
      gives back; any other piece needs a key that survives namespacing and
      a block that survives the block round trip. */
  predicate PieceRoundTrips(p: Piece) {
    && p.x < 16 && p.y < 16
    && |p.data.key| >= 4 && NUL !in p.data.key
    && CommentRoundTrips(p.data.comment)
    && var tag := EncoderTag(StripPsi(p.data.key));
       if tag == NoTag then
         KeyRoundTrips(p.data.key) && BlockRoundTrips(p.data.params, p.data.constant)
       else
         ToKey(tag) == Some(p.data.key) && PayloadRoundTrips(p.data, tag)
  }

  /** The side bytes written for `names` read back into `acc` as those
      names with their sides. */
  lemma {:induction false} SidesRoundTrip(p: Piece, names: seq<Bytes>, acc: ParamMap, t: Bytes)
    requires p.data.params.Some?
    requires forall i | 0 <= i < |names| :: names[i] in p.data.params.value
    ensures EmitSides(p, names).outcome == Pass
    ensures ReadSidesOf(EmitSides(p, names).bytes + t, names, acc)
         == Ok(Read(Inserted(acc, p.data.params.value, names), t))
    decreases |names|
  {
    if names == [] {
      assert EmitSides(p, names).bytes + t == t;
    } else {
      var m := p.data.params.value;
      var b := m[names[0]];
      var rest := EmitSides(p, names[1..]);
      SidesRoundTrip(p, names[1..], acc[names[0] := b], t);
      assert EmitSides(p, names) == Emission([b] + rest.bytes, rest.outcome);
      assert EmitSides(p, names).bytes + t == [b] + (rest.bytes + t);
      NextOfCons(b, rest.bytes + t);
    }
  }

  /** Where a piece that encodes without error puts its parts. */
  lemma EmitPieceLayout(p: Piece, order: ParamOrder)
    requires Encodable(p, order)
    ensures var key := StripPsi(p.data.key);
            var tag := EncoderTag(key);
            var pay := Payload(p, tag, key);
            && EmitPiece(p, order).outcome == pay.outcome
            && (pay.outcome.Fail? ==>
                  EmitPiece(p, order).bytes == [PackXY(p.x, p.y)] + ([Discriminant(tag)] + pay.bytes))
            && (pay.outcome.Pass? ==>
                  EmitPiece(p, order).bytes
                  == [PackXY(p.x, p.y)] + ([Discriminant(tag)] + (pay.bytes + PieceTail(p, tag, order))))
  {
    var key := StripPsi(p.data.key);
    var tag := EncoderTag(key);
    var pay := Payload(p, tag, key);
    var body := PieceBody(p, tag, key, order);
    assert EmitPiece(p, order) == Then(Done([PackXY(p.x, p.y), Discriminant(tag)]), body);
    assert body.outcome == pay.outcome;
    if pay.outcome.Pass? {
      assert body.bytes == pay.bytes + PieceTail(p, tag, order);
    } else {
      assert body.bytes == pay.bytes;
    }
    assert [PackXY(p.x, p.y), Discriminant(tag)] + body.bytes == [PackXY(p.x, p.y)] + ([Discriminant(tag)] + body.bytes);
  }

  /** Decoding a piece's position and opcode bytes. */
  lemma DecodeHead(x: byte, y: byte, tag: SpecialTag, u: Bytes)
    requires x < 16 && y < 16
    ensures DecodePieceOf([PackXY(x, y)] + ([Discriminant(tag)] + u)) == DecodeBodyOf((x, y), tag, u)
  {
    NextOfCons(PackXY(x, y), [Discriminant(tag)] + u);
    NextOfCons(Discriminant(tag), u);
    DiscriminantRoundTrip(tag);
    PositionRoundTrip(x, y);
  }

  /** The fixed payload of opcodes 0 to 2 reads back. */
  lemma SpecialPayloadRoundTrip(p: Piece, tag: SpecialTag, key: Bytes, after: Bytes)
    requires tag != NoTag && PayloadRoundTrips(p.data, tag)
    ensures Payload(p, tag, key).outcome == Pass
    ensures FixedOf(tag, Payload(p, tag, key).bytes + after)
         == Ok(Read((if tag == ConstantNumber then map[] else p.data.params.value, p.data.constant), after))
  {
    var pay := Payload(p, tag, key);
    if tag == ConstantNumber {
      var c := p.data.constant.value;
      assert pay.bytes + after == c + [NUL] + after;
      ReadUntilOfField(c, NUL, after);
    } else {
      SidesRoundTrip(p, FixedParams(tag), map[], after);
      InsertedAll(p.data.params.value, FixedParams(tag));
    }
  }

  /** After the opcode byte, a piece with opcode 0 to 2 reads back. */
  lemma SpecialBodyRoundTrip(p: Piece, order: ParamOrder, t: Bytes)
    requires Encodable(p, order) && CommentRoundTrips(p.data.comment)
    requires EncoderTag(StripPsi(p.data.key)) != NoTag
    requires ToKey(EncoderTag(StripPsi(p.data.key))) == Some(p.data.key)
    requires PayloadRoundTrips(p.data, EncoderTag(StripPsi(p.data.key)))
    ensures var tag := EncoderTag(StripPsi(p.data.key));
            DecodeBodyOf((p.x, p.y), tag, Payload(p, tag, StripPsi(p.data.key)).bytes + (PieceTail(p, tag, order) + t))
            == Ok(Read(p, t))
  {
    var d := p.data;
    var key := StripPsi(d.key);
    var tag := EncoderTag(key);
    var pay := Payload(p, tag, key);
    var after := PieceTail(p, tag, order) + t;
    var m := if tag == ConstantNumber then map[] else d.params.value;
    SpecialPayloadRoundTrip(p, tag, key, after);
    BlockFreeTail(p, tag, order, t);
    CommentRoundTrip(d.comment, t);
    DecodeSpecialBody((p.x, p.y), tag, d.key, pay.bytes + after, (m, d.constant), after, OrEmpty(d.comment), t);
    SpecialParamsBack(d, tag);
  }

  /** Opcodes 0 to 2 end with the comment. */
  lemma BlockFreeTail(p: Piece, tag: SpecialTag, order: ParamOrder, t: Bytes)
    requires OrdersBlock(order, p.data.params) && BlockFree(tag)
    ensures PieceTail(p, tag, order) + t == OrEmpty(p.data.comment) + [NUL] + t
  {
    assert PieceTail(p, tag, order) == OrEmpty(p.data.comment) + [NUL] + [];
  }

  /** How DecodeBodyOf reads a piece with a fixed payload, given its parts. */
  lemma DecodeSpecialBody(pos: (byte, byte), tag: SpecialTag, key: Bytes, s: Bytes,
                          fixed: (ParamMap, Option<Bytes>), u: Bytes, c: Bytes, t: Bytes)
    requires tag != NoTag && ToKey(tag) == Some(key)
    requires FixedOf(tag, s) == Ok(Read(fixed, u))
    requires ReadUntilOf(u, NUL) == Read(c, t)
    ensures DecodeBodyOf(pos, tag, s)
         == Ok(Read(Piece(SpellData(key, NonEmpty(fixed.0), fixed.1, CommentOf(c)), pos.0, pos.1), t))
  {
  }

  /** The decoded parameters of opcodes 0 to 2 are the ones encoded. */
  lemma SpecialParamsBack(d: SpellData, tag: SpecialTag)
    requires tag in {Connector, ConstantNumber, VectorConstruct} && PayloadRoundTrips(d, tag)
    ensures NonEmpty(if tag == ConstantNumber then map[] else d.params.value) == d.params
  {
    if tag != ConstantNumber {
      assert FixedParams(tag)[0] in d.params.value;
    }
  }

  /** The fixed-payload half of the piece round trip: opcodes 0 to 2. */
  lemma SpecialPieceRoundTrip(p: Piece, order: ParamOrder, t: Bytes)
    requires Encodable(p, order) && PieceRoundTrips(p)
    requires EncoderTag(StripPsi(p.data.key)) != NoTag
    ensures EmitPiece(p, order).outcome == Pass
    ensures DecodePieceOf(EmitPiece(p, order).bytes + t) == Ok(Read(p, t))
  {
    var key := StripPsi(p.data.key);
    var tag := EncoderTag(key);
    var pay := Payload(p, tag, key);
    var after := PieceTail(p, tag, order) + t;
    SpecialPayloadRoundTrip(p, tag, key, after);
    PassLayout(p, order, t);
    DecodeHead(p.x, p.y, tag, pay.bytes + after);
    SpecialBodyRoundTrip(p, order, t);
  }

  /** Where a piece whose payload was written puts its parts. */
  lemma PassLayout(p: Piece, order: ParamOrder, t: Bytes)
    requires Encodable(p, order)
    requires Payload(p, EncoderTag(StripPsi(p.data.key)), StripPsi(p.data.key)).outcome == Pass
    ensures var key := StripPsi(p.data.key);
            var tag := EncoderTag(key);
            && EmitPiece(p, order).outcome == Pass
            && EmitPiece(p, order).bytes + t
               == [PackXY(p.x, p.y)] + ([Discriminant(tag)] + (Payload(p, tag, key).bytes + (PieceTail(p, tag, order) + t)))
  {
    EmitPieceLayout(p, order);
  }

  /** The block following a generic piece's comment reads back. */
  lemma GenericTailRoundTrip(p: Piece, order: ParamOrder, t: Bytes)
    requires Encodable(p, order) && PieceRoundTrips(p)
    requires EncoderTag(StripPsi(p.data.key)) == NoTag
    ensures var c := ReadUntilOf(PieceTail(p, NoTag, order) + t, NUL);
            && CommentOf(c.val) == p.data.comment
            && ReadBlockOf(c.rest) == Ok(Read((p.data.params, p.data.constant), t))
  {
    var d := p.data;
    var block := BlockBytes(d.params, d.constant, order);
    assert PieceTail(p, NoTag, order) + t == OrEmpty(d.comment) + [NUL] + (block + t);
    CommentRoundTrip(d.comment, block + t);
    BlockRoundTrip(d.params, d.constant, order, t);
  }

  /** After the opcode byte, a generic piece reads back. */
  lemma GenericBodyRoundTrip(p: Piece, order: ParamOrder, t: Bytes)
    requires Encodable(p, order) && PieceRoundTrips(p)
    requires EncoderTag(StripPsi(p.data.key)) == NoTag
    ensures DecodeBodyOf((p.x, p.y), NoTag, StripPsi(p.data.key) + [NUL] + (PieceTail(p, NoTag, order) + t))
            == Ok(Read(p, t))
  {
    var d := p.data;
    var key := StripPsi(d.key);
    var after := PieceTail(p, NoTag, order) + t;
    assert KeyOf(NoTag, key + [NUL] + after) == Read(d.key, after) by {
      StripPsiNoNul(d.key);
      ReadUntilOfField(key, NUL, after);
      NamespaceRoundTrip(d.key);
    }
    FixedOfNoTag(after);
    GenericTailRoundTrip(p, order, t);
  }

  /** The generic opcode has no fixed parameters to read. */
  lemma FixedOfNoTag(s: Bytes)
    ensures FixedOf(NoTag, s) == Ok(Read((map[], None), s))
  {
    assert FixedParams(NoTag) == [];
  }

  /** Where a generic piece puts its parts. */
  lemma GenericLayout(p: Piece, order: ParamOrder, t: Bytes)
    requires Encodable(p, order) && EncoderTag(StripPsi(p.data.key)) == NoTag
    ensures EmitPiece(p, order).outcome == Pass
    ensures EmitPiece(p, order).bytes + t
         == [PackXY(p.x, p.y)] + ([Discriminant(NoTag)] + (StripPsi(p.data.key) + [NUL] + (PieceTail(p, NoTag, order) + t)))
  {
    assert Payload(p, NoTag, StripPsi(p.data.key)) == Done(StripPsi(p.data.key) + [NUL]);
    PassLayout(p, order, t);
  }

  /** The generic half of the piece round trip: opcode 255. */
  lemma GenericPieceRoundTrip(p: Piece, order: ParamOrder, t: Bytes)
    requires Encodable(p, order) && PieceRoundTrips(p)
    requires EncoderTag(StripPsi(p.data.key)) == NoTag
    ensures EmitPiece(p, order).outcome == Pass
    ensures DecodePieceOf(EmitPiece(p, order).bytes + t) == Ok(Read(p, t))
  {
    GenericLayout(p, order, t);
    DecodeHead(p.x, p.y, NoTag, StripPsi(p.data.key) + [NUL] + (PieceTail(p, NoTag, order) + t));
    GenericBodyRoundTrip(p, order, t);
  }

  /** Piece round trip: a piece meeting PieceRoundTrips is written without
      error, and decodes back to itself, leaving what followed. */
  lemma PieceRoundTrip(p: Piece, order: ParamOrder, t: Bytes)
    requires Encodable(p, order) && PieceRoundTrips(p)
    ensures EmitPiece(p, order).outcome == Pass
    ensures DecodePieceOf(EmitPiece(p, order).bytes + t) == Ok(Read(p, t))
  {
    if EncoderTag(StripPsi(p.data.key)) == NoTag {
      GenericPieceRoundTrip(p, order, t);
    } else {
      SpecialPieceRoundTrip(p, order, t);
    }
  }

  /** Every piece of the list can be encoded with its own order and meets
      PieceRoundTrips. */
  predicate PiecesRoundTrips(ps: seq<Piece>, orders: seq<ParamOrder>) {
    && |orders| == |ps|
    && forall i | 0 <= i < |ps| :: Encodable(ps[i], orders[i]) && PieceRoundTrips(ps[i])
  }

  lemma {:induction false} PiecesRoundTrip(ps: seq<Piece>, orders: seq<ParamOrder>, acc: seq<Piece>)
    requires PiecesRoundTrips(ps, orders)
    ensures AllEncodable(ps, orders)
    ensures EmitPieces(ps, orders).outcome == Pass
    ensures DecodePiecesOf(EmitPieces(ps, orders).bytes, acc) == Ok(acc + ps)
    decreases |ps|
  {
    if ps == [] {
      assert acc + ps == acc;
    } else {
      PiecesRoundTripsTail(ps, orders);
      PiecesRoundTrip(ps[1..], orders[1..], acc + [ps[0]]);
      PiecesCons(ps, orders, acc);
    }
  }

  /** The round trip of a non-empty list, from that of its tail. */
  lemma PiecesCons(ps: seq<Piece>, orders: seq<ParamOrder>, acc: seq<Piece>)
    requires |ps| > 0 && PiecesRoundTrips(ps, orders)
    requires AllEncodable(ps[1..], orders[1..])
    requires EmitPieces(ps[1..], orders[1..]).outcome == Pass
    requires DecodePiecesOf(EmitPieces(ps[1..], orders[1..]).bytes, acc + [ps[0]]) == Ok(acc + [ps[0]] + ps[1..])
    ensures AllEncodable(ps, orders)
    ensures EmitPieces(ps, orders).outcome == Pass
    ensures DecodePiecesOf(EmitPieces(ps, orders).bytes, acc) == Ok(acc + ps)
  {
    PiecesStep(ps, orders, acc);
    assert acc + [ps[0]] + ps[1..] == acc + ps;
  }

  /** PiecesRoundTrips holds of the rest of the list. */
  lemma PiecesRoundTripsTail(ps: seq<Piece>, orders: seq<ParamOrder>)
    requires |ps| > 0 && PiecesRoundTrips(ps, orders)
    ensures PiecesRoundTrips(ps[1..], orders[1..])
  {
    forall i | 0 <= i < |ps| - 1
      ensures Encodable(ps[1..][i], orders[1..][i]) && PieceRoundTrips(ps[1..][i])
    {
      assert ps[1..][i] == ps[i + 1] && orders[1..][i] == orders[i + 1];
    }
  }

  /** The first piece of a list encodes and decodes on its own, leaving the
      encoding of the rest. */
  lemma PiecesStep(ps: seq<Piece>, orders: seq<ParamOrder>, acc: seq<Piece>)
    requires |ps| > 0 && PiecesRoundTrips(ps, orders)
    ensures AllEncodable(ps, orders) && AllEncodable(ps[1..], orders[1..])
    ensures EmitPieces(ps, orders).outcome == EmitPieces(ps[1..], orders[1..]).outcome
    ensures DecodePiecesOf(EmitPieces(ps, orders).bytes, acc)
         == DecodePiecesOf(EmitPieces(ps[1..], orders[1..]).bytes, acc + [ps[0]])
  {
    AllEncodableFrom(ps, orders, 1);
    var rest := EmitPieces(ps[1..], orders[1..]);
    assert Encodable(ps[0], orders[0]) && PieceRoundTrips(ps[0]);
    PieceRoundTrip(ps[0], orders[0], rest.bytes);
    DecodePiecesStep(EmitPiece(ps[0], orders[0]).bytes + rest.bytes, acc, ps[0], rest.bytes);
  }

  /** A non-empty input whose first piece decodes goes on after that piece. */
  lemma DecodePiecesStep(s: Bytes, acc: seq<Piece>, p: Piece, t: Bytes)
    requires DecodePieceOf(s) == Ok(Read(p, t))
    ensures DecodePiecesOf(s, acc) == DecodePiecesOf(t, acc + [p])
  {
    assert |s| > 0 by {
      if |s| == 0 {
        assert |DecodePieceOf(s).value.rest| < |s|;
      }
    }
  }

  /** What a spell must satisfy to survive `bin` then `decode`. */
  predicate SpellRoundTrips(s: Spell) {
    && NUL !in s.name && ModsOk(s.mods)
    && forall i | 0 <= i < |s.pieces| :: PieceRoundTrips(s.pieces[i])
  }

  /** Spell round trip: encoding succeeds, and decoding its output gives the
      spell back, except that an empty mods list comes back as one empty
      mod. */
  lemma SpellRoundTrip(s: Spell, orders: seq<ParamOrder>)
    requires AllEncodable(s.pieces, orders)
    requires SpellRoundTrips(s)
    ensures Encode(s, orders).outcome == Pass
    ensures DecodeSpell(Encode(s, orders).bytes) == Ok(s.(mods := DecodedMods(s.mods)))
  {
    var ps := EmitPieces(s.pieces, orders);
    PiecesRoundTrip(s.pieces, orders, []);
    HeaderRoundTrip(s, ps.bytes);
    assert [] + s.pieces == s.pieces;
  }

  /** With at least one mod the spell comes back exactly. */
  lemma SpellRoundTripExact(s: Spell, orders: seq<ParamOrder>)
    requires AllEncodable(s.pieces, orders)
    requires SpellRoundTrips(s) && s.mods != []
    ensures DecodeSpell(Encode(s, orders).bytes) == Ok(s)
  {
    SpellRoundTrip(s, orders);
  }

  // ---------------------------------------------------------------------------
  // Examples

  /** A one-piece spell encodes as its header, then that piece. */
  lemma OnePiece(s: Spell, order: ParamOrder)
    requires |s.pieces| == 1 && Encodable(s.pieces[0], order)
    ensures AllEncodable(s.pieces, [order])
    ensures Encode(s, [order]) == Then(Done(HeaderBytes(s)), EmitPiece(s.pieces[0], order))
  {
    var e := EmitPiece(s.pieces[0], order);
    assert s.pieces[1..] == [] && [order][1..] == [];
    assert EmitPieces(s.pieces, [order]) == Then(e, EmitPieces([], []));
    assert e.bytes + [] == e.bytes;
    assert Then(e, Done([])) == e;
  }

  /** A connector at (0, 0) with the given parameters and no comment. */
  function ConnectorPiece(params: Option<ParamMap>): Piece {
    Piece(SpellData(PSI + CONNECTOR_NAME, params, None, None), 0, 0)
  }

  /** A spell named "Test" with no mods and that one connector. */
  function ConnectorSpell(params: Option<ParamMap>): Spell {
    Spell([], [ConnectorPiece(params)], [0x54, 0x65, 0x73, 0x74])
  }

  /** The connector is written as position 0, opcode 0, its `_target` side
      and the empty comment's NUL; no block follows, so the map's iteration
      order does not matter. */
  lemma ConnectorPieceBytes(order: ParamOrder)
    requires OrdersBlock(order, Some(map[BuiltinParam(0) := 3]))
    ensures EmitPiece(ConnectorPiece(Some(map[BuiltinParam(0) := 3])), order)
         == Emission([0x00, 0x00, 0x03, 0x00], Pass)
  {
    var p := ConnectorPiece(Some(map[BuiltinParam(0) := 3]));
    ConnectorKey(p.data.params);
    assert GetParam(p, BuiltinParam(0)) == Ok(3);
    assert EmitSides(p, [BuiltinParam(0)]) == Emission([3], Pass);
    assert PieceTail(p, Connector, order) == [NUL];
  }

  /** The connector spell encodes to its name, NUL, `]`, then the piece. */
  lemma ConnectorExample(order: ParamOrder)
    requires OrdersBlock(order, Some(map[BuiltinParam(0) := 3]))
    ensures Encode(ConnectorSpell(Some(map[BuiltinParam(0) := 3])), [order])
         == Emission([0x54, 0x65, 0x73, 0x74, 0x00, 0x5D, 0x00, 0x00, 0x03, 0x00], Pass)
  {
    var s := ConnectorSpell(Some(map[BuiltinParam(0) := 3]));
    ConnectorPieceBytes(order);
    OnePiece(s, order);
    assert HeaderBytes(s) == [0x54, 0x65, 0x73, 0x74, 0x00, 0x5D];
  }

  /** The connector's key selects opcode 0. */
  lemma ConnectorKey(params: Option<ParamMap>)
    ensures StripPsi(ConnectorPiece(params).data.key) == CONNECTOR_NAME
    ensures EncoderTag(CONNECTOR_NAME) == Connector
  {
    assert ConnectorPiece(params).data.key[4..] == CONNECTOR_NAME;
    EncoderTagNames(CONNECTOR_NAME);
  }

  /** Without a map, the connector's payload is the missing `_target` error
      and nothing written. */
  lemma MissingTargetPayload()
    ensures Payload(ConnectorPiece(None), Connector, CONNECTOR_NAME)
         == Emission([], Fail(MissingParam(0, 0, PSI + CONNECTOR_NAME, BuiltinParam(0))))
  {
  }

  /** Without its `_target` side the connector stops after its position and
      opcode bytes, naming the piece and the parameter. */
  lemma MissingTargetPiece(order: ParamOrder)
    ensures EmitPiece(ConnectorPiece(None), order)
         == Emission([0x00, 0x00], Fail(MissingParam(0, 0, PSI + CONNECTOR_NAME, BuiltinParam(0))))
  {
    ConnectorKey(None);
    MissingTargetPayload();
    EmitPieceLayout(ConnectorPiece(None), order);
  }

  /** The failed encoding leaves the header and the piece's first two bytes
      in the buffer. */
  lemma MissingTargetExample(order: ParamOrder)
    ensures Encode(ConnectorSpell(None), [order])
         == Emission([0x54, 0x65, 0x73, 0x74, 0x00, 0x5D, 0x00, 0x00],
                     Fail(MissingParam(0, 0, PSI + CONNECTOR_NAME, BuiltinParam(0))))
  {
    var s := ConnectorSpell(None);
    MissingTargetPiece(order);
    OnePiece(s, order);
    assert HeaderBytes(s) == [0x54, 0x65, 0x73, 0x74, 0x00, 0x5D];
  }

  /** An opcode byte the decoder does not know is an error, whatever follows. */
  lemma UnknownOpcode(xy: byte, op: byte, t: Bytes)
    requires 19 < op < 255
    ensures DecodePieceOf([xy, op] + t) == Err(InvalidDiscriminant)
  {
    NextOfCons(xy, [op] + t);
    assert [xy, op] + t == [xy] + ([op] + t);
    NextOfCons(op, t);
  }
}
