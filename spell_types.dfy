/** The value types shared by both codecs: spells, mods, pieces and their data,
    the position byte, the `psi:` key namespace and the parameter catalog. */
module SpellTypes {
  import opened Wrappers

  /** Rust's `u8`. */
  newtype byte = x: int | 0 <= x < 256

  /** Text is kept as its bytes (`String::as_bytes`). */
  type Bytes = seq<byte>

  const NUL: byte := 0x00
  const COMMA: byte := 0x2C          // ','
  const COLON: byte := 0x3A          // ':'
  const SEMICOLON: byte := 0x3B      // ';'
  const CLOSE_BRACKET: byte := 0x5D  // ']'

  /** The default key namespace, left off on the wire. */
  const PSI: Bytes := [0x70, 0x73, 0x69, 0x3A] // "psi:"

  datatype Mod = Mod(name: Bytes, version: Bytes)

  /** `SpellParams`: parameter name to side byte. */
  type ParamMap = map<Bytes, byte>

  datatype SpellData = SpellData(
    key: Bytes,
    params: Option<ParamMap>,
    constant: Option<Bytes>,
    comment: Option<Bytes>)

  datatype Piece = Piece(data: SpellData, x: byte, y: byte)

  datatype Spell = Spell(mods: seq<Mod>, pieces: seq<Piece>, name: Bytes)

  // ---------------------------------------------------------------------------
  // Position byte

  /** `x << 4 | (y & 0b1111)` on `u8`: the shift drops the high four bits
      of `x`, and the mask keeps the low four bits of `y`. */
  function PackXY(x: byte, y: byte): byte {
    ((x % 16) * 16 + y % 16) as byte
  }

  /** The decoder's `(xy >> 4, xy & 0b1111)`. Every byte is the packing of
      what it unpacks to, so no two positions share a byte. */
  function UnpackXY(xy: byte): (r: (byte, byte))
    ensures r.0 < 16 && r.1 < 16
    ensures PackXY(r.0, r.1) == xy
  {
    (xy / 16, xy % 16)
  }

  /** Unpacking a packed position gives back both coordinates modulo 16;
      any `x, y <= 15` survive unchanged. */
  lemma PositionRoundTrip(x: byte, y: byte)
    ensures UnpackXY(PackXY(x, y)) == (x % 16, y % 16)
    ensures x < 16 && y < 16 ==> UnpackXY(PackXY(x, y)) == (x, y)
  {
    Nibbles(x as int % 16, y as int % 16);
  }

  /** The high and low nibble of `16 * hi + lo`. */
  lemma Nibbles(hi: int, lo: int)
    requires 0 <= hi < 16 && 0 <= lo < 16
    ensures (hi * 16 + lo) / 16 == hi && (hi * 16 + lo) % 16 == lo
  {
  }

  // ---------------------------------------------------------------------------
  // Key namespace

  /** The encoder's `if &key[0..4] == b"psi:" { &key[4..] } else { key }`.
      The slice panics on keys shorter than four bytes, hence the requires. */
  function StripPsi(key: Bytes): (r: Bytes)
    requires |key| >= 4
    ensures r == key || PSI + r == key
    ensures |r| >= |key| - 4
  {
    if key[..4] == PSI then key[4..] else key
  }

  /** The decoder's rule: a key with no `:` gets `psi:` put in front. The
      result always carries a namespace separator. */
  function Namespaced(key: Bytes): (r: Bytes)
    ensures COLON in r
    ensures COLON in key ==> r == key
    ensures COLON !in key ==> r == PSI + key
  {
    assert PSI[3] == COLON;
    if COLON in key then key else PSI + key
  }

  /** A key survives stripping and re-namespacing: either `psi:` followed by
      text without `:`, or a key outside `psi:` that names its namespace. */
  predicate KeyRoundTrips(key: Bytes)
    requires |key| >= 4
  {
    || (key[..4] == PSI && COLON !in key[4..])
    || (key[..4] != PSI && COLON in key)
  }

  /** Stripping then re-namespacing gives the key back exactly when the key
      meets KeyRoundTrips. */
  lemma NamespaceRoundTrip(key: Bytes)
    requires |key| >= 4
    ensures Namespaced(StripPsi(key)) == key <==> KeyRoundTrips(key)
  {
    if key[..4] == PSI {
      assert key == PSI + key[4..];
      if COLON in key[4..] {
        assert |Namespaced(StripPsi(key))| == |key| - 4;
      }
    } else if COLON !in key {
      assert |Namespaced(StripPsi(key))| == |key| + 4;
    }
  }

  // ---------------------------------------------------------------------------
  // Parameter catalog

  /** `BUILTIN_PARAMS`: the 43 parameter names written as a one-byte index,
      each as its ASCII bytes. */
  const BuiltinParams: seq<Bytes> := [
    [0x5F, 0x74, 0x61, 0x72, 0x67, 0x65, 0x74], // 0: _target
    [0x5F, 0x6E, 0x75, 0x6D, 0x62, 0x65, 0x72], // 1: _number
    [0x5F, 0x6E, 0x75, 0x6D, 0x62, 0x65, 0x72, 0x31], // 2: _number1
    [0x5F, 0x6E, 0x75, 0x6D, 0x62, 0x65, 0x72, 0x32], // 3: _number2
    [0x5F, 0x6E, 0x75, 0x6D, 0x62, 0x65, 0x72, 0x33], // 4: _number3
    [0x5F, 0x6E, 0x75, 0x6D, 0x62, 0x65, 0x72, 0x34], // 5: _number4
    [0x5F, 0x76, 0x65, 0x63, 0x74, 0x6F, 0x72, 0x31], // 6: _vector1
    [0x5F, 0x76, 0x65, 0x63, 0x74, 0x6F, 0x72, 0x32], // 7: _vector2
    [0x5F, 0x76, 0x65, 0x63, 0x74, 0x6F, 0x72, 0x33], // 8: _vector3
    [0x5F, 0x76, 0x65, 0x63, 0x74, 0x6F, 0x72, 0x34], // 9: _vector4
    [0x5F, 0x70, 0x6F, 0x73, 0x69, 0x74, 0x69, 0x6F, 0x6E], // 10: _position
    [0x5F, 0x6D, 0x69, 0x6E], // 11: _min
    [0x5F, 0x6D, 0x61, 0x78], // 12: _max
    [0x5F, 0x70, 0x6F, 0x77, 0x65, 0x72], // 13: _power
    [0x5F, 0x78], // 14: _x
    [0x5F, 0x79], // 15: _y
    [0x5F, 0x7A], // 16: _z
    [0x5F, 0x72, 0x61, 0x64, 0x69, 0x75, 0x73], // 17: _radius
    [0x5F, 0x64, 0x69, 0x73, 0x74, 0x61, 0x6E, 0x63, 0x65], // 18: _distance
    [0x5F, 0x74, 0x69, 0x6D, 0x65], // 19: _time
    [0x5F, 0x62, 0x61, 0x73, 0x65], // 20: _base
    [0x5F, 0x72, 0x61, 0x79], // 21: _ray
    [0x5F, 0x76, 0x65, 0x63, 0x74, 0x6F, 0x72], // 22: _vector
    [0x5F, 0x61, 0x78, 0x69, 0x73], // 23: _axis
    [0x5F, 0x61, 0x6E, 0x67, 0x6C, 0x65], // 24: _angle
    [0x5F, 0x70, 0x69, 0x74, 0x63, 0x68], // 25: _pitch
    [0x5F, 0x69, 0x6E, 0x73, 0x74, 0x72, 0x75, 0x6D, 0x65, 0x6E, 0x74], // 26: _instrument
    [0x5F, 0x76, 0x6F, 0x6C, 0x75, 0x6D, 0x65], // 27: _volume
    [0x5F, 0x6C, 0x69, 0x73, 0x74, 0x31], // 28: _list1
    [0x5F, 0x6C, 0x69, 0x73, 0x74, 0x32], // 29: _list2
    [0x5F, 0x6C, 0x69, 0x73, 0x74], // 30: _list
    [0x5F, 0x64, 0x69, 0x72, 0x65, 0x63, 0x74, 0x69, 0x6F, 0x6E], // 31: _direction
    [0x5F, 0x66, 0x72, 0x6F, 0x6D, 0x31], // 32: _from1
    [0x5F, 0x66, 0x72, 0x6F, 0x6D, 0x32], // 33: _from2
    [0x5F, 0x74, 0x6F, 0x31], // 34: _to1
    [0x5F, 0x74, 0x6F, 0x32], // 35: _to2
    [0x5F, 0x72, 0x6F, 0x6F, 0x74], // 36: _root
    [0x5F, 0x74, 0x6F, 0x67, 0x67, 0x6C, 0x65], // 37: _toggle
    [0x5F, 0x6D, 0x61, 0x73, 0x6B], // 38: _mask
    [0x5F, 0x63, 0x68, 0x61, 0x6E, 0x6E, 0x65, 0x6C], // 39: _channel
    [0x5F, 0x73, 0x6C, 0x6F, 0x74], // 40: _slot
    [0x5F, 0x72, 0x61, 0x79, 0x5F, 0x65, 0x6E, 0x64], // 41: _ray_end
    [0x5F, 0x72, 0x61, 0x79, 0x5F, 0x73, 0x74, 0x61, 0x72, 0x74] // 42: _ray_start
  ]

  /** The bytes of catalog entry `i`. */
  function BuiltinParam(i: nat): Bytes
    requires i < |BuiltinParams|
  {
    BuiltinParams[i]
  }

  /** `BUILTIN_PARAMS.iter().position(|e| **e == *key)`: the first index of
      `name` in the catalog, or None when it is a literal name. */
  function CatalogIndex(name: Bytes): (r: Option<nat>)
    ensures r.Some? ==> r.value < |BuiltinParams| && BuiltinParam(r.value) == name
  {
    CatalogIndexFrom(name, 0)
  }

  /** CatalogIndex finds the first matching entry, and gives None only for
      names outside the catalog. */
  lemma CatalogIndexSpec(name: Bytes)
    ensures CatalogIndex(name).Some? ==> forall j | 0 <= j < CatalogIndex(name).value :: BuiltinParam(j) != name
    ensures CatalogIndex(name).None? ==> forall j | 0 <= j < |BuiltinParams| :: BuiltinParam(j) != name
  {
  }

  function CatalogIndexFrom(name: Bytes, i: nat): (r: Option<nat>)
    requires i <= |BuiltinParams|
    ensures r.Some? ==> i <= r.value < |BuiltinParams| && BuiltinParam(r.value) == name
    ensures r.Some? ==> forall j | i <= j < r.value :: BuiltinParam(j) != name
    ensures r.None? ==> forall j | i <= j < |BuiltinParams| :: BuiltinParam(j) != name
    decreases |BuiltinParams| - i
  {
    if i == |BuiltinParams| then None
    else if BuiltinParam(i) == name then Some(i)
    else CatalogIndexFrom(name, i + 1)
  }
}
