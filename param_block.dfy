/** The generic parameter block both codecs share. With a parameter map: a
    count byte, then per entry either the catalog index or `255, name, 0`,
    then the side byte. Otherwise, with a constant: `255, constant, 0`.
    Otherwise: `254`. */
module ParamBlock {
  import opened Wrappers
  import opened SpellTypes
  import opened ByteIO

  /** The order in which iterating one `HashMap` visits its keys. Rust
      leaves it unspecified and gives every map a hasher state of its own,
      so the encoders take one order per piece. */
  type ParamOrder = ParamMap -> seq<Bytes>

  /** `ks` visits every key of `m`, and only keys of `m`, `|m|` times. */
  predicate Enumerates(ks: seq<Bytes>, m: ParamMap) {
    && |ks| == |m|
    && (forall i | 0 <= i < |ks| :: ks[i] in m)
    && (forall k | k in m :: k in ks)
  }

  /** `order` enumerates the block's map, when there is one. */
  predicate OrdersBlock(order: ParamOrder, params: Option<ParamMap>) {
    params.Some? ==> Enumerates(order(params.value), params.value)
  }

  /** `params.len() as u8`: the count wraps at 256. */
  function CountByte(n: nat): byte {
    (n % 256) as byte
  }

  /** One entry: the catalog index, or `255` and the NUL-terminated name;
      then the side byte. */
  function EntryBytes(name: Bytes, side: byte): Bytes {
    match CatalogIndex(name)
    case Some(i) => [i as byte, side]
    case None => [255 as byte] + name + [NUL, side]
  }

  function EntriesBytes(m: ParamMap, ks: seq<Bytes>): Bytes
    requires forall i | 0 <= i < |ks| :: ks[i] in m
  {
    if ks == [] then [] else EntryBytes(ks[0], m[ks[0]]) + EntriesBytes(m, ks[1..])
  }

  /** The whole block: the count and the entries in `order` for a map, else
      the constant, else 254. */
  function BlockBytes(params: Option<ParamMap>, constant: Option<Bytes>, order: ParamOrder): (r: Bytes)
    requires OrdersBlock(order, params)
  {
    match params
    case Some(m) => [CountByte(|m|)] + EntriesBytes(m, order(m))
    case None =>
      match constant
      case Some(c) => [255 as byte] + c + [NUL]
      case None => [254]
  }

  /** A block is never empty; the constant form is the constant and two
      bytes. */
  lemma BlockLen(params: Option<ParamMap>, constant: Option<Bytes>, order: ParamOrder)
    requires OrdersBlock(order, params)
    ensures |BlockBytes(params, constant, order)| >= 1
    ensures params.None? && constant.Some? ==> |BlockBytes(params, constant, order)| == |constant.value| + 2
  {
  }

  /** The order can be seen in the output: two enumerations of one map that
      start with different catalog names give different blocks, their second
      bytes being those names' indices. */
  lemma OrderShows(m: ParamMap, o1: ParamOrder, o2: ParamOrder)
    requires OrdersBlock(o1, Some(m)) && OrdersBlock(o2, Some(m)) && |m| > 0
    requires o1(m)[0] != o2(m)[0]
    requires CatalogIndex(o1(m)[0]).Some? && CatalogIndex(o2(m)[0]).Some?
    ensures BlockBytes(Some(m), None, o1) != BlockBytes(Some(m), None, o2)
  {
    var i1, i2 := CatalogIndex(o1(m)[0]).value, CatalogIndex(o2(m)[0]).value;
    assert BlockBytes(Some(m), None, o1)[1] == i1 as byte;
    assert BlockBytes(Some(m), None, o2)[1] == i2 as byte;
  }

  lemma EntriesFrom(m: ParamMap, ks: seq<Bytes>, i: nat)
    requires i < |ks| && forall j | 0 <= j < |ks| :: ks[j] in m
    ensures EntriesBytes(m, ks[i..]) == EntryBytes(ks[i], m[ks[i]]) + EntriesBytes(m, ks[i + 1..])
  {
    assert ks[i..][1..] == ks[i + 1..];
  }

  /** Writes one entry of the map. */
  method WriteEntry(name: Bytes, side: byte, out: ByteBuffer)
    modifies out
    ensures out.bytes == old(out.bytes) + EntryBytes(name, side)
  {
    var pos := CatalogIndex(name);
    if pos.Some? {
      out.Push(pos.value as byte);
      out.Push(side);
      assert EntryBytes(name, side) == [pos.value as byte, side];
    } else {
      out.Push(255);
      out.ExtendFromSlice(name);
      out.Push(NUL);
      out.Push(side);
      assert EntryBytes(name, side) == [255 as byte] + name + [NUL, side];
    }
  }

  /** Writes the block for a piece, visiting the map in `order`. */
  method WriteParamBlock(params: Option<ParamMap>, constant: Option<Bytes>, order: ParamOrder, out: ByteBuffer)
    requires OrdersBlock(order, params)
    modifies out
    ensures out.bytes == old(out.bytes) + BlockBytes(params, constant, order)
  {
    if params.Some? {
      var m := params.value;
      var ks := order(m);
      out.Push(CountByte(|m|));
      ghost var start := out.bytes;
      for i := 0 to |ks|
        invariant out.bytes + EntriesBytes(m, ks[i..]) == start + EntriesBytes(m, ks)
      {
        ghost var before := out.bytes;
        WriteEntry(ks[i], m[ks[i]], out);
        EntriesFrom(m, ks, i);
        AppendAssoc(before, EntryBytes(ks[i], m[ks[i]]), EntriesBytes(m, ks[i + 1..]));
      }
      assert ks[|ks|..] == [];
      AppendAssoc(old(out.bytes), [CountByte(|m|)], EntriesBytes(m, ks));
    } else if constant.Some? {
      out.Push(255);
      out.ExtendFromSlice(constant.value);
      out.Push(NUL);
    } else {
      out.Push(254);
    }
  }

  // ---------------------------------------------------------------------------
  // Decoding

  /** An empty decoded map becomes None. */
  function NonEmpty(m: ParamMap): (r: Option<ParamMap>)
    ensures r.Some? ==> |r.value| > 0
  {
    if |m| == 0 then None else Some(m)
  }

  /** An entry's name: a literal name after `255`, else the catalog entry;
      an index past the catalog is the Rust code's out-of-bounds panic. */
  function ParamNameOf(idx: byte, s: Bytes): (r: Result<Read<Bytes>, DecodeError>)
    ensures r.Ok? ==> |r.value.rest| <= |s|
    ensures r.Err? <==> 43 <= idx < 255
    ensures r.Err? ==> r.error == CatalogIndexOutOfRange(idx)
  {
    if idx == 255 then Ok(ReadUntilOf(s, NUL))
    else if idx as int < |BuiltinParams| then Ok(Read(BuiltinParam(idx as int), s))
    else Err(CatalogIndexOutOfRange(idx))
  }

  /** One entry: its name and its side byte. */
  function ReadEntryOf(s: Bytes): (r: Result<Read<(Bytes, byte)>, DecodeError>)
    ensures r.Ok? ==> |r.value.rest| < |s|
  {
    var idx :- NextOf(s);
    var name :- ParamNameOf(idx.val, idx.rest);
    var side :- NextOf(name.rest);
    Ok(Read((name.val, side.val), side.rest))
  }

  /** Reads `n` entries, inserting each into `acc` (a later duplicate name
      overwrites an earlier one). */
  function ReadEntriesOf(s: Bytes, n: nat, acc: ParamMap): (r: Result<Read<ParamMap>, DecodeError>)
    ensures r.Ok? ==> |r.value.rest| <= |s|
    decreases n
  {
    if n == 0 then Ok(Read(acc, s))
    else
      var e :- ReadEntryOf(s);
      ReadEntriesOf(e.rest, n - 1, acc[e.val.0 := e.val.1])
  }

  /** The decoder's block: `255` and a NUL-terminated constant, `254` for
      neither, or a count and that many entries. */
  function ReadBlockOf(s: Bytes): (r: Result<Read<(Option<ParamMap>, Option<Bytes>)>, DecodeError>)
    ensures r.Ok? ==> |r.value.rest| < |s|
    ensures r.Ok? ==> r.value.val.0.None? || r.value.val.1.None?
  {
    var ty :- NextOf(s);
    if ty.val == 255 then
      var c := ReadUntilOf(ty.rest, NUL);
      Ok(Read((None, Some(c.val)), c.rest))
    else if ty.val == 254 then
      Ok(Read((None, None), ty.rest))
    else
      var es :- ReadEntriesOf(ty.rest, ty.val as nat, map[]);
      Ok(Read((NonEmpty(es.val), None), es.rest))
  }

  /** One entry, on the cursor. */
  method ReadEntry(cursor: Cursor) returns (r: Result<(Bytes, byte), DecodeError>)
    requires cursor.pos <= |cursor.data|
    modifies cursor
    ensures cursor.pos <= |cursor.data|
    ensures Agrees(ReadEntryOf(cursor.data[old(cursor.pos)..]), r, cursor.data[cursor.pos..])
  {
    var typeOrPos :- cursor.Next();
    var paramKey: Bytes;
    if typeOrPos == 255 {
      paramKey := cursor.ReadUntil(NUL);
    } else if typeOrPos as int < |BuiltinParams| {
      paramKey := BuiltinParam(typeOrPos as int);
    } else {
      return Err(CatalogIndexOutOfRange(typeOrPos));
    }
    var side :- cursor.Next();
    return Ok((paramKey, side));
  }

  /** The `n` entries of a map, inserted in the order read, on the cursor. */
  method ReadEntries(cursor: Cursor, n: nat) returns (r: Result<ParamMap, DecodeError>)
    requires cursor.pos <= |cursor.data|
    modifies cursor
    ensures cursor.pos <= |cursor.data|
    ensures Agrees(ReadEntriesOf(cursor.data[old(cursor.pos)..], n, map[]), r, cursor.data[cursor.pos..])
  {
    var params: ParamMap := map[];
    ghost var start := cursor.pos;
    for i := 0 to n
      invariant cursor.pos <= |cursor.data|
      invariant ReadEntriesOf(cursor.data[start..], n, map[])
             == ReadEntriesOf(cursor.data[cursor.pos..], n - i, params)
    {
      var e :- ReadEntry(cursor);
      params := params[e.0 := e.1];
    }
    return Ok(params);
  }

  /** The decoder's block part, on the cursor. */
  method ReadParamBlock(cursor: Cursor) returns (r: Result<(Option<ParamMap>, Option<Bytes>), DecodeError>)
    requires cursor.pos <= |cursor.data|
    modifies cursor
    ensures cursor.pos <= |cursor.data|
    ensures Agrees(ReadBlockOf(cursor.data[old(cursor.pos)..]), r, cursor.data[cursor.pos..])
  {
    var ty :- cursor.Next();
    if ty == 255 {
      var c := cursor.ReadUntil(NUL);
      return Ok((None, Some(c)));
    } else if ty == 254 {
      return Ok((None, None));
    }
    var params :- ReadEntries(cursor, ty as nat);
    return Ok((NonEmpty(params), None));
  }

  // ---------------------------------------------------------------------------
  // Round trip

  /** What a block must hold to decode back to itself: a non-empty map of
      fewer than 254 entries (so the count byte is neither wrapped nor read
      as a marker) with NUL-free names and no constant beside it; or no
      map and at most a NUL-free constant. */
  predicate BlockRoundTrips(params: Option<ParamMap>, constant: Option<Bytes>) {
    match params
    case Some(m) => 0 < |m| < 254 && constant.None? && forall k | k in m :: NUL !in k
    case None => constant.None? || NUL !in constant.value
  }

  /** `acc` with the entries of `m` named by `ks` inserted in turn, as the
      decoder inserts what it reads. */
  function Inserted(acc: ParamMap, m: ParamMap, ks: seq<Bytes>): ParamMap
    requires forall i | 0 <= i < |ks| :: ks[i] in m
    decreases |ks|
  {
    if ks == [] then acc else Inserted(acc[ks[0] := m[ks[0]]], m, ks[1..])
  }

  /** Inserting keeps `acc` where `ks` does not reach and takes `m` where it does. */
  lemma {:induction false} InsertedContents(acc: ParamMap, m: ParamMap, ks: seq<Bytes>)
    requires forall i | 0 <= i < |ks| :: ks[i] in m
    ensures forall k :: k in Inserted(acc, m, ks) <==> k in acc || k in ks
    ensures forall k | k in ks :: Inserted(acc, m, ks)[k] == m[k]
    ensures forall k | k in acc && k !in ks :: Inserted(acc, m, ks)[k] == acc[k]
    decreases |ks|
  {
    if ks != [] {
      InsertedContents(acc[ks[0] := m[ks[0]]], m, ks[1..]);
      forall k | k in ks ensures k == ks[0] || k in ks[1..] {
        var j :| 0 <= j < |ks| && ks[j] == k;
        if j > 0 { assert ks[1..][j - 1] == k; }
      }
    }
  }

  /** Inserting, into the empty map, keys of `m` that cover all of `m`
      rebuilds `m`. */
  lemma InsertedAll(m: ParamMap, ks: seq<Bytes>)
    requires forall i | 0 <= i < |ks| :: ks[i] in m
    requires forall k | k in m :: k in ks
    ensures Inserted(map[], m, ks) == m
  {
    InsertedContents(map[], m, ks);
  }

  /** An entry written as a catalog index reads back as that catalog name. */
  lemma IndexedEntryRoundTrip(i: nat, side: byte, t: Bytes)
    requires i < |BuiltinParams|
    ensures ReadEntryOf([i as byte, side] + t) == Ok(Read((BuiltinParam(i), side), t))
  {
    assert [i as byte, side] + t == [i as byte] + ([side] + t);
    NextOfCons(i as byte, [side] + t);
    NextOfCons(side, t);
  }

  /** An entry written as `255, name, 0` reads back as `name`. */
  lemma LiteralEntryRoundTrip(name: Bytes, side: byte, t: Bytes)
    requires NUL !in name
    ensures ReadEntryOf([255 as byte] + name + [NUL, side] + t) == Ok(Read((name, side), t))
  {
    var tail := name + [NUL] + ([side] + t);
    assert [255 as byte] + name + [NUL, side] + t == [255 as byte] + tail;
    NextOfCons(255, tail);
    ReadUntilOfField(name, NUL, [side] + t);
    NextOfCons(side, t);
  }

  /** Every entry the encoder writes reads back as its name and side byte. */
  lemma EntryRoundTrip(name: Bytes, side: byte, t: Bytes)
    requires NUL !in name
    ensures ReadEntryOf(EntryBytes(name, side) + t) == Ok(Read((name, side), t))
  {
    match CatalogIndex(name)
    case Some(i) => IndexedEntryRoundTrip(i, side, t);
    case None => LiteralEntryRoundTrip(name, side, t);
  }

  lemma {:induction false} EntriesRoundTrip(m: ParamMap, ks: seq<Bytes>, acc: ParamMap, t: Bytes)
    requires forall i | 0 <= i < |ks| :: ks[i] in m && NUL !in ks[i]
    ensures ReadEntriesOf(EntriesBytes(m, ks) + t, |ks|, acc) == Ok(Read(Inserted(acc, m, ks), t))
    decreases |ks|
  {
    if ks == [] {
      assert EntriesBytes(m, ks) + t == t;
    } else {
      var k0 := ks[0];
      var rest := EntriesBytes(m, ks[1..]) + t;
      assert EntriesBytes(m, ks) + t == EntryBytes(k0, m[k0]) + rest;
      assert ReadEntryOf(EntryBytes(k0, m[k0]) + rest) == Ok(Read((k0, m[k0]), rest)) by {
        EntryRoundTrip(k0, m[k0], rest);
      }
      EntriesRoundTrip(m, ks[1..], acc[k0 := m[k0]], t);
      assert |ks[1..]| == |ks| - 1;
      assert ReadEntriesOf(EntriesBytes(m, ks) + t, |ks|, acc)
          == ReadEntriesOf(rest, |ks| - 1, acc[k0 := m[k0]]);
    }
  }

  /** Block round trip: a block written under BlockRoundTrips, followed by
      anything, reads back as the same (params, constant), leaving what
      followed. */
  lemma BlockRoundTrip(params: Option<ParamMap>, constant: Option<Bytes>, order: ParamOrder, t: Bytes)
    requires OrdersBlock(order, params) && BlockRoundTrips(params, constant)
    ensures ReadBlockOf(BlockBytes(params, constant, order) + t) == Ok(Read((params, constant), t))
  {
    match params
    case Some(m) =>
      var ks := order(m);
      var es := EntriesBytes(m, ks) + t;
      assert BlockBytes(params, constant, order) + t == [CountByte(|m|)] + es;
      NextOfCons(CountByte(|m|), es);
      assert CountByte(|m|) as nat == |ks|;
      assert ReadEntriesOf(es, |ks|, map[]) == Ok(Read(m, t)) by {
        EntriesRoundTrip(m, ks, map[], t);
        InsertedAll(m, ks);
      }
    case None =>
      match constant
      case Some(c) =>
        assert BlockBytes(params, constant, order) + t == [255 as byte] + (c + [NUL] + t);
        NextOfCons(255, c + [NUL] + t);
        ReadUntilOfField(c, NUL, t);
      case None =>
        NextOfCons(254, t);
  }

  /** A zero count decodes to no parameters, like a missing block: an empty
      map does not survive a round trip. */
  lemma ZeroCountIsNone(t: Bytes)
    ensures ReadBlockOf([0] + t) == Ok(Read((None, None), t))
  {
    NextOfCons(0, t);
  }
}
