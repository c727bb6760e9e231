# Spell binary codec, modelled in Dafny

The repository packs "spells" into a compact binary form and unpacks them again. A spell has a name, a list of required mods (each a name and a version) and a list of pieces on a grid. Each piece has a position `(x, y)`, a namespaced key such as `psi:connector`, an optional map from parameter names to side bytes, an optional constant and an optional comment.

There are two versions of the codec, and both are modelled:

- **Current codec** (`lib/src/lib.rs`). `extend_bin` / `bin` write:
  - the spell name and a NUL;
  - a mods header `name,version;…` whose last `;` is overwritten with `]` (a lone `]` when there are no mods);
  - then each piece: a position byte, an opcode byte, the opcode's payload, a NUL-terminated comment and, for the generic opcode 255 only, a parameter block.

  `decode` reads this back with a byte cursor. Opcode bytes go through `SpecialTag`'s `TryFrom<u8>` and `to_key`. Side bytes are looked up with `get_param`. Parameter names in the 43-entry `BUILTIN_PARAMS` catalog are written as one index byte.
- **Earlier codec** (`src/lib.rs`). Same header and parameter block, but a piece has no opcode byte. It is the position byte, the key with `psi:` stripped and a NUL, the comment and a NUL, and then always the parameter block. Its `bin` cannot fail.

**Modules**

| module | file | contents |
|---|---|---|
| `Wrappers` | wrappers.dfy | `Option`, `Result` and `Outcome` |
| `SpellTypes` | spell_types.dfy | The value types and the `byte` newtype (Rust's `u8`). The position byte, the `psi:` key namespace and the parameter catalog. |
| `ByteIO` | byte_io.dfy | The output buffer (`Vec<u8>`, a class with a `seq` field) and the input cursor (`Cursor`, a class with a position). The decoder's `next` and `read_until` helpers as specification functions (`NextOf`, `ReadUntilOf`) and as cursor methods proved against them. |
| `Header` | header.dfy | Writing and reading the name and mods header, in both versions. |
| `ParamBlock` | param_block.dfy | Writing and reading the generic parameter block, in both versions. |
| `Fields` | fields.dfy | What both piece formats share: the comment field and which pieces can be encoded. |
| `Codec` | codec.dfy | The current codec: opcodes, `get_param`, `extend_bin`, `bin`, `decode` and their round trip. |
| `LegacyCodec` | legacy_codec.dfy | The earlier codec: `bin`, `decode` and their round trip. |

**How the model is organised**
- **Specification functions.** Each wire format is a function: `HeaderBytes`, `BlockBytes`, `EmitPiece` / `Encode` (current), `PieceBytes` / `Encode` (earlier).
- **Decoders** are functions over the remaining input that return what they read and the rest: `ReadHeaderOf`, `ReadBlockOf`, `DecodePieceOf`, `DecodeSpell`.
- **Methods.** The imperative encoders append to a `ByteBuffer`, and the decoders advance a `Cursor`. Each method is proved to produce exactly what its specification function describes.
- **Round trips.** Lemmas prove that decoding an encoding gives the input back, under stated conditions.
- **Failed encodes.** The current encoder can fail part-way, and bytes already written stay in the caller's buffer. Its specification is an `Emission`: the bytes written and whether it stopped with an error.

## Model

| member | source | states |
|---|---|---|
| SpellTypes.UnpackXY | lib/src/lib.rs:480-482 | The decoder's `(xy >> 4, xy & 15)` gives coordinates below 16 whose packing is `xy` again, so every position byte is the packing of what it unpacks to |
| SpellTypes.PackXY | lib/src/lib.rs:321 | Defines the position byte `x << 4 \| (y & 0b1111)` on `u8`: the shift drops the high bits of `x`, the mask keeps the low four bits of `y` (same at src/lib.rs:142) |
| SpellTypes.PositionRoundTrip | lib/src/lib.rs:321 | Unpacking a packed position gives `(x mod 16, y mod 16)`; any `x, y <= 15` come back unchanged |
| SpellTypes.StripPsi | lib/src/lib.rs:312-317 | Stripping a leading `psi:` from a key of at least 4 bytes gives either the key itself or what follows the `psi:` prefix, at most 4 bytes shorter |
| SpellTypes.Namespaced | lib/src/lib.rs:487-498 | The decoder's key rule: a key containing `:` is kept; one without gets `psi:` in front; either way the result contains `:` |
| SpellTypes.NamespaceRoundTrip | src/lib.rs:134-138 | Stripping then re-namespacing returns the key exactly when it is `psi:` followed by `:`-free text, or a key outside `psi:` that contains `:` (both directions) |
| SpellTypes.CatalogIndex | lib/src/lib.rs:391 | `BUILTIN_PARAMS.iter().position`: a found index is in range and names that entry |
| SpellTypes.CatalogIndexSpec | lib/src/lib.rs:62-106 | The index found is the first matching entry, and None means no entry of the 43 matches |
| SpellTypes.CatalogIndexFrom | lib/src/lib.rs:391 | Searching from `i`: a hit at `r` matches, nothing in `i..r` matches; a miss means nothing from `i` on matches |
| ByteIO.ByteBuffer.constructor | lib/src/lib.rs:413 | `Vec::new()`: the buffer starts empty |
| ByteIO.ByteBuffer.Push | lib/src/lib.rs:293 | `Vec::push` appends one byte and changes nothing else |
| ByteIO.ByteBuffer.ExtendFromSlice | lib/src/lib.rs:292 | `extend_from_slice` appends the slice and changes nothing else |
| ByteIO.ByteBuffer.Set | lib/src/lib.rs:304-305 | `out[last] = b']'` replaces exactly one existing byte |
| ByteIO.Find | lib/src/lib.rs:424 | The position of the first `delim` at or after `i`, or the end of input when there is none |
| ByteIO.NextOf | lib/src/lib.rs:436-443 | `next` succeeds exactly on non-empty input, giving its first byte and the rest; on empty input it fails with UnexpectedEof |
| ByteIO.ReadUntilOf | lib/src/lib.rs:419-427 | `read_until` never consumes more than the input; what it reads is stated by ByteIO.ReadUntilOfSpec and ByteIO.ReadUntilOfField |
| ByteIO.ReadUntilOfSpec | lib/src/lib.rs:419-427 | The field read never contains the delimiter. With a delimiter present the input is field, delimiter, rest. Without one, everything is consumed and the last byte is dropped. |
| ByteIO.NextOfCons | src/lib.rs:196-203 | `next` on `[b] + t` reads `b` and leaves `t` |
| ByteIO.ReadUntilOfField | src/lib.rs:177-186 | A delimiter-free field followed by the delimiter is read back exactly, leaving what follows |
| ByteIO.Cursor.constructor | lib/src/lib.rs:449 | `Cursor::new(data)` starts at position 0 over `data` |
| ByteIO.Cursor.Next | lib/src/lib.rs:436-443 | The cursor's `next` gives what NextOf gives on the unread input and advances past it |
| ByteIO.Cursor.ReadUntil | lib/src/lib.rs:419-427 | The cursor's `read_until` gives what ReadUntilOf gives on the unread input and advances past it |
| Header.Entries | lib/src/lib.rs:296-303 | One `name,version` record per mod |
| Header.Entry | lib/src/lib.rs:297-301 | Defines one mod's record body: its name, a comma, its version |
| Header.ModRecords | lib/src/lib.rs:296-303 | For a non-empty mods list the records end in `;`, the byte the header then overwrites |
| Header.ModRecordsJoin | lib/src/lib.rs:296-303 | The records are the entries joined by `;` with a trailing `;` |
| Header.ModsFieldLayout | lib/src/lib.rs:295-308 | With no mods the field is a lone `]`; otherwise the records joined by `;` and closed with `]` |
| Header.ModsFieldExample | lib/src/lib.rs:295-308 | Mods `[a/1, b/2]` render as `a,1;b,2]` |
| Header.ModsField | lib/src/lib.rs:295-308 | Defines the mods field: the records with their last `;` overwritten by `]`, or a lone `]` when there are no mods |
| Header.HeaderBytes | lib/src/lib.rs:291-308 | Defines the header: the name, a NUL, then the mods field (same at src/lib.rs:110-129) |
| Header.RecordsFrom | lib/src/lib.rs:296-303 | The records from mod `i` on are mod `i`'s record followed by the rest |
| Header.OverwriteLast | lib/src/lib.rs:304-305 | Overwriting the last byte of `a + b` (with `b` non-empty) touches only `b`: the bytes already in the buffer stay put |
| Header.WriteRecord | lib/src/lib.rs:297-302 | Appends one mod's `name,version;` |
| Header.WriteHeader | lib/src/lib.rs:291-308 | Appends exactly the name, a NUL and the mods field, keeping what the buffer held before |
| Header.Split | lib/src/lib.rs:456 | `split(';')` gives at least one segment, none containing `;`, and joining them by `;` gives the input back |
| Header.SplitJoin | lib/src/lib.rs:456 | Splitting `;`-free segments joined by `;` gives the segments back |
| Header.ParseMods | lib/src/lib.rs:456-476 | The decoder always produces at least one mod, even from an empty field |
| Header.ScanName | lib/src/lib.rs:460-471 | A segment with no `,` or `;` is all name: empty version, separator not seen |
| Header.ScanVersion | lib/src/lib.rs:460-471 | `name,version` without further separators splits at the comma |
| Header.ParseEntry | lib/src/lib.rs:457-475 | A mod whose fields hold no `,` or `;` parses back from its record |
| Header.JoinNoByte | lib/src/lib.rs:455 | Joining segments free of a byte other than the separator gives a result free of it, so the `]` search stops at the header's end |
| Header.ParseModsField | lib/src/lib.rs:455-476 | For mods with no `,`, `;` or `]` in their fields, the field before `]` has no `]`, and it parses to the mods, or to one empty mod when the list is empty |
| Header.ReadHeaderOf | lib/src/lib.rs:450-477 | Reading the header never consumes more than the input; the name and mods read back are stated by Header.HeaderRoundTrip and Header.ParseModsField |
| Header.HeaderRoundTrip | src/lib.rs:110-129 | For a NUL-free name and separator-free mods, the decoder reads back the name and the mods (an empty list as one empty mod), leaving what follows |
| Header.ReadHeader | src/lib.rs:210-238 | The cursor reads what ReadHeaderOf gives on the unread input and advances past it |
| Header.ScanMods | lib/src/lib.rs:456-476 | The decoder's loop over `;` segments produces ParseMods of the field |
| Header.ScanRecord | lib/src/lib.rs:457-475 | The byte loop over one segment produces ParseMod of it |
| Header.ScanMod | lib/src/lib.rs:457-471 | Defines the `name_done` scan over one record: bytes before the first `,` or `;` form the name, later non-separator bytes the version |
| Header.ParseMod | lib/src/lib.rs:457-475 | Defines the mod built from one record's scan |
| ParamBlock.EntriesFrom | lib/src/lib.rs:390-399 | The entries from key `i` on are key `i`'s entry followed by the rest |
| ParamBlock.WriteEntry | lib/src/lib.rs:391-398 | Appends a catalog entry as its index and side, or a literal one as 255, name, NUL and side |
| ParamBlock.WriteParamBlock | src/lib.rs:150-168 | Appends exactly the block: count and entries in the map's iteration order, else 255, constant and NUL, else 254 |
| ParamBlock.NonEmpty | lib/src/lib.rs:588-592 | An empty decoded map becomes None, so a Some result is never empty |
| ParamBlock.ParamNameOf | src/lib.rs:274-280 | Index 255 reads a literal name. An index in 43..254 is the CatalogIndexOutOfRange error (the Rust code's out-of-bounds panic), and only those indices fail. |
| ParamBlock.ReadEntryOf | lib/src/lib.rs:576-584 | Reading one entry consumes at least one byte |
| ParamBlock.ReadEntriesOf | lib/src/lib.rs:575-585 | Reading `n` entries never consumes more than the input; the map read back is stated by ParamBlock.EntriesRoundTrip |
| ParamBlock.ReadBlockOf | lib/src/lib.rs:570-592 | Reading the block consumes at least its type byte and never yields both a map and a constant |
| ParamBlock.ReadEntry | lib/src/lib.rs:576-584 | The cursor reads what ReadEntryOf gives on the unread input and advances past it |
| ParamBlock.ReadEntries | src/lib.rs:272-283 | The `for _ in 0..len` loop reads what ReadEntriesOf gives, stopping at the first error |
| ParamBlock.ReadParamBlock | src/lib.rs:268-290 | The cursor reads what ReadBlockOf gives on the unread input and advances past it |
| ParamBlock.InsertedContents | lib/src/lib.rs:584 | Inserting the read entries gives a map holding exactly the old keys and the new ones, with the new values winning |
| ParamBlock.InsertedAll | lib/src/lib.rs:584 | Inserting every key of `m` into an empty map gives `m` |
| ParamBlock.CountByte | lib/src/lib.rs:389 | Defines the count byte `params.len() as u8`, which wraps modulo 256 |
| ParamBlock.EntryBytes | lib/src/lib.rs:391-398 | Defines one entry: the catalog index and the side, or 255, the name, NUL and the side |
| ParamBlock.EntriesBytes | lib/src/lib.rs:390-399 | Defines the entries of a map in the order of a given key sequence |
| ParamBlock.BlockBytes | lib/src/lib.rs:388-406 | Defines the block: the count and the entries in the map's order, else 255, the constant and NUL, else 254 (same at src/lib.rs:150-168) |
| ParamBlock.BlockLen | lib/src/lib.rs:388-406 | A block is at least one byte, and the constant form is the constant plus two bytes |
| ParamBlock.OrderShows | lib/src/lib.rs:390-399 | The iteration order shows in the output: two enumerations of one map that start with different catalog names give different blocks |
| ParamBlock.IndexedEntryRoundTrip | lib/src/lib.rs:392 | A catalog entry written as its index reads back as that catalog name and its side |
| ParamBlock.LiteralEntryRoundTrip | lib/src/lib.rs:394-396 | A NUL-free literal name written as 255, name, NUL reads back with its side |
| ParamBlock.EntryRoundTrip | lib/src/lib.rs:391-398 | Any NUL-free name's entry reads back as that name and side |
| ParamBlock.EntriesRoundTrip | lib/src/lib.rs:389-399 | The entries for an enumeration of keys read back into the map those keys insert |
| ParamBlock.BlockRoundTrip | src/lib.rs:150-168 | A block with 1 to 253 entries and NUL-free names and no constant, or no map and at most a NUL-free constant, reads back as the same map and constant, whatever the iteration order |
| ParamBlock.ZeroCountIsNone | lib/src/lib.rs:571-592 | A count of 0 reads as no map and no constant |
| Fields.CommentOf | lib/src/lib.rs:545-550 | The decoded comment is None exactly when the field is empty |
| Fields.CommentRoundTrip | src/lib.rs:145-148 | An absent or non-empty NUL-free comment is read back up to its NUL and becomes the same comment |
| Fields.StripPsiNoNul | lib/src/lib.rs:313-317 | Stripping `psi:` keeps a NUL-free key NUL-free |
| Fields.AllEncodableFrom | lib/src/lib.rs:310 | If every piece of a list can be written, each in its own order, so can the pieces from `i` on |
| Codec.TagOf | lib/src/lib.rs:236-265 | `TryFrom<u8>` succeeds exactly on 0 to 19 and 255, giving the opcode with that discriminant; any other byte is InvalidDiscriminant |
| Codec.DiscriminantRoundTrip | lib/src/lib.rs:123-147 | Every opcode's `as u8` value decodes back to that opcode |
| Codec.Discriminant | lib/src/lib.rs:330 | Defines `special_tag as u8`: 0 to 19 for the named opcodes and 255 for the generic one (declared at lib/src/lib.rs:123-147) |
| Codec.TagName | lib/src/lib.rs:177-202 | Defines the name `to_key` puts after `psi:` for each opcode but the generic one |
| Codec.FixedParams | lib/src/lib.rs:332-373 | Defines the parameters each opcode writes as bare side bytes, in the order written; the decoder reads the same lists at lib/src/lib.rs:506-543 |
| Codec.ToKey | lib/src/lib.rs:178-202 | `to_key` is None exactly for opcode 255, and otherwise a key starting with `psi:` |
| Codec.EncoderTag | lib/src/lib.rs:323-328 | The encoder only ever picks Connector, ConstantNumber, VectorConstruct or 255 |
| Codec.EncoderTagNames | lib/src/lib.rs:323-328 | A chosen special opcode was chosen for its own name, and each of the three names selects its opcode |
| Codec.GetParam | lib/src/lib.rs:271-287 | Gives the side byte exactly when the map exists and holds the key; otherwise a missing-parameter error naming the piece's position and key, always reporting `_target` |
| Codec.EmitSides | lib/src/lib.rs:339-373 | Defines one `get_param` side byte per name, stopping with the error at the first missing one |
| Codec.Payload | lib/src/lib.rs:331-374 | Defines the opcode's payload: the constant and NUL for ConstantNumber, the stripped key and NUL for the generic opcode, the side bytes of its fixed parameters otherwise |
| Codec.PieceTail | lib/src/lib.rs:376-406 | Defines what follows the payload: the comment and NUL, then the block unless the opcode is 0, 1 or 2 |
| Codec.PieceBody | lib/src/lib.rs:331-406 | Defines a piece after its two head bytes: the payload and, unless it failed, the tail |
| Codec.EmitPiece | lib/src/lib.rs:311-406 | Defines one piece: the position byte, the opcode byte chosen from the stripped key, then the body |
| Codec.EmitPieces | lib/src/lib.rs:310-407 | Defines the pieces in turn, piece `i` in its own map's order, stopping at the first that fails |
| Codec.Encode | lib/src/lib.rs:290-410 | Defines `extend_bin`'s output: the header, then the pieces |
| Codec.SidesFrom | lib/src/lib.rs:348-350 | With parameter `i` present, the sides from `i` are its byte followed by the rest |
| Codec.WriteSides | lib/src/lib.rs:348-350 | Appends one byte per parameter and stops at the first missing one, with the error and what was written |
| Codec.WritePayload | lib/src/lib.rs:331-374 | Appends the opcode's payload, and reports exactly the payload's error |
| Codec.WriteTail | lib/src/lib.rs:376-406 | Appends the comment and its NUL, then the block unless the opcode is 0, 1 or 2 |
| Codec.WriteBody | lib/src/lib.rs:331-406 | Appends the payload and, unless it failed, the tail |
| Codec.WritePiece | lib/src/lib.rs:311-406 | Appends exactly the piece's encoding and reports its outcome |
| Codec.PiecesFrom | lib/src/lib.rs:310 | The pieces from `i` encode as piece `i` in its own order and then, unless it failed, the rest |
| Codec.ExtendBin | lib/src/lib.rs:290-410 | `extend_bin` only appends: the buffer becomes its old contents plus the spell's encoding (the bytes up to the failure when a parameter is missing), and reports that outcome |
| Codec.WritePieces | lib/src/lib.rs:310-407 | Appends the pieces' encoding, each piece in its own map's order, stopping at the first piece that fails |
| Codec.OwesAll | lib/src/lib.rs:310 | Before the loop, the whole encoding of the pieces is still owed |
| Codec.OwesNothing | lib/src/lib.rs:310-409 | Once every piece is written nothing is owed and the encoding passed |
| Codec.WriteNextPiece | lib/src/lib.rs:310-407 | One piece written either fails with the list's error and encoding, or leaves the rest owed |
| Codec.EncodeLayout | lib/src/lib.rs:290-310 | After a prefix, the spell's encoding is its header then its pieces, with the pieces' outcome |
| Codec.ThenStep | lib/src/lib.rs:339 | After a step that failed nothing more is written; after one that passed the next step is owed |
| Codec.Bin | lib/src/lib.rs:412-416 | `bin` is `extend_bin` on an empty buffer: the encoding when it passes, the error otherwise |
| Codec.SidesLen | lib/src/lib.rs:339-373 | The fixed payload writes at most one side byte per parameter name |
| Codec.GenericBodyLen | lib/src/lib.rs:352-406 | Under opcode 255 a piece body is as long as the key, a NUL, the comment, a NUL and the block |
| Codec.BlockFreeBodyLen | lib/src/lib.rs:376-386 | Under opcodes 0 to 2 a piece body is no longer than the payload, the comment and a NUL |
| Codec.TagMinimal | lib/src/lib.rs:323-386 | A piece with the shape of opcode 0, 1 or 2 is written strictly shorter under that opcode than under the generic opcode 255 |
| Codec.KeyOf | lib/src/lib.rs:484-501 | Reading the key never consumes more than the input; the key read back is stated by Codec.GenericBodyRoundTrip and Codec.SpecialBodyRoundTrip |
| Codec.ReadSidesOf | lib/src/lib.rs:520-522 | Reading the fixed side bytes never consumes more than the input |
| Codec.FixedOf | lib/src/lib.rs:506-543 | Reading an opcode's fixed payload never consumes more than the input; what it reads is stated by Codec.SpecialPayloadRoundTrip and Codec.FixedOfNoTag |
| Codec.DecodeBodyOf | lib/src/lib.rs:484-602 | Reading a piece after its opcode never consumes more than the input; the piece read back is stated by Codec.SpecialBodyRoundTrip and Codec.GenericBodyRoundTrip |
| Codec.DecodePieceOf | lib/src/lib.rs:480-602 | Reading a piece consumes at least one byte |
| Codec.ReadKey | lib/src/lib.rs:484-501 | The cursor reads what KeyOf gives and advances past it |
| Codec.ReadSides | lib/src/lib.rs:520-522 | The cursor reads what ReadSidesOf gives and advances past it |
| Codec.ReadFixed | lib/src/lib.rs:506-543 | The cursor reads what FixedOf gives and advances past it |
| Codec.DecodePiece | lib/src/lib.rs:480-602 | The cursor reads what DecodePieceOf gives and advances past it |
| Codec.Decode | lib/src/lib.rs:418-606 | `decode` gives exactly DecodeSpell: the header then pieces until the input is exhausted, or the first error |
| Codec.DecodePiecesOf | lib/src/lib.rs:479-603 | Defines the decoding loop: pieces until the input runs out, or the first error |
| Codec.DecodeSpell | lib/src/lib.rs:418-606 | Defines `decode`: the header, then the pieces to the end of input |
| Codec.SidesRoundTrip | lib/src/lib.rs:348-350 | With all named parameters present, their side bytes are written and read back into the map those names insert |
| Codec.EmitPieceLayout | lib/src/lib.rs:321-406 | A piece is its position byte, its opcode byte and its payload, then the tail unless the payload failed |
| Codec.DecodeHead | lib/src/lib.rs:480-483 | A position byte with coordinates below 16 and an opcode byte are read back, leaving the body to decode |
| Codec.SpecialPayloadRoundTrip | lib/src/lib.rs:339-351 | A special opcode's payload, for a piece carrying exactly its parameters or constant, is written and read back |
| Codec.SpecialBodyRoundTrip | lib/src/lib.rs:484-567 | A special piece's payload and comment read back as the piece, its key restored by `to_key` |
| Codec.BlockFreeTail | lib/src/lib.rs:381-386 | Opcodes 0 to 2 are followed only by the comment and its NUL |
| Codec.DecodeSpecialBody | lib/src/lib.rs:552-567 | After a special opcode, the decoded piece takes the `to_key` key, the payload's map (None when empty) and constant, and the comment |
| Codec.SpecialParamsBack | lib/src/lib.rs:556-560 | For the three emitted special opcodes the decoded map, emptied to None, is the piece's own |
| Codec.SpecialPieceRoundTrip | lib/src/lib.rs:323-386 | A piece the encoder writes with opcode 0, 1 or 2 encodes successfully and decodes back to itself |
| Codec.PassLayout | lib/src/lib.rs:321-406 | When the payload passes, the piece passes and is position, opcode, payload and tail |
| Codec.GenericTailRoundTrip | lib/src/lib.rs:545-592 | For opcode 255 the comment and the block read back as the piece's |
| Codec.GenericBodyRoundTrip | lib/src/lib.rs:487-602 | For opcode 255 the key, comment and block read back as the piece |
| Codec.FixedOfNoTag | lib/src/lib.rs:542 | Opcode 255 has no fixed payload |
| Codec.GenericLayout | lib/src/lib.rs:352-355 | Opcode 255 cannot fail and writes the stripped key and a NUL as its payload |
| Codec.GenericPieceRoundTrip | lib/src/lib.rs:352-406 | A piece written with opcode 255 encodes successfully and decodes back to itself |
| Codec.PieceRoundTrip | lib/src/lib.rs:311-602 | Every piece meeting PieceRoundTrips encodes successfully and decodes back to itself, leaving what followed |
| Codec.PiecesRoundTrip | lib/src/lib.rs:310-407 | A list of such pieces encodes successfully, whatever order each map is visited in, and decodes to the same list |
| Codec.PiecesCons | lib/src/lib.rs:479-603 | A non-empty list round-trips once its tail does: the first piece decodes alone, then the rest |
| Codec.PiecesRoundTripsTail | lib/src/lib.rs:310 | The round-trip condition on a list holds of its tail |
| Codec.PiecesStep | lib/src/lib.rs:479-603 | The first piece decodes on its own, leaving the encoding of the rest |
| Codec.DecodePiecesStep | lib/src/lib.rs:479-603 | The decoding loop goes on after a decoded piece |
| Codec.SpellRoundTrip | lib/src/lib.rs:290-606 | A spell meeting the conditions encodes successfully, and decode gives it back, with an empty mods list read as one empty mod |
| Codec.SpellRoundTripExact | lib/src/lib.rs:290-606 | With at least one mod the spell comes back exactly |
| Codec.ConnectorPieceBytes | lib/src/lib.rs:321-386 | The connector with `_target` 3 is the bytes 00 00 03 00, whatever the map's order |
| Codec.ConnectorExample | lib/src/lib.rs:290-410 | The `Test` spell with that connector and no mods encodes to `Test`, NUL, `]`, 00 00 03 00 |
| Codec.ConnectorKey | lib/src/lib.rs:312-324 | `psi:connector` is stripped to `connector`, which selects opcode 0 |
| Codec.MissingTargetPayload | lib/src/lib.rs:271-287 | A connector without a map writes no payload byte and fails with the missing `_target` error naming its position and key |
| Codec.MissingTargetPiece | lib/src/lib.rs:339 | A connector without parameters stops after its position and opcode with the missing-parameter error |
| Codec.MissingTargetExample | lib/src/lib.rs:290-339 | That spell fails, leaving the header and the two piece bytes written |
| Codec.OnePiece | lib/src/lib.rs:290-410 | A spell with one piece encodes as its header and then that piece |
| Codec.UnknownOpcode | lib/src/lib.rs:483 | A piece whose opcode byte is in 20..254 fails to decode with InvalidDiscriminant, whatever follows |
| LegacyCodec.PiecesFrom | src/lib.rs:131 | The pieces from `i` encode as piece `i` in its own order followed by the rest |
| LegacyCodec.PieceBytes | src/lib.rs:132-168 | Defines one piece: the position byte, the stripped key and NUL, the comment (nothing when absent) and NUL, then the block |
| LegacyCodec.PiecesBytes | src/lib.rs:131-169 | Defines the pieces in turn, piece `i` in its own map's order |
| LegacyCodec.Encode | src/lib.rs:108-172 | Defines `bin`'s output: the header, then the pieces |
| LegacyCodec.WritePiece | src/lib.rs:132-168 | Appends exactly the piece's encoding: position, stripped key, NUL, comment, NUL, block |
| LegacyCodec.WriteField | src/lib.rs:143-144 | Appends a field and its NUL |
| Fields.WriteComment | lib/src/lib.rs:376-379 | Appends the comment, or nothing when absent, then a NUL (same at src/lib.rs:145-148) |
| LegacyCodec.Bin | src/lib.rs:108-172 | `bin` returns exactly the header followed by every piece, and cannot fail |
| LegacyCodec.WritePieces | src/lib.rs:131-169 | Appends the encoding of every piece in order, each in its own map's order |
| LegacyCodec.OwesAll | src/lib.rs:131 | Before the loop, the whole encoding of the pieces is still owed |
| LegacyCodec.WriteNextPiece | src/lib.rs:131-169 | One piece written leaves the rest of the list owed |
| LegacyCodec.DecodePieceOf | src/lib.rs:241-300 | Reading a piece consumes at least one byte |
| LegacyCodec.DecodePiece | src/lib.rs:241-300 | The cursor reads what DecodePieceOf gives and advances past it |
| LegacyCodec.Decode | src/lib.rs:175-304 | `decode` gives exactly DecodeSpell: the header then pieces until the input is exhausted, or the first error |
| LegacyCodec.DecodePiecesOf | src/lib.rs:240-301 | Defines the decoding loop: pieces until the input runs out, or the first error |
| LegacyCodec.DecodeSpell | src/lib.rs:175-304 | Defines `decode`: the header, then the pieces to the end of input |
| LegacyCodec.DecodeParts | src/lib.rs:241-290 | A position byte below 16/16, a NUL-free key with its NUL, a comment with its NUL and a readable block decode to the piece with the key namespaced |
| LegacyCodec.PieceRoundTrip | src/lib.rs:132-300 | A piece with coordinates below 16, a NUL-free key that survives namespacing, a surviving comment and a surviving block decodes back to itself |
| LegacyCodec.PieceLayout | src/lib.rs:142-168 | The piece's bytes regroup as position, then key field, then comment field, then block |
| LegacyCodec.PiecesRoundTrip | src/lib.rs:131-169 | A list of such pieces decodes to the same list, whatever order each map is visited in |
| LegacyCodec.PiecesRoundTripsTail | src/lib.rs:131 | The round-trip condition on a list holds of its tail |
| LegacyCodec.PiecesStep | src/lib.rs:240-301 | The first piece decodes on its own, leaving the encoding of the rest |
| LegacyCodec.DecodePiecesStep | src/lib.rs:240-301 | The decoding loop goes on after a decoded piece |
| LegacyCodec.SpellRoundTrip | src/lib.rs:106-304 | Decoding `bin`'s output gives the spell back, with an empty mods list read as one empty mod |
| LegacyCodec.TickExample | src/lib.rs:108-172 | A `Test` spell with one `psi:tick` piece at (1, 2) and nothing else encodes to `Test`, NUL, `]`, 0x12, `tick`, NUL, NUL, 254 |
| LegacyCodec.TickRoundTrip | src/lib.rs:175-304 | That spell decodes back, with its mods as one empty mod |

## Left out

- zstd compression, base64 URL-safe text, SNBT conversion, the wasm and JavaScript glue, and `main`: these are I/O and foreign libraries around the codec.
- UTF-8 validation of decoded strings (`btos`): strings are byte sequences here, so a decode never fails for invalid UTF-8.
- The `ptr::copy` splice that prepends `psi:` to a decoded key is modelled as sequence concatenation.
- The short-key panic in both encoders (`&key[0..4]` on a key shorter than 4 bytes) is a precondition (`Encodable`), not a modelled crash.
- The catalog index panic in both decoders (an index of 43 to 254) is modelled as the error `CatalogIndexOutOfRange`, not as a crash.
- `HashMap` iteration order is unspecified, and each deserialized map has its own hasher state, so both encoders take one order per piece (`orders[i]`, a `ParamOrder`), each required to enumerate that piece's map once. Two pieces with equal maps can therefore be written in different orders. How the hasher picks an order is not modelled.
- The integer widths: `params.len() as u8` wraps modulo 256 (`CountByte`); `pos as u8` always fits, since the catalog has 43 entries.
- `From<&[u8]> for SpecialTag` is not modelled: nothing calls it. It maps `operator_divide` to VectorDiv and `operator_vector_divide` to Div, the reverse of `to_key`.
- Error messages (`Display` impls) are left out; errors are datatype values.
- Codec.ToKey: the contract states that every key starts with `psi:`, but not that the rest is free of `:`. That fact holds of the twenty names but is not proved, so the round trip of a special piece requires `ToKey(tag) == Some(key)` directly.
- Codec.EncoderTag: only the three names the encoder's `match key` recognises select an opcode. The other seventeen opcodes are produced only by the decoder.
- The parameter-pushing code for opcodes 3 to 19 in `extend_bin` is modelled through FixedParams, one list of names per opcode, but the encoder never reaches it.
