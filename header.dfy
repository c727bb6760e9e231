/** The spell header both codecs share: the NUL-terminated name, then the
    mods list as `name,version;name,version;…` with the final `;` overwritten
    by `]` (a lone `]` when there are no mods), and its decoder. */
module Header {
  import opened Wrappers
  import opened SpellTypes
  import opened ByteIO

  // ---------------------------------------------------------------------------
  // Encoding

  /** The `name , version` body of one mod record. */
  function Entry(m: Mod): Bytes {
    m.name + [COMMA] + m.version
  }

  function Entries(mods: seq<Mod>): (r: seq<Bytes>)
    ensures |r| == |mods|
  {
    seq(|mods|, i requires 0 <= i < |mods| => Entry(mods[i]))
  }

  /** The records as the encoder's loop pushes them, each closed by `;`. */
  function ModRecords(mods: seq<Mod>): (r: Bytes)
    ensures mods != [] ==> |r| > 0 && r[|r| - 1] == SEMICOLON
  {
    if mods == [] then [] else Entry(mods[0]) + [SEMICOLON] + ModRecords(mods[1..])
  }

  /** The mods field: the records with the last byte overwritten by `]`, or
      a lone `]` for an empty list. */
  function ModsField(mods: seq<Mod>): Bytes {
    if mods == [] then [CLOSE_BRACKET]
    else
      var recs := ModRecords(mods);
      recs[|recs| - 1 := CLOSE_BRACKET]
  }

  function HeaderBytes(s: Spell): Bytes {
    s.name + [NUL] + ModsField(s.mods)
  }

  /** `segs[0] sep segs[1] sep … segs[n-1]`. */
  function Join(segs: seq<Bytes>, sep: byte): Bytes
    requires |segs| > 0
  {
    if |segs| == 1 then segs[0] else segs[0] + [sep] + Join(segs[1..], sep)
  }

  lemma {:induction false} ModRecordsJoin(mods: seq<Mod>)
    requires mods != []
    ensures ModRecords(mods) == Join(Entries(mods), SEMICOLON) + [SEMICOLON]
  {
    if |mods| > 1 {
      ModRecordsJoin(mods[1..]);
      assert Entries(mods)[1..] == Entries(mods[1..]);
    }
  }

  /** Header layout: the mods field is the `,`-joined records separated by
      `;` and closed by `]`; the empty list gives a lone `]`. */
  lemma ModsFieldLayout(mods: seq<Mod>)
    ensures mods == [] ==> ModsField(mods) == [CLOSE_BRACKET]
    ensures mods != [] ==> ModsField(mods) == Join(Entries(mods), SEMICOLON) + [CLOSE_BRACKET]
  {
    if mods != [] {
      ModRecordsJoin(mods);
    }
  }

  /** The mods `[a/1, b/2]` render as `a,1;b,2]` (bytes 0x61 `a`, 0x31 `1`,
      0x62 `b`, 0x32 `2`). */
  lemma ModsFieldExample()
    ensures ModsField([Mod([0x61], [0x31]), Mod([0x62], [0x32])])
         == [0x61, COMMA, 0x31, SEMICOLON, 0x62, COMMA, 0x32, CLOSE_BRACKET]
  {
    var mods := [Mod([0x61], [0x31]), Mod([0x62], [0x32])];
    assert mods[1..][1..] == [];
  }

  lemma RecordsFrom(mods: seq<Mod>, i: nat)
    requires i < |mods|
    ensures ModRecords(mods[i..]) == Entry(mods[i]) + [SEMICOLON] + ModRecords(mods[i + 1..])
  {
    assert mods[i..][1..] == mods[i + 1..];
  }

  lemma OverwriteLast(a: Bytes, b: Bytes, x: byte)
    requires |b| > 0
    ensures (a + b)[|a + b| - 1 := x] == a + b[|b| - 1 := x]
  {
  }

  /** One mod record: name, `,`, version, `;`. */
  method WriteRecord(m: Mod, out: ByteBuffer)
    modifies out
    ensures out.bytes == old(out.bytes) + (Entry(m) + [SEMICOLON])
  {
    out.ExtendFromSlice(m.name);
    out.Push(COMMA);
    out.ExtendFromSlice(m.version);
    out.Push(SEMICOLON);
  }

  /** `extend_bin`'s header part: append the name, a 0 byte, then the mod
      records, and overwrite the last `;` (which always lies in the newly
      written part) with `]`. */
  method WriteHeader(s: Spell, out: ByteBuffer)
    modifies out
    ensures out.bytes == old(out.bytes) + HeaderBytes(s)
  {
    out.ExtendFromSlice(s.name);
    out.Push(NUL);
    ghost var start := out.bytes;
    if |s.mods| > 0 {
      for i := 0 to |s.mods|
        invariant out.bytes + ModRecords(s.mods[i..]) == start + ModRecords(s.mods)
      {
        ghost var before := out.bytes;
        WriteRecord(s.mods[i], out);
        RecordsFrom(s.mods, i);
        AppendAssoc(before, Entry(s.mods[i]) + [SEMICOLON], ModRecords(s.mods[i + 1..]));
      }
      assert s.mods[|s.mods|..] == [];
      var recs := ModRecords(s.mods);
      assert out.bytes == start + recs;
      var last := |out.bytes| - 1;
      out.Set(last, CLOSE_BRACKET);
      OverwriteLast(start, recs, CLOSE_BRACKET);
    } else {
      out.Push(CLOSE_BRACKET);
    }
  }

  // ---------------------------------------------------------------------------
  // Decoding

  /** `slice::split`: the runs between separators, at least one. */
  function Split(s: Bytes, sep: byte): (r: seq<Bytes>)
    ensures |r| > 0
    ensures forall i | 0 <= i < |r| :: sep !in r[i]
    ensures Join(r, sep) == s
    decreases |s|
  {
    var j := Find(s, 0, sep);
    if j == |s| then
      assert s[..j] == s;
      [s]
    else
      var rest := Split(s[j + 1..], sep);
      assert s == s[..j] + [sep] + s[j + 1..];
      [s[..j]] + rest
  }

  lemma {:induction false} SplitJoin(segs: seq<Bytes>, sep: byte)
    requires |segs| > 0
    requires forall i | 0 <= i < |segs| :: sep !in segs[i]
    ensures Split(Join(segs, sep), sep) == segs
    decreases |segs|
  {
    var s := Join(segs, sep);
    var j := Find(s, 0, sep);
    if |segs| == 1 {
      assert j == |s|;
    } else {
      var tail := Join(segs[1..], sep);
      assert s == segs[0] + [sep] + tail;
      assert s[|segs[0]|] == sep;
      forall k | 0 <= k < |segs[0]| ensures s[k] != sep {
        assert s[k] == segs[0][k];
      }
      assert j == |segs[0]|;
      assert s[..j] == segs[0];
      assert s[j + 1..] == tail;
      SplitJoin(segs[1..], sep);
    }
  }

  /** The decoder's `name_done` scan over one record: bytes before the first
      `,` or `;` form the name, later non-separator bytes the version.
      Returns (name, version, name_done) after the whole record. */
  function ScanMod(seg: Bytes): (Bytes, Bytes, bool) {
    if seg == [] then ([], [], false)
    else
      var (name, version, nameDone) := ScanMod(seg[..|seg| - 1]);
      var b := seg[|seg| - 1];
      if b == COMMA || b == SEMICOLON then (name, version, true)
      else if !nameDone then (name + [b], version, false)
      else (name, version + [b], true)
  }

  function ParseMod(seg: Bytes): Mod {
    var (name, version, _) := ScanMod(seg);
    Mod(name, version)
  }

  /** The mods list from the bytes before `]`: one mod per `;`-separated
      record, so an empty field still yields one mod. */
  function ParseMods(field: Bytes): (mods: seq<Mod>)
    ensures |mods| > 0
  {
    var segs := Split(field, SEMICOLON);
    seq(|segs|, i requires 0 <= i < |segs| => ParseMod(segs[i]))
  }

  predicate NoSeparator(b: Bytes) {
    COMMA !in b && SEMICOLON !in b
  }

  lemma {:induction false} ScanName(n: Bytes)
    requires NoSeparator(n)
    ensures ScanMod(n) == (n, [], false)
    decreases |n|
  {
    if n != [] {
      ScanName(n[..|n| - 1]);
      assert n[..|n| - 1] + [n[|n| - 1]] == n;
    }
  }

  lemma {:induction false} ScanVersion(n: Bytes, v: Bytes)
    requires NoSeparator(n) && NoSeparator(v)
    ensures ScanMod(n + [COMMA] + v) == (n, v, true)
    decreases |v|
  {
    var seg := n + [COMMA] + v;
    if v == [] {
      assert seg[..|seg| - 1] == n;
      ScanName(n);
    } else {
      var v' := v[..|v| - 1];
      assert seg[..|seg| - 1] == n + [COMMA] + v';
      ScanVersion(n, v');
      assert v' + [v[|v| - 1]] == v;
    }
  }

  /** A record whose fields have no separators parses back to its mod. */
  lemma ParseEntry(m: Mod)
    requires NoSeparator(m.name) && NoSeparator(m.version)
    ensures ParseMod(Entry(m)) == m
  {
    ScanVersion(m.name, m.version);
  }

  predicate ModFieldOk(b: Bytes) {
    NoSeparator(b) && CLOSE_BRACKET !in b
  }

  predicate ModsOk(mods: seq<Mod>) {
    forall i | 0 <= i < |mods| :: ModFieldOk(mods[i].name) && ModFieldOk(mods[i].version)
  }

  /** What the decoder makes of an encoded mods list: the list itself, except
      that an empty list comes back as one mod with empty name and version. */
  function DecodedMods(mods: seq<Mod>): seq<Mod> {
    if mods == [] then [Mod([], [])] else mods
  }

  lemma JoinNoByte(segs: seq<Bytes>, sep: byte, b: byte)
    requires |segs| > 0 && b != sep
    requires forall i | 0 <= i < |segs| :: b !in segs[i]
    ensures b !in Join(segs, sep)
  {
    if |segs| > 1 {
      JoinNoByte(segs[1..], sep, b);
    }
  }

  /** Mods round trip: parsing the field written for `mods` gives
      DecodedMods(mods). */
  lemma ParseModsField(mods: seq<Mod>)
    requires ModsOk(mods)
    ensures CLOSE_BRACKET !in ModsField(mods)[..|ModsField(mods)| - 1]
    ensures ParseMods(ModsField(mods)[..|ModsField(mods)| - 1]) == DecodedMods(mods)
  {
    ModsFieldLayout(mods);
    if mods == [] {
      assert Split([], SEMICOLON) == [[]];
      assert ScanMod([]) == ([], [], false);
    } else {
      var segs := Entries(mods);
      var field := Join(segs, SEMICOLON);
      assert ModsField(mods)[..|ModsField(mods)| - 1] == field;
      forall i | 0 <= i < |segs|
        ensures SEMICOLON !in segs[i] && CLOSE_BRACKET !in segs[i]
        ensures ParseMod(segs[i]) == mods[i]
      {
        ParseEntry(mods[i]);
      }
      JoinNoByte(segs, SEMICOLON, CLOSE_BRACKET);
      SplitJoin(segs, SEMICOLON);
    }
  }

  /** The decoder's header: the name up to NUL, then the mods field up to `]`. */
  function ReadHeaderOf(s: Bytes): (r: Read<(Bytes, seq<Mod>)>)
    ensures |r.rest| <= |s|
  {
    var name := ReadUntilOf(s, NUL);
    var field := ReadUntilOf(name.rest, CLOSE_BRACKET);
    Read((name.val, ParseMods(field.val)), field.rest)
  }

  /** Header round trip: a header followed by anything decodes to the name
      and DecodedMods(mods), leaving what followed the header. */
  lemma HeaderRoundTrip(s: Spell, t: Bytes)
    requires NUL !in s.name && ModsOk(s.mods)
    ensures ReadHeaderOf(HeaderBytes(s) + t) == Read((s.name, DecodedMods(s.mods)), t)
  {
    var field := ModsField(s.mods);
    var body := field[..|field| - 1];
    assert ReadUntilOf(HeaderBytes(s) + t, NUL) == Read(s.name, field + t) by {
      assert HeaderBytes(s) + t == s.name + [NUL] + (field + t);
      ReadUntilOfField(s.name, NUL, field + t);
    }
    assert ReadUntilOf(field + t, CLOSE_BRACKET) == Read(body, t) by {
      ModsFieldLayout(s.mods);
      assert field + t == body + [CLOSE_BRACKET] + t;
      ParseModsField(s.mods);
      ReadUntilOfField(body, CLOSE_BRACKET, t);
    }
    assert ParseMods(body) == DecodedMods(s.mods) by {
      ParseModsField(s.mods);
    }
  }

  /** The decoder's header part: read the name, read the mods field, split
      it on `;` and scan each record with a `name_done` flag. */
  method ReadHeader(cursor: Cursor) returns (name: Bytes, mods: seq<Mod>)
    requires cursor.pos <= |cursor.data|
    modifies cursor
    ensures cursor.pos <= |cursor.data|
    ensures ReadHeaderOf(cursor.data[old(cursor.pos)..]) == Read((name, mods), cursor.data[cursor.pos..])
  {
    name := cursor.ReadUntil(NUL);
    var field := cursor.ReadUntil(CLOSE_BRACKET);
    mods := ScanMods(field);
  }

  /** The decoder's loop over the `;`-separated records of the mods field. */
  method ScanMods(field: Bytes) returns (mods: seq<Mod>)
    ensures mods == ParseMods(field)
  {
    var segs := Split(field, SEMICOLON);
    mods := [];
    for i := 0 to |segs|
      invariant |mods| == i
      invariant forall k | 0 <= k < i :: mods[k] == ParseMod(segs[k])
    {
      var m := ScanRecord(segs[i]);
      mods := mods + [m];
    }
  }

  /** One record: bytes go to the name until the first `,` or `;`, and to
      the version after it. */
  method ScanRecord(seg: Bytes) returns (m: Mod)
    ensures m == ParseMod(seg)
  {
    var modName: Bytes := [];
    var version: Bytes := [];
    var nameDone := false;
    for j := 0 to |seg|
      invariant (modName, version, nameDone) == ScanMod(seg[..j])
    {
      var b := seg[j];
      assert seg[..j + 1][..j] == seg[..j];
      if b == COMMA || b == SEMICOLON {
        nameDone := true;
        continue;
      }
      if !nameDone {
        modName := modName + [b];
      } else {
        version := version + [b];
      }
    }
    assert seg[..|seg|] == seg;
    m := Mod(modName, version);
  }
}
