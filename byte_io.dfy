/** The two pieces of mutable state the codecs work through: the caller's
    output buffer (`Vec<u8>`) and the decoder's `std::io::Cursor`, with the
    `next` and `read_until` helpers stated as functions of the input. */
module ByteIO {
  import opened Wrappers
  import opened SpellTypes

  /** A growable output buffer the encoder appends to in place. */
  class ByteBuffer {
    var bytes: Bytes

    constructor ()
      ensures bytes == []
    {
      bytes := [];
    }

    /** `Vec::push`. */
    method Push(b: byte)
      modifies this
      ensures bytes == old(bytes) + [b]
    {
      bytes := bytes + [b];
    }

    /** `Vec::extend_from_slice`. */
    method ExtendFromSlice(s: Bytes)
      modifies this
      ensures bytes == old(bytes) + s
    {
      bytes := bytes + s;
    }

    /** `out[i] = b`. */
    method Set(i: nat, b: byte)
      requires i < |bytes|
      modifies this
      ensures bytes == old(bytes)[i := b]
    {
      bytes := bytes[i := b];
    }
  }

  /** Why decoding stopped: a single-byte read past the end of input
      (`read_exact`), an opcode byte outside the tag set, or a catalog index
      past the end of `BUILTIN_PARAMS` (an index panic in the Rust code). */
  datatype DecodeError =
    | UnexpectedEof
    | InvalidDiscriminant
    | CatalogIndexOutOfRange(index: byte)

  /** A value read from the input and the input left after it. */
  datatype Read<+T> = Read(val: T, rest: Bytes)

  lemma AppendAssoc(a: Bytes, b: Bytes, c: Bytes)
    ensures (a + b) + c == a + (b + c)
  {
  }

  /** The first index at or after `i` holding `delim`, or `|s|`. */
  function Find(s: Bytes, i: nat, delim: byte): (j: nat)
    requires i <= |s|
    ensures i <= j <= |s|
    ensures j < |s| ==> s[j] == delim
    ensures forall k | i <= k < j :: s[k] != delim
    decreases |s| - i
  {
    if i == |s| || s[i] == delim then i else Find(s, i + 1, delim)
  }

  /** `next`: one byte, or `UnexpectedEof` at the end of input. */
  function NextOf(s: Bytes): (r: Result<Read<byte>, DecodeError>)
    ensures r.Ok? <==> |s| > 0
    ensures r.Ok? ==> r.value == Read(s[0], s[1..])
    ensures r.Err? ==> r.error == UnexpectedEof
  {
    if |s| > 0 then Ok(Read(s[0], s[1..])) else Err(UnexpectedEof)
  }

  /** `read_until`: the bytes up to and including `delim`, or up to the end
      of input, with the last byte popped. It never fails: a field missing
      its terminator loses its last byte instead. */
  function ReadUntilOf(s: Bytes, delim: byte): (r: Read<Bytes>)
    ensures |r.rest| <= |s|
  {
    var j := Find(s, 0, delim);
    if j < |s| then
      Read(s[..j], s[j + 1..])
    else if |s| > 0 then
      Read(s[..|s| - 1], [])
    else
      Read([], [])
  }

  /** What `read_until` returns: the field never holds the delimiter; a
      terminated field is followed by it and then by the rest; an
      unterminated one runs to the end of input and loses its last byte. */
  lemma ReadUntilOfSpec(s: Bytes, delim: byte)
    ensures delim !in ReadUntilOf(s, delim).val
    ensures delim in s ==> s == ReadUntilOf(s, delim).val + [delim] + ReadUntilOf(s, delim).rest
    ensures delim !in s ==>
      && ReadUntilOf(s, delim).rest == []
      && ReadUntilOf(s, delim).val == if |s| > 0 then s[..|s| - 1] else []
  {
    var j := Find(s, 0, delim);
    if j < |s| {
      assert s == s[..j] + [delim] + s[j + 1..];
    }
  }

  lemma NextOfCons(b: byte, t: Bytes)
    ensures NextOf([b] + t) == Ok(Read(b, t))
  {
    assert ([b] + t)[1..] == t;
  }

  /** A terminated field is read back exactly, leaving what follows its
      terminator. */
  lemma ReadUntilOfField(field: Bytes, delim: byte, t: Bytes)
    requires delim !in field
    ensures ReadUntilOf(field + [delim] + t, delim) == Read(field, t)
  {
    var s := field + [delim] + t;
    var j := Find(s, 0, delim);
    assert s[|field|] == delim;
    forall k | 0 <= k < |field| ensures s[k] != delim {
      assert s[k] == field[k];
    }
    assert j == |field|;
    assert s[..j] == field;
    assert s[j + 1..] == t;
  }

  /** A decoded result agrees with a specification-level read: the same
      error, or the same value with the same input left over. */
  predicate Agrees<T(==)>(spec: Result<Read<T>, DecodeError>, r: Result<T, DecodeError>, rest: Bytes) {
    match spec
    case Ok(rd) => r == Ok(rd.val) && rest == rd.rest
    case Err(e) => r == Err(e)
  }

  /** `std::io::Cursor` over the input, with the Rust code's `next` and
      `read_until` helpers. */
  class Cursor {
    const data: Bytes
    var pos: nat

    constructor (data: Bytes)
      ensures this.data == data && pos == 0
    {
      this.data := data;
      pos := 0;
    }

    method Next() returns (r: Result<byte, DecodeError>)
      requires pos <= |data|
      modifies this
      ensures pos <= |data|
      ensures Agrees(NextOf(data[old(pos)..]), r, data[pos..])
    {
      if pos < |data| {
        assert data[pos..][1..] == data[pos + 1..];
        r := Ok(data[pos]);
        pos := pos + 1;
      } else {
        r := Err(UnexpectedEof);
      }
    }

    method ReadUntil(delim: byte) returns (field: Bytes)
      requires pos <= |data|
      modifies this
      ensures pos <= |data|
      ensures ReadUntilOf(data[old(pos)..], delim) == Read(field, data[pos..])
    {
      ghost var s := data[pos..];
      ghost var p0 := pos;
      // BufRead::read_until: copy bytes up to and including `delim`
      var out: Bytes := [];
      var done := false;
      while !done && pos < |data|
        invariant p0 <= pos <= |data|
        invariant out == data[p0..pos]
        invariant !done ==> forall k | p0 <= k < pos :: data[k] != delim
        invariant done ==> p0 < pos && data[pos - 1] == delim
        invariant done ==> forall k | p0 <= k < pos - 1 :: data[k] != delim
        decreases |data| - pos
      {
        var b := data[pos];
        out := out + [b];
        pos := pos + 1;
        done := b == delim;
      }
      // out.pop()
      if |out| > 0 {
        assert out[..|out| - 1] == data[p0..pos - 1];
        out := out[..|out| - 1];
      }
      field := out;
      ghost var j := Find(s, 0, delim);
      if done {
        forall k | 0 <= k < pos - 1 - p0 ensures s[k] != delim {
          assert s[k] == data[p0 + k];
        }
        assert s[pos - 1 - p0] == delim;
        assert j == pos - 1 - p0;
        assert field == s[..j];
        assert data[pos..] == s[j + 1..];
      } else {
        forall k | 0 <= k < |s| ensures s[k] != delim {
          assert s[k] == data[p0 + k];
        }
        assert j == |s|;
        assert |s| > 0 ==> field == s[..|s| - 1];
      }
    }
  }
}
