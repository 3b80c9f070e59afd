/** Records whose fields are written one after the other, over any way of writing a single field that
    can be read back exactly. */
module Records {
  import opened Wrappers
  import opened Bytes

  type Writer = ByteString --> ByteString
  type Reader = ByteString -> Option<(ByteString, ByteString)>

  ghost predicate ExactAt(enc: Writer, dec: Reader, b: ByteString, v: ByteString, rest: ByteString) {
    && (dec(b) == Some((v, rest)) <==> enc.requires(v) && b == enc(v) + rest)
    && (enc.requires(v) ==> enc(v) != [])
  }

  /** Reading yields a field and leaves `rest` exactly on the inputs that are the written field
      followed by `rest`. */
  ghost predicate Exact(enc: Writer, dec: Reader) {
    forall b, v, rest :: ExactAt(enc, dec, b, v, rest)
  }

  ghost predicate Writable(enc: Writer, fields: seq<ByteString>) {
    forall i :: 0 <= i < |fields| ==> enc.requires(fields[i])
  }

  function Write(enc: Writer, fields: seq<ByteString>): ByteString
    requires Writable(enc, fields)
  {
    if fields == [] then [] else enc(fields[0]) + Write(enc, fields[1..])
  }

  /** Reads `count` fields off the front and ignores what follows them. */
  function Read(dec: Reader, b: ByteString, count: nat): (r: Option<seq<ByteString>>)
    ensures r.Some? ==> |r.value| == count
    decreases count
  {
    if count == 0 then Some([]) else
      match dec(b)
      case None => None
      case Some((v, rest)) =>
        match Read(dec, rest, count - 1)
        case None => None
        case Some(fields) => Some([v] + fields)
  }

  lemma NothingToRead(enc: Writer, dec: Reader)
    requires Exact(enc, dec)
    ensures dec([]) == None
  {
    var read := if dec([]).Some? then dec([]).value else ([], []);
    assert ExactAt(enc, dec, [], read.0, read.1);
  }

  /** Reading `count` fields of a written record gives its first `count` fields when it has that many,
      and fails when it has fewer. */
  lemma {:induction false} ReadOfWritten(enc: Writer, dec: Reader, fields: seq<ByteString>, count: nat)
    requires Exact(enc, dec) && Writable(enc, fields)
    ensures Read(dec, Write(enc, fields), count) == if count <= |fields| then Some(fields[..count]) else None
    decreases count
  {
    if count > 0 {
      if fields == [] {
        NothingToRead(enc, dec);
      } else {
        var rest := Write(enc, fields[1..]);
        assert ExactAt(enc, dec, enc(fields[0]) + rest, fields[0], rest);
        ReadOfWritten(enc, dec, fields[1..], count - 1);
        if count <= |fields| {
          assert fields[..count] == [fields[0]] + fields[1..][..count - 1];
        }
      }
    }
  }

  lemma {:induction false} ReadInverse(enc: Writer, dec: Reader, b: ByteString, fields: seq<ByteString>) returns (rest: ByteString)
    requires Exact(enc, dec) && Read(dec, b, |fields|) == Some(fields)
    ensures Writable(enc, fields) && b == Write(enc, fields) + rest
    decreases fields
  {
    if fields == [] {
      rest := b;
    } else {
      var (v, after) := dec(b).value;
      assert fields == [v] + Read(dec, after, |fields| - 1).value;
      assert ExactAt(enc, dec, b, v, after);
      rest := ReadInverse(enc, dec, after, fields[1..]);
    }
  }

  lemma {:induction false} WriteInverse(enc: Writer, dec: Reader, fields: seq<ByteString>, rest: ByteString)
    requires Exact(enc, dec) && Writable(enc, fields)
    ensures Read(dec, Write(enc, fields) + rest, |fields|) == Some(fields)
    decreases fields
  {
    if fields != [] {
      var after := Write(enc, fields[1..]) + rest;
      assert Write(enc, fields) + rest == enc(fields[0]) + after;
      assert ExactAt(enc, dec, enc(fields[0]) + after, fields[0], after);
      WriteInverse(enc, dec, fields[1..], rest);
      assert fields == [fields[0]] + fields[1..];
    }
  }
}
