/** The CastMessage codec: a protobuf message of four strings, printed and parsed by hand.
    Strings are their UTF-8 bytes; `lossy` is the conversion of received bytes into a string,
    which changes nothing on valid UTF-8. */
module CastMessages {
  import opened Words
  import opened Varints

  /** A byte string that fits in memory. */
  type Text = s: seq<u8> | |s| < TWO64

  datatype CastMessage = CastMessage(source: Text, destination: Text, namespace: Text, payload: Text)

  const EMPTY: CastMessage := CastMessage([], [], [], [])

  // ---- Printing ----

  function StringField(tag: nat, s: seq<u8>): seq<u8>
  {
    Varint(tag * 8 + 2) + Varint(|s|) + s
  }

  function VarintField(tag: nat, v: nat): seq<u8>
  {
    Varint(tag * 8) + Varint(v)
  }

  function Encode(m: CastMessage): seq<u8>
  {
    VarintField(1, 0) + (StringField(2, m.source) + (StringField(3, m.destination)
      + (StringField(4, m.namespace) + (VarintField(5, 0) + StringField(6, m.payload)))))
  }

  method WriteString(buf: seq<u8>, tag: u32, s: Text) returns (out: seq<u8>)
    ensures out == buf + StringField(tag, s)
  {
    out := WriteVarint(buf, tag * 8 + 2);
    out := WriteVarint(out, |s|);
    out := out + s;
  }

  method WriteVarintField(buf: seq<u8>, tag: u32, v: u64) returns (out: seq<u8>)
    ensures out == buf + VarintField(tag, v)
  {
    out := WriteVarint(buf, tag * 8);
    out := WriteVarint(out, v);
  }

  method EncodeCastMessage(m: CastMessage) returns (buf: seq<u8>)
    ensures buf == Encode(m)
  {
    hide StringField, VarintField;
    buf := WriteVarintField([], 1, 0);
    buf := WriteString(buf, 2, m.source);
    buf := WriteString(buf, 3, m.destination);
    buf := WriteString(buf, 4, m.namespace);
    buf := WriteVarintField(buf, 5, 0);
    buf := WriteString(buf, 6, m.payload);
  }

  // ---- Parsing ----

  datatype Field = Number(tag: u32, value: u64) | Bytes(tag: u32, bytes: seq<u8>)

  /** The first field and the number of bytes it takes; nothing if it is malformed. */
  function FirstField(data: seq<u8>): (r: Option<(Field, nat)>)
    ensures r.Some? ==> 0 < r.value.1 <= |data|
  {
    match ReadVarint(data)
    case None => None
    case Some((key, n)) =>
      var tag := key / 8 % TWO32;
      if key % 8 == 0 then
        match ReadVarint(data[n..])
        case None => None
        case Some((v, k)) => Some((Number(tag, v), n + k))
      else if key % 8 == 2 then
        match ReadVarint(data[n..])
        case None => None
        case Some((length, k)) =>
          if length > |data| - n - k then None
          else Some((Bytes(tag, data[n + k..n + k + length]), n + k + length))
      else None
  }

  function Assign(lossy: seq<u8> -> Text, m: CastMessage, f: Field): CastMessage
  {
    if f.Number? then m
    else if f.tag == 2 then m.(source := lossy(f.bytes))
    else if f.tag == 3 then m.(destination := lossy(f.bytes))
    else if f.tag == 4 then m.(namespace := lossy(f.bytes))
    else if f.tag == 6 then m.(payload := lossy(f.bytes))
    else m
  }

  /** Parsing `data` on top of what earlier fields have set. */
  function DecodeFrom(lossy: seq<u8> -> Text, data: seq<u8>, m: CastMessage): Option<CastMessage>
    decreases |data|
  {
    if data == [] then Some(m) else
      match FirstField(data)
      case None => None
      case Some((f, n)) => DecodeFrom(lossy, data[n..], Assign(lossy, m, f))
  }

  function Decode(lossy: seq<u8> -> Text, data: seq<u8>): Option<CastMessage>
  {
    DecodeFrom(lossy, data, EMPTY)
  }

  method DecodeCastMessage(lossy: seq<u8> -> Text, data: seq<u8>) returns (r: Option<CastMessage>)
    ensures r == Decode(lossy, data)
  {
    hide Decode, DecodeFrom, ReadVarint;
    var pos := 0;
    var source: Text, destination: Text, namespace: Text, payload: Text := [], [], [], [];
    assert data[0..] == data;
    DecodeStart(lossy, data);
    while pos < |data|
      invariant 0 <= pos <= |data|
      invariant Decode(lossy, data)
        == DecodeFrom(lossy, data[pos..], CastMessage(source, destination, namespace, payload))
    {
      ghost var start := pos;
      DecodeField(lossy, data, pos, CastMessage(source, destination, namespace, payload));
      var key, p := Varints.Read(data, pos);
      if key.None? {
        return None;
      }
      pos := p;
      assert data[start..][p - start..] == data[p..];
      var tag := key.value / 8 % TWO32;
      var wire := key.value % 8;
      if wire == 0 {
        var skipped, q := Varints.Read(data, pos);
        if skipped.None? {
          return None;
        }
        pos := q;
        assert FirstField(data[start..]) == Some((Number(tag, skipped.value), pos - start));
      } else if wire == 2 {
        var length, q := Varints.Read(data, pos);
        if length.None? {
          return None;
        }
        pos := q;
        if length.value > |data| - pos {
          return None;
        }
        var slice := data[pos..pos + length.value];
        SliceOfTail(data, start, pos - start, length.value);
        pos := pos + length.value;
        assert FirstField(data[start..]) == Some((Bytes(tag, slice), pos - start));
        match tag {
          case 2 => source := lossy(slice);
          case 3 => destination := lossy(slice);
          case 4 => namespace := lossy(slice);
          case 6 => payload := lossy(slice);
          case _ =>
        }
      } else {
        return None;
      }
    }
    assert data[pos..] == [];
    DecodeEnd(lossy, CastMessage(source, destination, namespace, payload));
    return Some(CastMessage(source, destination, namespace, payload));
  }

  lemma SliceOfTail(data: seq<u8>, start: nat, i: nat, n: nat)
    requires start + i + n <= |data|
    ensures data[start + i..start + i + n] == data[start..][i..i + n]
  {
  }

  lemma DecodeField(lossy: seq<u8> -> Text, data: seq<u8>, pos: nat, m: CastMessage)
    requires pos < |data|
    ensures var first := FirstField(data[pos..]);
      DecodeFrom(lossy, data[pos..], m) ==
        if first.None? then None
        else DecodeFrom(lossy, data[pos + first.value.1..], Assign(lossy, m, first.value.0))
  {
    hide FirstField;
    var first := FirstField(data[pos..]);
    assert first.Some? ==> data[pos..][first.value.1..] == data[pos + first.value.1..];
  }

  lemma DecodeEnd(lossy: seq<u8> -> Text, m: CastMessage)
    ensures DecodeFrom(lossy, [], m) == Some(m)
  {
  }

  lemma DecodeStart(lossy: seq<u8> -> Text, data: seq<u8>)
    ensures Decode(lossy, data) == DecodeFrom(lossy, data, CastMessage([], [], [], []))
  {
  }

  // ---- Merging: later fields win ----

  lemma FirstFieldPrefix(a: seq<u8>, b: seq<u8>)
    requires FirstField(a).Some?
    ensures FirstField(a + b) == FirstField(a)
  {
    hide ReadVarint;
    var (key, n) := ReadVarint(a).value;
    ReadPrefix(a, b);
    ReadPrefix(a[n..], b);
    assert (a + b)[n..] == a[n..] + b;
    var (length, k) := ReadVarint(a[n..]).value;
    if key % 8 == 2 {
      assert (a + b)[n + k..n + k + length] == a[n + k..n + k + length];
    }
  }

  /** Protobuf merging: a message followed by more bytes is those bytes parsed on top of it. */
  lemma {:induction false} DecodeMerges(lossy: seq<u8> -> Text, a: seq<u8>, b: seq<u8>, m: CastMessage)
    requires DecodeFrom(lossy, a, m).Some?
    ensures DecodeFrom(lossy, a + b, m) == DecodeFrom(lossy, b, DecodeFrom(lossy, a, m).value)
    decreases |a|
  {
    hide FirstField;
    if a == [] {
      assert a + b == b;
    } else {
      FirstFieldPrefix(a, b);
      var (f, n) := FirstField(a).value;
      DecodeMerges(lossy, a[n..], b, Assign(lossy, m, f));
      assert (a + b)[n..] == a[n..] + b;
    }
  }

  /** All fields of a message in order; nothing if any is malformed. */
  function Fields(data: seq<u8>): Option<seq<Field>>
    decreases |data|
  {
    if data == [] then Some([]) else
      match FirstField(data)
      case None => None
      case Some((f, n)) =>
        match Fields(data[n..])
        case None => None
        case Some(fs) => Some([f] + fs)
  }

  /** The string of the last field with this tag, or what was there before. */
  function LastOf(lossy: seq<u8> -> Text, fs: seq<Field>, tag: u32, before: Text): Text
  {
    if fs == [] then before
    else if fs[|fs| - 1].Bytes? && fs[|fs| - 1].tag == tag then lossy(fs[|fs| - 1].bytes)
    else LastOf(lossy, fs[..|fs| - 1], tag, before)
  }

  lemma {:induction false} LastOfCons(lossy: seq<u8> -> Text, f: Field, fs: seq<Field>, tag: u32, before: Text)
    ensures LastOf(lossy, [f] + fs, tag, before)
      == LastOf(lossy, fs, tag, if f.Bytes? && f.tag == tag then lossy(f.bytes) else before)
  {
    var all := [f] + fs;
    if fs == [] {
      assert all[..0] == [];
    } else {
      LastOfCons(lossy, f, fs[..|fs| - 1], tag, before);
      assert all[..|all| - 1] == [f] + fs[..|fs| - 1];
    }
  }

  /** Parsing succeeds exactly on well-formed fields; each string is the last field of its tag, and
      every other field is ignored. */
  lemma {:induction false} DecodeMeaning(lossy: seq<u8> -> Text, data: seq<u8>, m: CastMessage)
    ensures DecodeFrom(lossy, data, m).Some? <==> Fields(data).Some?
    ensures Fields(data).Some? ==>
      var fs := Fields(data).value;
      DecodeFrom(lossy, data, m) == Some(CastMessage(
        LastOf(lossy, fs, 2, m.source), LastOf(lossy, fs, 3, m.destination),
        LastOf(lossy, fs, 4, m.namespace), LastOf(lossy, fs, 6, m.payload)))
    decreases |data|
  {
    if data != [] && FirstField(data).Some? {
      var (f, n) := FirstField(data).value;
      DecodeMeaning(lossy, data[n..], Assign(lossy, m, f));
      if Fields(data[n..]).Some? {
        var fs := Fields(data[n..]).value;
        LastOfCons(lossy, f, fs, 2, m.source);
        LastOfCons(lossy, f, fs, 3, m.destination);
        LastOfCons(lossy, f, fs, 4, m.namespace);
        LastOfCons(lossy, f, fs, 6, m.payload);
      }
    }
  }

  // ---- Round trip ----

  lemma StringFieldReads(tag: u32, s: Text, rest: seq<u8>)
    ensures FirstField(StringField(tag, s) + rest) == Some((Bytes(tag, s), |StringField(tag, s)|))
  {
    hide ReadVarint, Varint;
    var key := Varint(tag * 8 + 2);
    var length := Varint(|s|);
    var data := StringField(tag, s) + rest;
    assert data == key + (length + (s + rest));
    VarintRoundTrip(tag * 8 + 2, length + (s + rest));
    assert data[|key|..] == length + (s + rest);
    VarintRoundTrip(|s|, s + rest);
    assert data[|key| + |length|..|key| + |length| + |s|] == s;
  }

  lemma VarintFieldReads(tag: u32, v: u64, rest: seq<u8>)
    ensures FirstField(VarintField(tag, v) + rest) == Some((Number(tag, v), |VarintField(tag, v)|))
  {
    hide ReadVarint, Varint;
    var key := Varint(tag * 8);
    var data := VarintField(tag, v) + rest;
    assert data == key + (Varint(v) + rest);
    VarintRoundTrip(tag * 8, Varint(v) + rest);
    assert data[|key|..] == Varint(v) + rest;
    VarintRoundTrip(v, rest);
  }

  // ---- What is on the wire ----

  /** A string that fits is printed after its length; its tag is a 32-bit field number. */
  function PrintField(f: Field): seq<u8>
  {
    match f
    case Number(tag, value) => VarintField(tag, value)
    case Bytes(tag, bytes) => StringField(tag, bytes)
  }

  function PrintFields(fs: seq<Field>): seq<u8>
  {
    if fs == [] then [] else PrintField(fs[0]) + PrintFields(fs[1..])
  }

  ghost predicate AllFit(fs: seq<Field>)
  {
    forall f :: f in fs && f.Bytes? ==> |f.bytes| < TWO64
  }

  /** Any list of fields, known or not, in any order, is read as printed. */
  lemma {:induction false} FieldsRoundTrip(fs: seq<Field>)
    requires AllFit(fs)
    ensures Fields(PrintFields(fs)) == Some(fs)
  {
    if fs != [] {
      hide FirstField, StringField, VarintField;
      assert AllFit(fs[1..]);
      FieldsRoundTrip(fs[1..]);
      FieldReads(fs[0], PrintFields(fs[1..]));
      assert fs == [fs[0]] + fs[1..];
    }
  }

  lemma FieldReads(f: Field, rest: seq<u8>)
    requires f.Bytes? ==> |f.bytes| < TWO64
    ensures var data := PrintField(f) + rest;
      && FirstField(data) == Some((f, |PrintField(f)|)) && data != [] && data[|PrintField(f)|..] == rest
  {
    hide FirstField, StringField, VarintField;
    match f {
      case Number(tag, value) => VarintFieldReads(tag, value, rest);
      case Bytes(tag, bytes) => StringFieldReads(tag, bytes, rest);
    }
  }

  /** A printed message, as anyone who knows the format reads it: version 0 as field 1, the
      identities, the namespace, payload type 0 as field 5 and the payload. */
  lemma MessageFields(m: CastMessage)
    ensures Fields(Encode(m)) == Some([
      Number(1, 0), Bytes(2, m.source), Bytes(3, m.destination), Bytes(4, m.namespace),
      Number(5, 0), Bytes(6, m.payload)])
  {
    var fs := [Number(1, 0), Bytes(2, m.source), Bytes(3, m.destination), Bytes(4, m.namespace),
               Number(5, 0), Bytes(6, m.payload)];
    FieldsRoundTrip(fs);
    hide StringField, VarintField, Fields;
    PrintNext(fs[5], []);
    PrintNext(fs[4], fs[5..]);
    PrintNext(fs[3], fs[4..]);
    PrintNext(fs[2], fs[3..]);
    PrintNext(fs[1], fs[2..]);
    PrintNext(fs[0], fs[1..]);
  }

  lemma PrintNext(f: Field, fs: seq<Field>)
    ensures PrintFields([f] + fs) == PrintField(f) + PrintFields(fs)
    ensures PrintFields([]) == [] && PrintField(f) + [] == PrintField(f)
  {
    assert ([f] + fs)[1..] == fs;
  }

  /** Neither a field of another wire type nor a string longer than what there is can be read. */
  lemma Malformed(key: u64, tag: u32, length: u64, rest: seq<u8>)
    ensures key % 8 != 0 && key % 8 != 2 ==> Fields(Varint(key) + rest) == None
    ensures length > |rest| ==> Fields(Varint(tag * 8 + 2) + (Varint(length) + rest)) == None
  {
    hide ReadVarint, Varint;
    VarintRoundTrip(key, rest);
    VarintRoundTrip(tag * 8 + 2, Varint(length) + rest);
    VarintRoundTrip(length, rest);
    var data := Varint(tag * 8 + 2) + (Varint(length) + rest);
    assert data[|Varint(tag * 8 + 2)|..] == Varint(length) + rest;
  }

  lemma StringFieldDecodes(lossy: seq<u8> -> Text, tag: u32, s: Text, rest: seq<u8>, m: CastMessage)
    ensures DecodeFrom(lossy, StringField(tag, s) + rest, m)
      == DecodeFrom(lossy, rest, Assign(lossy, m, Bytes(tag, s)))
  {
    StringFieldReads(tag, s, rest);
    assert (StringField(tag, s) + rest)[|StringField(tag, s)|..] == rest;
  }

  lemma VarintFieldDecodes(lossy: seq<u8> -> Text, tag: u32, v: u64, rest: seq<u8>, m: CastMessage)
    ensures DecodeFrom(lossy, VarintField(tag, v) + rest, m) == DecodeFrom(lossy, rest, m)
  {
    VarintFieldReads(tag, v, rest);
    assert (VarintField(tag, v) + rest)[|VarintField(tag, v)|..] == rest;
  }

  /** The four strings are valid UTF-8: converting their bytes changes nothing. */
  predicate Clean(lossy: seq<u8> -> Text, m: CastMessage)
  {
    && lossy(m.source) == m.source && lossy(m.destination) == m.destination
    && lossy(m.namespace) == m.namespace && lossy(m.payload) == m.payload
  }

  lemma EncodeDecodes(lossy: seq<u8> -> Text, m: CastMessage, before: CastMessage)
    requires Clean(lossy, m)
    ensures DecodeFrom(lossy, Encode(m), before) == Some(m)
  {
    hide StringField, VarintField, FirstField;
    var last := StringField(6, m.payload);
    var r5 := VarintField(5, 0) + last;
    var r4 := StringField(4, m.namespace) + r5;
    var r3 := StringField(3, m.destination) + r4;
    var r2 := StringField(2, m.source) + r3;
    var m2 := before.(source := m.source);
    var m3 := m2.(destination := m.destination);
    var m4 := m3.(namespace := m.namespace);
    VarintFieldDecodes(lossy, 1, 0, r2, before);
    StringFieldDecodes(lossy, 2, m.source, r3, before);
    StringFieldDecodes(lossy, 3, m.destination, r4, m2);
    StringFieldDecodes(lossy, 4, m.namespace, r5, m3);
    VarintFieldDecodes(lossy, 5, 0, last, m4);
    assert last + [] == last;
    StringFieldDecodes(lossy, 6, m.payload, [], m4);
  }

  /** Parsing a printed message gives the message back. */
  lemma CodecRoundTrip(lossy: seq<u8> -> Text, m: CastMessage)
    requires Clean(lossy, m)
    ensures Decode(lossy, Encode(m)) == Some(m)
  {
    EncodeDecodes(lossy, m, EMPTY);
  }

  /** And a second printed message after it replaces it whole. */
  lemma LaterMessageWins(lossy: seq<u8> -> Text, a: CastMessage, b: CastMessage)
    requires Clean(lossy, a) && Clean(lossy, b)
    ensures Decode(lossy, Encode(a) + Encode(b)) == Some(b)
  {
    CodecRoundTrip(lossy, a);
    DecodeMerges(lossy, Encode(a), Encode(b), EMPTY);
    EncodeDecodes(lossy, b, a);
  }
}
