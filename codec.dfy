/** The binary form of the record log: for each record, in log order,
    uvarint(length of tag), tag, uvarint(length of payload), payload. There is
    no header, trailer or checksum; the stream ends where the input ends. */
module Codec {
  import opened Types
  import Uvarint

  /** A record whose lengths fit Go's uint64, as every Go slice's length does. */
  predicate WellSized(r: Record) {
    |r.tag| < Uvarint.Limit && |r.payload| < Uvarint.Limit
  }

  predicate AllWellSized(log: seq<Record>) {
    forall i | 0 <= i < |log| :: WellSized(log[i])
  }

  /** The four writes issued for one record, in the order they are issued. */
  function Fields(r: Record): seq<Bytes> {
    [Uvarint.Encode(|r.tag|), r.tag, Uvarint.Encode(|r.payload|), r.payload]
  }

  /** Every write issued for a log, in order. */
  function Chunks(log: seq<Record>): (c: seq<Bytes>)
    ensures |c| == 4 * |log|
  {
    if log == [] then [] else Fields(log[0]) + Chunks(log[1..])
  }

  /** The bytes of a sequence of writes, one after the other. */
  function Flatten(cs: seq<Bytes>): Bytes {
    if cs == [] then [] else cs[0] + Flatten(cs[1..])
  }

  /** The binary form of one record. */
  function EncodeRecord(r: Record): (e: Bytes)
    ensures |e| >= 2 + |r.tag| + |r.payload|
  {
    Uvarint.Encode(|r.tag|) + r.tag + Uvarint.Encode(|r.payload|) + r.payload
  }

  /** The binary form of a log. */
  function Encode(log: seq<Record>): (e: Bytes)
    ensures |e| >= 2 * |log|
  {
    if log == [] then [] else EncodeRecord(log[0]) + Encode(log[1..])
  }

  lemma {:induction false} FlattenAppend(a: seq<Bytes>, b: seq<Bytes>)
    ensures Flatten(a + b) == Flatten(a) + Flatten(b)
  {
    if a != [] {
      assert (a + b)[1..] == a[1..] + b;
      FlattenAppend(a[1..], b);
    } else {
      assert a + b == b;
    }
  }

  /** The four writes for a record carry its binary form. */
  lemma EncodeRecordFields(r: Record)
    ensures Flatten(Fields(r)) == EncodeRecord(r)
  {
    var f := Fields(r);
    assert Flatten(f[3..]) == f[3] + Flatten([]);
    assert Flatten(f[2..]) == f[2] + Flatten(f[3..]);
    assert Flatten(f[1..]) == f[1] + Flatten(f[2..]);
    assert Flatten(f) == f[0] + Flatten(f[1..]);
  }

  /** The writes for a log carry exactly its binary form. */
  lemma {:induction false} ChunksFlatten(log: seq<Record>)
    ensures Flatten(Chunks(log)) == Encode(log)
  {
    if log != [] {
      ChunksFlatten(log[1..]);
      FlattenAppend(Fields(log[0]), Chunks(log[1..]));
      EncodeRecordFields(log[0]);
    }
  }

  /** Write 4i + j of a log is field j of record i. */
  lemma {:induction false} ChunksAt(log: seq<Record>, i: nat, j: nat)
    requires i < |log| && j < 4
    ensures Chunks(log)[4 * i + j] == Fields(log[i])[j]
  {
    if i > 0 {
      ChunksAt(log[1..], i - 1, j);
    }
  }

  /** Appending a record to the log appends its binary form to the log's. */
  lemma {:induction false} EncodeAppend(log: seq<Record>, r: Record)
    ensures Encode(log + [r]) == Encode(log) + EncodeRecord(r)
  {
    if log != [] {
      assert (log + [r])[1..] == log[1..] + [r];
      EncodeAppend(log[1..], r);
    } else {
      assert Encode([r]) == EncodeRecord(r) + Encode([]);
    }
  }

  /** Of the first c writes plus n bytes of the next one, the bytes are the
      front of the whole flattened sequence. */
  lemma {:induction false} FlattenPrefix(cs: seq<Bytes>, c: nat, n: nat)
    requires c < |cs| && n <= |cs[c]|
    ensures |Flatten(cs[..c])| + |cs[c]| <= |Flatten(cs)|
    ensures Flatten(cs)[..|Flatten(cs[..c])| + n] == Flatten(cs[..c]) + cs[c][..n]
  {
    assert cs == cs[..c] + [cs[c]] + cs[c + 1..];
    FlattenAppend(cs[..c] + [cs[c]], cs[c + 1..]);
    FlattenAppend(cs[..c], [cs[c]]);
    assert Flatten([cs[c]]) == cs[c] + Flatten([]);
  }

  /** Of the first c + 1 writes, the bytes are those of the first c, then write c. */
  lemma FlattenStep(cs: seq<Bytes>, c: nat)
    requires c < |cs|
    ensures Flatten(cs[..c + 1]) == Flatten(cs[..c]) + cs[c]
  {
    assert cs[..c + 1] == cs[..c] + [cs[c]];
    FlattenAppend(cs[..c], [cs[c]]);
    assert Flatten([cs[c]]) == cs[c] + Flatten([]);
  }

  /** What io.ReadFull returns, and how many bytes it took from the reader. */
  datatype Full = Full(bytes: Bytes, used: nat, err: Option<Error>)

  /** io.ReadFull(r, make([]byte, n)) on a reader holding `s`: io.EOF when no
      byte was there, io.ErrUnexpectedEOF when some but not all were. */
  function ReadFull(s: Bytes, n: nat): (r: Full)
    ensures r.used <= |s|
    ensures r.err.None? <==> n <= |s|
    ensures r.err.None? ==> r.used == n && r.bytes == s[..n]
    ensures r.err.Some? ==> r.used == |s| && r.err.value == (if |s| == 0 then EOF else UnexpectedEOF)
  {
    if n <= |s| then Full(s[..n], n, None)
    else if |s| == 0 then Full([], 0, Some(EOF))
    else Full([], |s|, Some(UnexpectedEOF))
  }

  /** One call of loadRecord: its result and what is left of the stream. */
  datatype Parsed = Parsed(result: Result<Record>, rest: Bytes)

  /** loadRecord on a stream holding `s`. Only the first length is reported as
      "while reading len"; the other errors come back as the readers gave them. */
  function ParseRecord(s: Bytes): (p: Parsed)
    ensures |p.rest| <= |s|
    ensures p.result.Ok? ==> |p.rest| < |s|
  {
    var n := Uvarint.Decode(s);
    if n.err.Some? then Parsed(Err(ReadingLen(n.err.value)), s[n.used..])
    else ParseTag(s[n.used..], n.value)
  }

  /** The rest of loadRecord once the tag length is read: the tag bytes. */
  function ParseTag(s: Bytes, tagLen: nat): (p: Parsed)
    ensures |p.rest| <= |s|
  {
    var tag := ReadFull(s, tagLen);
    if tag.err.Some? then Parsed(Err(tag.err.value), s[tag.used..])
    else ParsePayload(s[tag.used..], tag.bytes)
  }

  /** The rest of loadRecord once the tag is read: the payload length and the payload. */
  function ParsePayload(s: Bytes, tag: Bytes): (p: Parsed)
    ensures |p.rest| <= |s|
  {
    var n := Uvarint.Decode(s);
    var s' := s[n.used..];
    if n.err.Some? then Parsed(Err(n.err.value), s')
    else
      var payload := ReadFull(s', n.value);
      var s'' := s'[payload.used..];
      assert s'' == s[n.used + payload.used..];
      if payload.err.Some? then Parsed(Err(payload.err.value), s'')
      else Parsed(Ok(Record(tag, payload.bytes)), s'')
  }

  /** loadRecord reports a clean end (io.EOF) only once the stream is used up. */
  lemma ParseEOFAtEnd(s: Bytes)
    requires ParseRecord(s).result.Err? && IsEOF(ParseRecord(s).result.error)
    ensures ParseRecord(s).rest == []
  {
    var n := Uvarint.Decode(s);
    if n.err.Some? {
      assert n.err == Some(EOF);
      Uvarint.DecodeEOF(s);
    } else {
      var s1 := s[n.used..];
      assert ParseRecord(s) == ParseTag(s1, n.value);
      ParseTagEOFAtEnd(s1, n.value);
    }
  }

  lemma ParseTagEOFAtEnd(s: Bytes, tagLen: nat)
    requires ParseTag(s, tagLen).result.Err? && IsEOF(ParseTag(s, tagLen).result.error)
    ensures ParseTag(s, tagLen).rest == []
  {
    var tag := ReadFull(s, tagLen);
    if tag.err.None? {
      var s2 := s[tag.used..];
      assert ParseTag(s, tagLen) == ParsePayload(s2, tag.bytes);
      var m := Uvarint.Decode(s2);
      if m.err.Some? {
        assert m.err == Some(EOF);
        Uvarint.DecodeEOF(s2);
      }
    }
  }

  /** Once a length has been read, loadRecord goes on to the tag. */
  lemma ParseRecordStep(n: nat, x: Bytes)
    requires n < Uvarint.Limit
    ensures ParseRecord(Uvarint.Encode(n) + x) == ParseTag(x, n)
  {
    Uvarint.EncodeDecode(n, x);
    assert (Uvarint.Encode(n) + x)[|Uvarint.Encode(n)|..] == x;
  }

  /** Once the tag has been read, loadRecord goes on to the payload. */
  lemma ParseTagStep(tag: Bytes, x: Bytes)
    ensures ParseTag(tag + x, |tag|) == ParsePayload(x, tag)
  {
    assert (tag + x)[..|tag|] == tag;
    assert (tag + x)[|tag|..] == x;
  }

  /** A payload length followed by at least that many bytes gives the record. */
  lemma ParsePayloadStep(tag: Bytes, payload: Bytes, rest: Bytes)
    requires |payload| < Uvarint.Limit
    ensures ParsePayload(Uvarint.Encode(|payload|) + (payload + rest), tag) == Parsed(Ok(Record(tag, payload)), rest)
  {
    Uvarint.EncodeDecode(|payload|, payload + rest);
    assert (Uvarint.Encode(|payload|) + (payload + rest))[|Uvarint.Encode(|payload|)|..] == payload + rest;
    assert (payload + rest)[..|payload|] == payload;
    assert (payload + rest)[|payload|..] == rest;
  }

  /** Round trip of one record: loadRecord reads back exactly the record
      WriteTo wrote, and leaves whatever follows it. */
  lemma ParseEncoded(r: Record, rest: Bytes)
    requires WellSized(r)
    ensures ParseRecord(EncodeRecord(r) + rest) == Parsed(Ok(r), rest)
  {
    var v1, v2 := Uvarint.Encode(|r.tag|), Uvarint.Encode(|r.payload|);
    assert EncodeRecord(r) + rest == v1 + (r.tag + (v2 + (r.payload + rest)));
    ParseRecordStep(|r.tag|, r.tag + (v2 + (r.payload + rest)));
    ParseTagStep(r.tag, v2 + (r.payload + rest));
    ParsePayloadStep(r.tag, r.payload, rest);
  }

  /** The cuts at which a stream ending inside a record stops loading without
      an error: before the record, or right after its tag length, its tag or
      its payload length. */
  function CleanCuts(r: Record): set<nat> {
    var a := |Uvarint.Encode(|r.tag|)|;
    var b := a + |r.tag|;
    {0, a, b, b + |Uvarint.Encode(|r.payload|)|}
  }

  /** The stream ends inside the first length. */
  lemma CutInTagLength(n: nat, q: nat)
    requires n < Uvarint.Limit && q < |Uvarint.Encode(n)|
    ensures ParseRecord(Uvarint.Encode(n)[..q]) == Parsed(Err(ReadingLen(if q == 0 then EOF else UnexpectedEOF)), [])
  {
    Uvarint.DecodeTruncated(n, q);
  }

  /** The stream ends inside the tag. */
  lemma CutInTag(tag: Bytes, q: nat)
    requires q < |tag|
    ensures ParseTag(tag[..q], |tag|) == Parsed(Err(if q == 0 then EOF else UnexpectedEOF), [])
  {
  }

  /** The stream ends inside the payload length. */
  lemma CutInPayloadLength(tag: Bytes, n: nat, q: nat)
    requires n < Uvarint.Limit && q < |Uvarint.Encode(n)|
    ensures ParsePayload(Uvarint.Encode(n)[..q], tag) == Parsed(Err(if q == 0 then EOF else UnexpectedEOF), [])
  {
    Uvarint.DecodeTruncated(n, q);
  }

  /** The stream ends inside the payload. */
  lemma CutInPayload(tag: Bytes, payload: Bytes, q: nat)
    requires |payload| < Uvarint.Limit && q < |payload|
    ensures ParsePayload(Uvarint.Encode(|payload|) + payload[..q], tag) == Parsed(Err(if q == 0 then EOF else UnexpectedEOF), [])
  {
    Uvarint.EncodeDecode(|payload|, payload[..q]);
    assert (Uvarint.Encode(|payload|) + payload[..q])[|Uvarint.Encode(|payload|)|..] == payload[..q];
  }

  // The four regions of a record's binary form, and where a cut in each leaves loadRecord.

  lemma CutRecordInTagLength(r: Record, p: nat)
    requires WellSized(r) && p < |Uvarint.Encode(|r.tag|)|
    ensures ParseRecord(EncodeRecord(r)[..p]) == Parsed(Err(ReadingLen(if p == 0 then EOF else UnexpectedEOF)), [])
  {
    var v1 := Uvarint.Encode(|r.tag|);
    assert EncodeRecord(r) == v1 + (r.tag + Uvarint.Encode(|r.payload|) + r.payload);
    assert EncodeRecord(r)[..p] == v1[..p];
    CutInTagLength(|r.tag|, p);
  }

  lemma CutRecordInTag(r: Record, p: nat)
    requires WellSized(r)
    requires |Uvarint.Encode(|r.tag|)| <= p < |Uvarint.Encode(|r.tag|)| + |r.tag|
    ensures ParseRecord(EncodeRecord(r)[..p]) == Parsed(Err(if p == |Uvarint.Encode(|r.tag|)| then EOF else UnexpectedEOF), [])
  {
    var v1 := Uvarint.Encode(|r.tag|);
    var a := |v1|;
    assert EncodeRecord(r) == v1 + (r.tag + (Uvarint.Encode(|r.payload|) + r.payload));
    assert EncodeRecord(r)[..p] == v1 + r.tag[..p - a];
    ParseRecordStep(|r.tag|, r.tag[..p - a]);
    CutInTag(r.tag, p - a);
  }

  lemma CutRecordInPayloadLength(r: Record, p: nat, b: nat)
    requires WellSized(r)
    requires b == |Uvarint.Encode(|r.tag|)| + |r.tag|
    requires b <= p < b + |Uvarint.Encode(|r.payload|)|
    ensures ParseRecord(EncodeRecord(r)[..p]) == Parsed(Err(if p == b then EOF else UnexpectedEOF), [])
  {
    var q := p - b;
    CutAtPayloadLength(r, p, b, q);
    ParseCutPayloadLength(r.tag, |r.payload|, q);
  }

  lemma CutRecordInPayload(r: Record, p: nat, c: nat)
    requires WellSized(r)
    requires c == |Uvarint.Encode(|r.tag|)| + |r.tag| + |Uvarint.Encode(|r.payload|)|
    requires c <= p < c + |r.payload|
    ensures ParseRecord(EncodeRecord(r)[..p]) == Parsed(Err(if p == c then EOF else UnexpectedEOF), [])
  {
    var q := p - c;
    CutAtPayload(r, p, c, q);
    ParseCutPayload(r.tag, r.payload, q);
  }

  /** The bytes before a cut inside the payload length, `q` bytes into it. */
  lemma CutAtPayloadLength(r: Record, p: nat, b: nat, q: nat)
    requires b == |Uvarint.Encode(|r.tag|)| + |r.tag|
    requires b <= p < b + |Uvarint.Encode(|r.payload|)| && q == p - b
    ensures EncodeRecord(r)[..p] == Uvarint.Encode(|r.tag|) + (r.tag + Uvarint.Encode(|r.payload|)[..q])
  {
    var v1, v2 := Uvarint.Encode(|r.tag|), Uvarint.Encode(|r.payload|);
    assert EncodeRecord(r) == (v1 + r.tag) + (v2 + r.payload);
    PrefixOfAppend(v1 + r.tag, v2 + r.payload, p);
    assert (v2 + r.payload)[..q] == v2[..q];
  }

  /** The bytes before a cut inside the payload, `q` bytes into it. */
  lemma CutAtPayload(r: Record, p: nat, c: nat, q: nat)
    requires c == |Uvarint.Encode(|r.tag|)| + |r.tag| + |Uvarint.Encode(|r.payload|)|
    requires c <= p < c + |r.payload| && q == p - c
    ensures EncodeRecord(r)[..p] == Uvarint.Encode(|r.tag|) + (r.tag + (Uvarint.Encode(|r.payload|) + r.payload[..q]))
  {
    var v1, v2 := Uvarint.Encode(|r.tag|), Uvarint.Encode(|r.payload|);
    PrefixOfAppend(v1 + r.tag + v2, r.payload, p);
    assert v1 + r.tag + v2 + r.payload[..q] == v1 + (r.tag + (v2 + r.payload[..q]));
  }

  /** The stream ends inside the payload length, seen from the start of the record. */
  lemma ParseCutPayloadLength(tag: Bytes, n: nat, q: nat)
    requires |tag| < Uvarint.Limit && n < Uvarint.Limit && q < |Uvarint.Encode(n)|
    ensures ParseRecord(Uvarint.Encode(|tag|) + (tag + Uvarint.Encode(n)[..q])) == Parsed(Err(if q == 0 then EOF else UnexpectedEOF), [])
  {
    ParseRecordStep(|tag|, tag + Uvarint.Encode(n)[..q]);
    ParseTagStep(tag, Uvarint.Encode(n)[..q]);
    CutInPayloadLength(tag, n, q);
  }

  /** The stream ends inside the payload, seen from the start of the record. */
  lemma ParseCutPayload(tag: Bytes, payload: Bytes, q: nat)
    requires |tag| < Uvarint.Limit && |payload| < Uvarint.Limit && q < |payload|
    ensures ParseRecord(Uvarint.Encode(|tag|) + (tag + (Uvarint.Encode(|payload|) + payload[..q])))
      == Parsed(Err(if q == 0 then EOF else UnexpectedEOF), [])
  {
    var v2 := Uvarint.Encode(|payload|);
    ParseRecordStep(|tag|, tag + (v2 + payload[..q]));
    ParseTagStep(tag, v2 + payload[..q]);
    CutInPayload(tag, payload, q);
  }

  /** The first p bytes of x + y, when p reaches past x. */
  lemma PrefixOfAppend(x: Bytes, y: Bytes, p: nat)
    requires |x| <= p <= |x| + |y|
    ensures (x + y)[..p] == x + y[..p - |x|]
  {
  }

  /** A stream that ends after the first p bytes of a record fails to load it;
      the failure is io.EOF (a clean end) exactly at the cuts of CleanCuts, and
      a format error anywhere else. */
  lemma ParseTruncated(r: Record, p: nat)
    requires WellSized(r) && p < |EncodeRecord(r)|
    ensures ParseRecord(EncodeRecord(r)[..p]).result.Err?
    ensures ParseRecord(EncodeRecord(r)[..p]).rest == []
    ensures IsEOF(ParseRecord(EncodeRecord(r)[..p]).result.error) <==> p in CleanCuts(r)
  {
    var a := |Uvarint.Encode(|r.tag|)|;
    var b := a + |r.tag|;
    var c := b + |Uvarint.Encode(|r.payload|)|;
    var cuts := CleanCuts(r);
    assert cuts == {0, a, b, c};
    if p < a {
      assert p in cuts <==> p == 0;
      CutRecordInTagLength(r, p);
    } else if p < b {
      assert p in cuts <==> p == a;
      CutRecordInTag(r, p);
    } else if p < c {
      assert p in cuts <==> p == b;
      CutRecordInPayloadLength(r, p, b);
    } else {
      assert p in cuts <==> p == c;
      CutRecordInPayload(r, p, c);
    }
  }

  /** Decoding a whole stream as the replayer does, record after record, until
      a clean end (io.EOF) or an error. */
  function DecodeLog(s: Bytes): (d: Result<seq<Record>>)
    ensures d.Ok? ==> |d.value| <= |s|
    decreases |s|
  {
    var p := ParseRecord(s);
    match p.result
    case Err(e) => if IsEOF(e) then Ok([]) else Err(e)
    case Ok(rec) => Prepend([rec], DecodeLog(p.rest))
  }

  /** An empty stream decodes to no records. */
  lemma DecodeEmpty()
    ensures DecodeLog([]) == Ok([])
  {
    assert ParseRecord([]).result == Err(ReadingLen(EOF));
  }

  /** The records of `log` put in front of a decoding result. */
  function Prepend(log: seq<Record>, d: Result<seq<Record>>): Result<seq<Record>> {
    match d
    case Ok(more) => Ok(log + more)
    case Err(e) => Err(e)
  }

  lemma PrependPrepend(a: seq<Record>, b: seq<Record>, d: Result<seq<Record>>)
    ensures Prepend(a, Prepend(b, d)) == Prepend(a + b, d)
  {
    match d
    case Ok(more) => assert a + (b + more) == (a + b) + more;
    case Err(_) =>
  }

  /** Decoding reads back every encoded record, then goes on with what follows. */
  lemma {:induction false} DecodeEncodedPrefix(log: seq<Record>, tail: Bytes)
    requires AllWellSized(log)
    ensures DecodeLog(Encode(log) + tail) == Prepend(log, DecodeLog(tail))
  {
    if log != [] {
      assert [log[0]] + log[1..] == log;
      var s' := Encode(log[1..]) + tail;
      assert Encode(log) + tail == EncodeRecord(log[0]) + s';
      DecodeRecord(log[0], s');
      DecodeEncodedPrefix(log[1..], tail);
      PrependPrepend([log[0]], log[1..], DecodeLog(tail));
    } else {
      assert Encode(log) + tail == tail;
      match DecodeLog(tail)
      case Ok(more) => assert log + more == more;
      case Err(e) =>
    }
  }

  /** Decoding reads an encoded record back, then goes on with what follows it. */
  lemma DecodeRecord(r: Record, rest: Bytes)
    requires WellSized(r)
    ensures DecodeLog(EncodeRecord(r) + rest) == Prepend([r], DecodeLog(rest))
  {
    ParseEncoded(r, rest);
  }

  /** Round trip of a whole log: decoding the stream WriteTo produced yields the log. */
  lemma DecodeEncoded(log: seq<Record>)
    requires AllWellSized(log)
    ensures DecodeLog(Encode(log)) == Ok(log)
  {
    DecodeEncodedPrefix(log, []);
    assert Encode(log) + [] == Encode(log);
    assert ParseRecord([]).result == Err(ReadingLen(EOF));
    assert log + [] == log;
  }

  /** A stream cut inside its last record: the records before the cut are all
      read back when the cut is clean, and decoding fails otherwise. */
  lemma DecodeCut(log: seq<Record>, r: Record, p: nat)
    requires AllWellSized(log) && WellSized(r) && p < |EncodeRecord(r)|
    ensures p in CleanCuts(r) ==> DecodeLog(Encode(log) + EncodeRecord(r)[..p]) == Ok(log)
    ensures p !in CleanCuts(r) ==> DecodeLog(Encode(log) + EncodeRecord(r)[..p]).Err?
  {
    DecodeEncodedPrefix(log, EncodeRecord(r)[..p]);
    ParseTruncated(r, p);
    assert log + [] == log;
  }
}
