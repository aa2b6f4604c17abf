/** The shared vocabulary of the record log: bytes, records, the reserved tags
    and the errors the recorder and the replayer report. */
module Types {

  /** One octet, Go's `byte`. */
  newtype byte = b: int | 0 <= b < 256

  /** A Go `[]byte` or `string` value. Go strings are byte strings, so tags are bytes too. */
  type Bytes = seq<byte>

  datatype Option<+T> = None | Some(value: T)

  datatype Result<+T> = Ok(value: T) | Err(error: Error)

  /** The errors that reach the callers of the core. */
  datatype Error =
    | EOF                      // io.EOF
    | UnexpectedEOF            // io.ErrUnexpectedEOF
    | Overflow                 // encoding/binary: a varint that does not fit 64 bits
    | ReadingLen(cause: Error) // "while reading len: %w", wrapping the cause
    | OutOfData(tag: Bytes)    // "out of data while looking for <tag>"
    | NotTls                   // "not tls"
    | ShortWrite               // a writer that took fewer bytes than it was given
    | Failure(text: Bytes)     // an error known only by its text (dial errors, I/O errors)

  /** Go's `errors.Is(err, io.EOF)`: io.EOF itself, or io.EOF wrapped with %w. */
  predicate IsEOF(e: Error)
    ensures IsEOF(e) ==> e == EOF || e.ReadingLen?
  {
    match e
    case EOF => true
    case ReadingLen(cause) => IsEOF(cause)
    case _ => false
  }

  /** One entry of the log: a tag and its opaque payload. */
  datatype Record = Record(tag: Bytes, payload: Bytes)

  function Min(a: int, b: int): int {
    if a <= b then a else b
  }

  /** The bytes of a string literal made of 8-bit characters. */
  function Ascii(s: string): (r: Bytes)
    requires forall i | 0 <= i < |s| :: s[i] as int < 256
    ensures |r| == |s|
  {
    seq(|s|, i requires 0 <= i < |s| => s[i] as int as byte)
  }

  // The global tags.
  const TimeTag: Bytes := Ascii("time")
  const KeylogTag: Bytes := Ascii("tls:keylog")
  const RandTag: Bytes := Ascii("rnd:read")
  const BodyTag: Bytes := Ascii("http:body")

  // The per-connection roles, appended to the dialled address.
  const ConnSuffix: Bytes := Ascii(":conn")
  const LocalSuffix: Bytes := Ascii(":local")
  const RemoteSuffix: Bytes := Ascii(":remote")
  const ReadSuffix: Bytes := Ascii(":read")
  const WriteSuffix: Bytes := Ascii(":write")

  /** The side-channel records that a lookup drains from the head of the queue. */
  predicate SideChannel(r: Record) {
    r.tag == TimeTag || r.tag == KeylogTag
  }
}
