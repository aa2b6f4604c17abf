/** The environment outside the core: the real socket, the HTTP response body,
    the entropy source and the output sink. Each is an endpoint whose reads
    deliver a scripted sequence of replies and whose writes go into a sink of
    limited room. */
module Io {
  import opened Types
  import Util

  /** What one Read call of the environment delivers: some bytes and maybe an error. */
  datatype Reply = Reply(bytes: Bytes, err: Option<Error>)

  /** What a Read into a buffer of `cap` bytes delivers when the reader still
      has `rs` to give: as much of the first reply as fits; a reply's error
      comes with its last bytes. With nothing left to give, io.EOF. */
  function Next(rs: seq<Reply>, cap: nat): (r: Reply)
    ensures |r.bytes| <= cap
    ensures rs == [] ==> r == Reply([], Some(EOF))
    ensures rs != [] ==> |r.bytes| == Min(cap, |rs[0].bytes|) && r.bytes == rs[0].bytes[..|r.bytes|]
    ensures rs != [] ==> r.err == (if |rs[0].bytes| <= cap then rs[0].err else None)
  {
    if rs == [] then Reply([], Some(EOF))
    else if |rs[0].bytes| <= cap then rs[0]
    else Reply(rs[0].bytes[..cap], None)
  }

  /** What the reader still has to give after that Read: the part of the
      first reply that did not fit stays in front. */
  function After(rs: seq<Reply>, cap: nat): seq<Reply> {
    if rs == [] then []
    else if |rs[0].bytes| <= cap then rs[1..]
    else [Reply(rs[0].bytes[cap..], rs[0].err)] + rs[1..]
  }

  /** A measure of what is left to read: the bytes and the replies. */
  function Size(rs: seq<Reply>): nat {
    if rs == [] then 0 else |rs[0].bytes| + 1 + Size(rs[1..])
  }

  /** The bytes a reader delivers before it reports an error. */
  function Content(rs: seq<Reply>): Bytes {
    if rs == [] then [] else rs[0].bytes + (if rs[0].err.Some? then [] else Content(rs[1..]))
  }

  /** The error the reader ends with: the first one among the replies, or io.EOF. */
  function Stop(rs: seq<Reply>): Error {
    if rs == [] then EOF else if rs[0].err.Some? then rs[0].err.value else Stop(rs[1..])
  }

  /** Each Read into a non-empty buffer gets closer to the end. */
  lemma ReadShrinks(rs: seq<Reply>, cap: nat)
    requires rs != [] && cap > 0
    ensures Size(After(rs, cap)) < Size(rs)
  {
    if |rs[0].bytes| > cap {
      var rest := After(rs, cap);
      assert rest[1..] == rs[1..];
      assert Size(rest) == |rs[0].bytes| - cap + 1 + Size(rs[1..]);
    }
  }

  /** Reading loses, adds and reorders nothing: a Read delivers the front of
      the content and either the error that ends it or leaves the rest of the
      content, and the same final error, to later reads. */
  lemma {:induction false} ReadSplits(rs: seq<Reply>, cap: nat)
    ensures var d := Next(rs, cap);
      (d.err.Some? ==> d.bytes == Content(rs) && d.err.value == Stop(rs))
      && (d.err.None? ==> d.bytes + Content(After(rs, cap)) == Content(rs) && Stop(After(rs, cap)) == Stop(rs))
  {
    if rs != [] && |rs[0].bytes| > cap {
      ReadPart(rs, cap);
    } else if rs != [] && rs[0].err.Some? {
      assert rs[0].bytes + [] == rs[0].bytes;
    }
  }

  /** A Read that takes only part of the first reply leaves the other part in
      front, with that reply's error. */
  lemma {:induction false} ReadPart(rs: seq<Reply>, cap: nat)
    requires rs != [] && |rs[0].bytes| > cap
    ensures Next(rs, cap).bytes + Content(After(rs, cap)) == Content(rs) && Stop(After(rs, cap)) == Stop(rs)
  {
    var head := rs[0];
    var tailContent := if head.err.Some? then [] else Content(rs[1..]);
    ReadCons(Reply(head.bytes[cap..], head.err), rs[1..]);
    SplitJoin(head.bytes, cap, tailContent);
  }

  /** Content and Stop of a reply put in front of others. */
  lemma ReadCons(x: Reply, rs: seq<Reply>)
    ensures Content([x] + rs) == x.bytes + (if x.err.Some? then [] else Content(rs))
    ensures Stop([x] + rs) == if x.err.Some? then x.err.value else Stop(rs)
  {
    assert ([x] + rs)[1..] == rs;
  }

  lemma SplitJoin(s: Bytes, k: nat, t: Bytes)
    requires k <= |s|
    ensures s[..k] + (s[k..] + t) == s + t
  {
    assert s == s[..k] + s[k..];
  }

  /** A `net.Conn`, `io.Reader` or `io.Writer` of the environment. */
  class Endpoint {
    var replies: seq<Reply>   // what the reader still has to give
    var requests: seq<Bytes>  // the argument of every Write call, in order
    var out: Bytes            // the bytes the sink accepted
    var room: nat             // how many more bytes the sink accepts
    const local: Bytes        // the marshalled local address of a dialled connection
    const remote: Bytes       // the marshalled remote address of a dialled connection

    constructor (replies: seq<Reply>, room: nat, local: Bytes, remote: Bytes)
      ensures this.replies == replies && this.room == room
      ensures this.local == local && this.remote == remote
      ensures requests == [] && out == []
    {
      this.replies := replies;
      this.room := room;
      this.local := local;
      this.remote := remote;
      requests := [];
      out := [];
    }

    /** `Read(b)`: fills the front of `b` with what the reader gives next. */
    method Read(b: array<byte>) returns (n: nat, err: Option<Error>)
      modifies this, b
      ensures var d := Next(old(replies), b.Length); n == |d.bytes| && err == d.err && b[..n] == d.bytes
      ensures n <= b.Length && b[n..] == old(b[n..])
      ensures replies == After(old(replies), b.Length)
      ensures requests == old(requests) && out == old(out) && room == old(room)
    {
      var d := Next(replies, b.Length);
      replies := After(replies, b.Length);
      n := Util.Copy(b, d.bytes);
      err := d.err;
    }

    /** `Write(p)`: the sink takes what fits; a short write is an error. */
    method Write(p: Bytes) returns (n: nat, err: Option<Error>)
      modifies this
      ensures n == Min(|p|, old(room)) && room == old(room) - n
      ensures requests == old(requests) + [p] && out == old(out) + p[..n]
      ensures err == (if n < |p| then Some(ShortWrite) else None)
      ensures replies == old(replies)
    {
      n := Min(|p|, room);
      requests := requests + [p];
      out := out + p[..n];
      room := room - n;
      err := if n < |p| then Some(ShortWrite) else None;
    }
  }

  /** The outcome of a real TCP dial. */
  datatype Dialing = Connected(conn: Endpoint) | Refused(text: Bytes)
}
