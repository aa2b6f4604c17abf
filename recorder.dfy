/** The recorder (saver.go, logconn.go): a Saver performs a fetch against the
    real environment and appends every nondeterministic input it sees (the
    clock, the TLS randomness and key log, each dial's outcome and addresses,
    every byte read from and written to the socket, the response body) to a
    log of tagged records, which WriteTo serialises; a LogConn taps one
    connection into that log. */
module Recorder {
  import opened Types
  import Util
  import Io
  import Codec
  import Uvarint
  import Queue
  import Replayer

  /** The size of the buffer `Get` reads the response body with. */
  const BodyBuffer: nat := 65536

  /** Records carrying `tag`, one per chunk, in the order of the chunks. */
  function Tagged(tag: Bytes, chunks: seq<Bytes>): (log: seq<Record>)
    ensures |log| == |chunks|
  {
    seq(|chunks|, i requires 0 <= i < |chunks| => Record(tag, chunks[i]))
  }

  lemma TaggedAppend(tag: Bytes, a: seq<Bytes>, b: seq<Bytes>)
    ensures Tagged(tag, a + b) == Tagged(tag, a) + Tagged(tag, b)
  {
    assert forall i | 0 <= i < |a + b| :: Tagged(tag, a + b)[i] == (Tagged(tag, a) + Tagged(tag, b))[i];
  }

  /** What the read loop of `Get` makes of a body that still has `rs` to give:
      the non-empty chunks its reads deliver, in order; the outcome (nil when
      the body ends with io.EOF itself, else the body's error); and what the
      body has left after the last read. */
  datatype Slurped = Slurped(chunks: seq<Bytes>, err: Option<Error>, rest: seq<Io.Reply>)

  /** The bytes one read into a buffer of `cap` bytes delivers, as a chunk when there are any. */
  function Chunk(rs: seq<Io.Reply>, cap: nat): (c: seq<Bytes>)
    ensures |c| <= 1
  {
    var d := Io.Next(rs, cap);
    if |d.bytes| > 0 then [d.bytes] else []
  }

  function Slurp(rs: seq<Io.Reply>, cap: nat): (s: Slurped)
    requires cap > 0
    ensures s.err != Some(EOF)
    decreases Io.Size(rs)
  {
    var d := Io.Next(rs, cap);
    if d.err.Some? then
      Slurped(Chunk(rs, cap), if d.err.value == EOF then None else d.err, Io.After(rs, cap))
    else
      Io.ReadShrinks(rs, cap);
      var more := Slurp(Io.After(rs, cap), cap);
      Slurped(Chunk(rs, cap) + more.chunks, more.err, more.rest)
  }

  /** What the read loop will have recorded in all, having recorded `done`
      so far with `rs` still to read. */
  function Recorded(done: seq<Bytes>, rs: seq<Io.Reply>, cap: nat): Slurped
    requires cap > 0
  {
    var s := Slurp(rs, cap);
    Slurped(done + s.chunks, s.err, s.rest)
  }

  /** A read that reports no error leaves the loop going, with its chunk recorded. */
  lemma ReadOn(done: seq<Bytes>, rs: seq<Io.Reply>, cap: nat)
    requires cap > 0 && Io.Next(rs, cap).err.None?
    ensures Recorded(done, rs, cap) == Recorded(done + Chunk(rs, cap), Io.After(rs, cap), cap)
  {
    assert done + (Chunk(rs, cap) + Slurp(Io.After(rs, cap), cap).chunks)
      == (done + Chunk(rs, cap)) + Slurp(Io.After(rs, cap), cap).chunks;
  }

  /** A read that reports an error ends the loop, with its chunk recorded. */
  lemma ReadLast(done: seq<Bytes>, rs: seq<Io.Reply>, cap: nat)
    requires cap > 0 && Io.Next(rs, cap).err.Some?
    ensures var e := Io.Next(rs, cap).err.value;
      Recorded(done, rs, cap) == Slurped(done + Chunk(rs, cap), if e == EOF then None else Some(e), Io.After(rs, cap))
  {
  }

  lemma TaggedOne(tag: Bytes, chunk: Bytes)
    ensures Tagged(tag, [chunk]) == [Record(tag, chunk)]
  {
  }

  /** Logging the next chunks extends the log by their records. */
  lemma LogGrows(log0: seq<Record>, tag: Bytes, done: seq<Bytes>, chunk: seq<Bytes>)
    ensures log0 + Tagged(tag, done + chunk) == (log0 + Tagged(tag, done)) + Tagged(tag, chunk)
  {
    TaggedAppend(tag, done, chunk);
  }

  /** The read loop records the body exactly: its chunks, one after the
      other, are the bytes the body delivered before it ended; each is
      non-empty and at most a buffer long; and the loop reports the body's
      final error unless that error is io.EOF. */
  lemma {:induction false} SlurpRecordsBody(rs: seq<Io.Reply>, cap: nat)
    requires cap > 0
    ensures var s := Slurp(rs, cap);
      Codec.Flatten(s.chunks) == Io.Content(rs)
      && (forall i | 0 <= i < |s.chunks| :: 0 < |s.chunks[i]| <= cap)
      && s.err == (if Io.Stop(rs) == EOF then None else Some(Io.Stop(rs)))
    decreases Io.Size(rs)
  {
    var d := Io.Next(rs, cap);
    var chunk := Chunk(rs, cap);
    Io.ReadSplits(rs, cap);
    assert Codec.Flatten(chunk) == d.bytes by {
      if |d.bytes| > 0 {
        assert Codec.Flatten(chunk) == d.bytes + Codec.Flatten([]);
      }
    }
    if d.err.None? {
      Io.ReadShrinks(rs, cap);
      var more := Slurp(Io.After(rs, cap), cap);
      SlurpRecordsBody(Io.After(rs, cap), cap);
      Codec.FlattenAppend(chunk, more.chunks);
    }
  }

  /** The tag of a connection's role record is never a side-channel tag: the
      role tags differ from "time" in length, and from "tls:keylog" in length
      or in their last byte. */
  lemma RoleTagNotSideChannel(name: Bytes, role: Bytes)
    requires role == ConnSuffix || role == LocalSuffix || role == RemoteSuffix || role == ReadSuffix || role == WriteSuffix
    ensures name + role != TimeTag && name + role != KeylogTag
  {
    assert role[|role| - 1] != KeylogTag[9];
    if name + role == KeylogTag {
      assert (name + role)[|name + role| - 1] == role[|role| - 1];
    }
  }

  /** Record then replay, for a dial: the three records `dialTlsContext`
      appends for a connection answer, in order, the three fetches the
      replayer's `dialTlsContext` makes, so it rebuilds the same addresses and
      consumes exactly those records. */
  lemma DialReplays(addr: Bytes, local: Bytes, remote: Bytes, rest: seq<Record>, t: Bytes)
    ensures var log := [Record(addr + ConnSuffix, []), Record(addr + LocalSuffix, local), Record(addr + RemoteSuffix, remote)];
      var f1 := Queue.Fetch(Queue.State(log + rest, [], t), addr + ConnSuffix);
      var f2 := Queue.Fetch(f1.st, addr + LocalSuffix);
      var f3 := Queue.Fetch(f2.st, addr + RemoteSuffix);
      f1.result == Ok([]) && f2.result == Ok(local) && f3.result == Ok(remote)
      && f3.st == Queue.State(rest, [], t)
  {
    RoleTagNotSideChannel(addr, ConnSuffix);
    RoleTagNotSideChannel(addr, LocalSuffix);
    RoleTagNotSideChannel(addr, RemoteSuffix);
    var r1, r2, r3 := Record(addr + ConnSuffix, []), Record(addr + LocalSuffix, local), Record(addr + RemoteSuffix, remote);
    assert [r1, r2, r3] + rest == [r1] + ([r2] + ([r3] + rest));
    Queue.ReplayHead(r1, [r2] + ([r3] + rest), t);
    Queue.ReplayHead(r2, [r3] + rest, t);
    Queue.ReplayHead(r3, rest, t);
  }

  /** Record then replay, for a refused dial: the "<addr>:conn" record
      carrying the error text answers the replayer's first fetch with it. */
  lemma RefusedReplays(addr: Bytes, text: Bytes, rest: seq<Record>, t: Bytes)
    ensures Queue.Fetch(Queue.State([Record(addr + ConnSuffix, text)] + rest, [], t), addr + ConnSuffix)
      == Queue.Fetched(Ok(text), Queue.State(rest, [], t))
  {
    RoleTagNotSideChannel(addr, ConnSuffix);
    Queue.ReplayHead(Record(addr + ConnSuffix, text), rest, t);
  }

  /** Record then replay, for the randomness and a connection's reads: the
      record the recorder appends answers the replayer's next fetch for the
      same tag with the bytes recorded. */
  lemma RandReplays(bytes: Bytes, rest: seq<Record>, t: Bytes)
    ensures Queue.Fetch(Queue.State([Record(RandTag, bytes)] + rest, [], t), RandTag)
      == Queue.Fetched(Ok(bytes), Queue.State(rest, [], t))
  {
    assert |RandTag| != |TimeTag| && |RandTag| != |KeylogTag|;
    Queue.ReplayHead(Record(RandTag, bytes), rest, t);
  }

  lemma ReadReplays(name: Bytes, bytes: Bytes, rest: seq<Record>, t: Bytes)
    ensures Queue.Fetch(Queue.State([Record(name + ReadSuffix, bytes)] + rest, [], t), name + ReadSuffix)
      == Queue.Fetched(Ok(bytes), Queue.State(rest, [], t))
  {
    RoleTagNotSideChannel(name, ReadSuffix);
    Queue.ReplayHead(Record(name + ReadSuffix, bytes), rest, t);
  }

  /** The bytes of the first `c` writes of `cs`. */
  ghost function Sent(cs: seq<Bytes>, c: nat): Bytes
    requires c <= |cs|
  {
    Codec.Flatten(cs[..c])
  }

  /** The first `c` writes of `cs` went through whole into a sink that had
      `room0` bytes of room: the calls so far, the bytes accepted, the running
      total and the room left. */
  ghost predicate Through(cs: seq<Bytes>, c: nat, room0: nat, req0: seq<Bytes>, out0: Bytes,
                          reqs: seq<Bytes>, out: Bytes, total: nat, room: nat)
  {
    c <= |cs| && reqs == req0 + cs[..c] && out == out0 + Sent(cs, c)
    && total == |Sent(cs, c)| <= room0 && room == room0 - total
  }

  /** Write `k` of `cs` was the first that did not fit: the calls up to and
      including it, the bytes that fitted (the front of write `k`, up to the
      room), and a total equal to the room. */
  ghost predicate Stopped(cs: seq<Bytes>, k: nat, room0: nat, req0: seq<Bytes>, out0: Bytes,
                          reqs: seq<Bytes>, out: Bytes, total: nat)
  {
    k < |cs| && reqs == req0 + cs[..k + 1] && total == room0
    && |Sent(cs, k)| <= room0 < |Sent(cs, k)| + |cs[k]|
    && out == out0 + Sent(cs, k) + cs[k][..room0 - |Sent(cs, k)|]
  }

  /** What WriteTo promises, from where its writes stopped: all of them went
      through, or write `stop` was the first that did not fit. */
  lemma WriteToOutcome(data: seq<Record>, stop: nat, room0: nat, req0: seq<Bytes>, out0: Bytes,
                       reqs: seq<Bytes>, out: Bytes, total: nat, room: nat, err: Option<Error>)
    requires var cs := Codec.Chunks(data);
      (err.None? ==> Through(cs, |cs|, room0, req0, out0, reqs, out, total, room))
      && (err.Some? ==> err == Some(ShortWrite) && room == room0 - total && Stopped(cs, stop, room0, req0, out0, reqs, out, total))
    ensures var e := Codec.Encode(data);
      (err.None? <==> |e| <= room0)
      && (err.None? ==> total == |e| && out == out0 + e && reqs == req0 + Codec.Chunks(data))
      && (err.Some? ==>
            err == Some(ShortWrite) && total == room0 && out == out0 + e[..total]
            && exists k | 0 <= k < |Codec.Chunks(data)| :: Stopped(Codec.Chunks(data), k, room0, req0, out0, reqs, out, total))
      && room == room0 - total
  {
    var cs := Codec.Chunks(data);
    var e := Codec.Encode(data);
    Codec.ChunksFlatten(data);
    if err.Some? {
      StoppedShort(cs, e, stop, room0, req0, out0, reqs, out, total);
    } else {
      assert cs[..|cs|] == cs;
    }
  }

  /** Writes that stopped at write `k` of `cs`, whose bytes are `e`, took
      fewer bytes than `e` holds: the front of `e`, up to the room. */
  lemma StoppedShort(cs: seq<Bytes>, e: Bytes, k: nat, room0: nat, req0: seq<Bytes>, out0: Bytes,
                     reqs: seq<Bytes>, out: Bytes, total: nat)
    requires Codec.Flatten(cs) == e
    requires Stopped(cs, k, room0, req0, out0, reqs, out, total)
    ensures room0 < |e| && total == room0 && out == out0 + e[..total]
  {
    var before := |Sent(cs, k)|;
    var part := room0 - before;
    Codec.FlattenPrefix(cs, k, part);
    assert total == before + part;
  }

  /** A write of WriteTo that fits keeps the writes going through whole. */
  lemma Fits(cs: seq<Bytes>, c: nat, room0: nat, req0: seq<Bytes>, out0: Bytes,
             reqs: seq<Bytes>, out: Bytes, total: nat, room: nat)
    requires Through(cs, c, room0, req0, out0, reqs, out, total, room)
    requires c < |cs| && |cs[c]| <= room
    ensures Through(cs, c + 1, room0, req0, out0, reqs + [cs[c]], out + cs[c], total + |cs[c]|, room - |cs[c]|)
  {
    assert cs[..c + 1] == cs[..c] + [cs[c]];
    Codec.FlattenStep(cs, c);
  }

  /** A write of WriteTo that does not fit stops the sequence. */
  lemma Overflows(cs: seq<Bytes>, c: nat, room0: nat, req0: seq<Bytes>, out0: Bytes,
                  reqs: seq<Bytes>, out: Bytes, total: nat, room: nat)
    requires Through(cs, c, room0, req0, out0, reqs, out, total, room)
    requires c < |cs| && room < |cs[c]|
    ensures Stopped(cs, c, room0, req0, out0, reqs + [cs[c]], out + cs[c][..room], total + room)
  {
    assert cs[..c + 1] == cs[..c] + [cs[c]];
  }

  /** The four writes of record `i` are writes c = 4i to 4i + 3 of the log. */
  lemma WritesOf(data: seq<Record>, i: nat, c: nat)
    requires i < |data| && c == 4 * i
    ensures c + |Codec.Fields(data[i])| <= |Codec.Chunks(data)| && Codec.Chunks(data)[c..c + |Codec.Fields(data[i])|] == Codec.Fields(data[i])
    ensures |Codec.Fields(data[i])| == 4
  {
    var cs := Codec.Chunks(data);
    Codec.ChunksAt(data, i, 0);
    Codec.ChunksAt(data, i, 1);
    Codec.ChunksAt(data, i, 2);
    Codec.ChunksAt(data, i, 3);
    assert cs[c..c + 4] == [cs[c], cs[c + 1], cs[c + 2], cs[c + 3]];
  }

  /** Writes `f`, going through whole after the first `c` writes of `cs`,
      where they come next, make the first c + |f| go through whole. */
  lemma Extend(cs: seq<Bytes>, c: nat, f: seq<Bytes>, room0: nat, req0: seq<Bytes>, out0: Bytes,
               reqs: seq<Bytes>, out: Bytes, total: nat, room: nat,
               reqs': seq<Bytes>, out': Bytes, n: nat, room': nat)
    requires Through(cs, c, room0, req0, out0, reqs, out, total, room)
    requires c + |f| <= |cs| && cs[c..c + |f|] == f
    requires Through(f, |f|, room, reqs, out, reqs', out', n, room')
    ensures Through(cs, c + |f|, room0, req0, out0, reqs', out', total + n, room')
  {
    assert cs[..c + |f|] == cs[..c] + f;
    assert f[..|f|] == f;
    Codec.FlattenAppend(cs[..c], f);
  }

  /** Writes `f` that stop at write `k`, after the first `c` writes of `cs`
      went through, stop the whole sequence at write c + k. */
  lemma ExtendStopped(cs: seq<Bytes>, c: nat, f: seq<Bytes>, k: nat, room0: nat, req0: seq<Bytes>, out0: Bytes,
                      reqs: seq<Bytes>, out: Bytes, total: nat, room: nat,
                      reqs': seq<Bytes>, out': Bytes, n: nat)
    requires Through(cs, c, room0, req0, out0, reqs, out, total, room)
    requires c + |f| <= |cs| && cs[c..c + |f|] == f
    requires Stopped(f, k, room, reqs, out, reqs', out', n)
    ensures Stopped(cs, c + k, room0, req0, out0, reqs', out', total + n)
  {
    assert cs[..c + k] == cs[..c] + f[..k];
    assert cs[..c + k + 1] == cs[..c] + f[..k + 1];
    assert cs[c + k] == f[k];
    Codec.FlattenAppend(cs[..c], f[..k]);
  }

  /** One write of WriteTo: `p`, which is write `c` of `cs`, after the first
      `c` writes went through whole. */
  method Put(w: Io.Endpoint, p: Bytes, ghost cs: seq<Bytes>, ghost c: nat,
             ghost room0: nat, ghost req0: seq<Bytes>, ghost out0: Bytes, ghost sent: nat)
    returns (n: nat, err: Option<Error>)
    modifies w
    requires c < |cs| && cs[c] == p
    requires Through(cs, c, room0, req0, out0, w.requests, w.out, sent, w.room)
    ensures err.None? ==> Through(cs, c + 1, room0, req0, out0, w.requests, w.out, sent + n, w.room)
    ensures err.Some? ==>
      err == Some(ShortWrite) && w.room == room0 - (sent + n)
      && Stopped(cs, c, room0, req0, out0, w.requests, w.out, sent + n)
    ensures w.replies == old(w.replies)
  {
    ghost var reqs, out, room := w.requests, w.out, w.room;
    n, err := w.Write(p);
    if err.Some? {
      Overflows(cs, c, room0, req0, out0, reqs, out, sent, room);
    } else {
      Fits(cs, c, room0, req0, out0, reqs, out, sent, room);
    }
  }

  /** The body of WriteTo's loop: the four writes of record `r` (tag length,
      tag, payload length, payload), stopping at the first that fails. */
  method WriteRecord(w: Io.Endpoint, r: Record) returns (n: nat, err: Option<Error>, ghost k: nat)
    modifies w
    ensures var f := Codec.Fields(r);
      (err.None? ==> Through(f, 4, old(w.room), old(w.requests), old(w.out), w.requests, w.out, n, w.room))
      && (err.Some? ==>
            err == Some(ShortWrite) && w.room == old(w.room) - n
            && Stopped(f, k, old(w.room), old(w.requests), old(w.out), w.requests, w.out, n))
    ensures w.replies == old(w.replies)
  {
    ghost var f := Codec.Fields(r);
    ghost var room0, req0, out0 := w.room, w.requests, w.out;
    assert f[..0] == [] && req0 + [] == req0 && out0 + [] == out0;
    var n2: nat;
    n, k := 0, 0;
    n2, err := Put(w, Uvarint.Encode(|r.tag|), f, 0, room0, req0, out0, n);
    n := n + n2;
    if err.Some? {
      return;
    }
    k := 1;
    n2, err := Put(w, r.tag, f, 1, room0, req0, out0, n);
    n := n + n2;
    if err.Some? {
      return;
    }
    k := 2;
    n2, err := Put(w, Uvarint.Encode(|r.payload|), f, 2, room0, req0, out0, n);
    n := n + n2;
    if err.Some? {
      return;
    }
    k := 3;
    n2, err := Put(w, r.payload, f, 3, room0, req0, out0, n);
    n := n + n2;
  }

  class Saver {
    var data: seq<Record>   // the log, in the order the inputs arrived
    var t: Bytes            // the session start time, marshalled
    const rnd: Io.Endpoint  // the entropy source (crypto/rand.Reader)

    /** `NewSaver`: a log holding one "time" record of the start time `now`. */
    constructor (now: Bytes, rnd: Io.Endpoint)
      ensures data == [Record(TimeTag, now)] && t == now && this.rnd == rnd
    {
      this.rnd := rnd;
      t := now;
      data := [];
      new;
      var b := Util.Alloc(now);
      assert b[..b.Length] == now;
      Append(TimeTag, b, b.Length);
    }

    /** `Loader()`: a replayer over this log at the recorded start time; it
        has no stream to read on. */
    method Loader() returns (l: Replayer.Loader)
      ensures fresh(l) && l.data == data && l.stream == [] && l.t == t
    {
      l := new Replayer.Loader.FromLog(data, t);
    }

    /** `append(tag, b[:n])`: logs a copy of the bytes under `tag`. */
    method Append(tag: Bytes, b: array<byte>, n: nat)
      requires n <= b.Length
      modifies this
      ensures data == old(data) + [Record(tag, b[..n])] && t == old(t)
    {
      var copy := Util.Dup(b, n);
      data := data + [Record(tag, copy[..])];
    }

    /** `time`: the TLS clock hook. Logs the current time `now` and returns
        it; the session start time stays as it was. */
    method Time(now: Bytes) returns (r: Bytes)
      modifies this
      ensures r == now && data == old(data) + [Record(TimeTag, now)] && t == old(t)
    {
      var b := Util.Alloc(now);
      assert b[..b.Length] == now;
      Append(TimeTag, b, b.Length);
      r := now;
    }

    /** `keylog`: the TLS key log writer. Logs the line and reports all of it written. */
    method Keylog(b: array<byte>) returns (n: nat, err: Option<Error>)
      modifies this
      ensures n == b.Length && err == None
      ensures data == old(data) + [Record(KeylogTag, b[..])] && t == old(t)
    {
      assert b[..b.Length] == b[..];
      Append(KeylogTag, b, b.Length);
      return b.Length, None;
    }

    /** `ReadRand`: the TLS randomness hook. A one-byte read is answered with
        a 1 and nothing else happens; any other read reads the entropy source
        into `b` and logs what it delivered, unless it failed, in which case
        0 and the error are returned and nothing is logged. */
    method ReadRand(b: array<byte>) returns (n: nat, err: Option<Error>)
      modifies this, rnd, b
      ensures t == old(t)
      ensures b.Length == 1 ==> n == 1 && err == None && data == old(data) && unchanged(rnd) && unchanged(b)
      ensures b.Length != 1 ==> var d := Io.Next(old(rnd.replies), b.Length);
        rnd.replies == Io.After(old(rnd.replies), b.Length)
        && b[..|d.bytes|] == d.bytes && b[|d.bytes|..] == old(b[|d.bytes|..])
        && (d.err.Some? ==> n == 0 && err == d.err && data == old(data))
        && (d.err.None? ==> n == |d.bytes| && err == None && data == old(data) + [Record(RandTag, d.bytes)])
    {
      if b.Length == 1 {
        return 1, None;
      }
      var got;
      got, err := rnd.Read(b);
      if err.Some? {
        return 0, err;
      }
      Append(RandTag, b, got);
      n := got;
    }

    /** `WriteTo`: writes the log in its binary form, four writes per record
        (tag length, tag, payload length, payload), and stops at the first
        write that fails. It succeeds exactly when the sink takes the whole
        binary form; otherwise it returns how much the sink took, which is
        the front of that form, and no write follows the failed one. */
    method WriteTo(w: Io.Endpoint) returns (total: nat, err: Option<Error>)
      modifies w
      ensures var e := Codec.Encode(data);
        (err.None? <==> |e| <= old(w.room))
        && (err.None? ==>
              total == |e| && w.out == old(w.out) + e && w.requests == old(w.requests) + Codec.Chunks(data))
        && (err.Some? ==>
              err == Some(ShortWrite) && total == old(w.room) && w.out == old(w.out) + e[..total]
              && exists k | 0 <= k < |Codec.Chunks(data)| :: Stopped(Codec.Chunks(data), k, old(w.room), old(w.requests), old(w.out), w.requests, w.out, total))
      ensures w.room == old(w.room) - total && w.replies == old(w.replies)
    {
      ghost var cs := Codec.Chunks(data);
      ghost var room0, req0, out0 := w.room, w.requests, w.out;
      ghost var stop: nat := 0;  // the write that failed, once one has
      total, err := 0, None;
      assert cs[..0] == [] && req0 + [] == req0 && out0 + [] == out0;
      var i := 0;
      ghost var c := 0;  // the writes issued so far
      while i < |data|
        invariant i <= |data| && err == None && c == 4 * i
        invariant Through(cs, c, room0, req0, out0, w.requests, w.out, total, w.room)
        invariant w.replies == old(w.replies)
      {
        ghost var f := Codec.Fields(data[i]);
        WritesOf(data, i, c);
        ghost var reqs, out, room := w.requests, w.out, w.room;
        var n2: nat;
        ghost var k: nat;
        n2, err, k := WriteRecord(w, data[i]);
        if err.Some? {
          ExtendStopped(cs, c, f, k, room0, req0, out0, reqs, out, total, room, w.requests, w.out, n2);
          stop := c + k;
          total := total + n2;
          break;
        }
        Extend(cs, c, f, room0, req0, out0, reqs, out, total, room, w.requests, w.out, n2, w.room);
        total := total + n2;
        i := i + 1;
        c := c + |f|;
      }
      WriteToOutcome(data, stop, room0, req0, out0, w.requests, w.out, total, w.room, err);
    }

    /** `dialContext`: a plain dial goes to the network unrecorded. */
    method DialContext(addr: Bytes, dialing: Io.Dialing) returns (r: Result<Io.Endpoint>)
      ensures dialing.Connected? ==> r == Ok(dialing.conn)
      ensures dialing.Refused? ==> r == Err(Failure(dialing.text))
    {
      match dialing
      case Connected(c) => r := Ok(c);
      case Refused(text) => r := Err(Failure(text));
    }

    /** `dialTlsContext` up to the handshake: logs the dial's outcome under
        "<addr>:conn" (the error text, or nothing), and for a connection its
        local and then its remote address; the connection is then tapped by
        a LogConn named `addr`. */
    method DialTls(addr: Bytes, dialing: Io.Dialing) returns (r: Result<LogConn>)
      modifies this
      ensures t == old(t)
      ensures dialing.Refused? ==>
        r == Err(Failure(dialing.text)) && data == old(data) + [Record(addr + ConnSuffix, dialing.text)]
      ensures dialing.Connected? ==>
        data == old(data) + [Record(addr + ConnSuffix, []), Record(addr + LocalSuffix, dialing.conn.local),
                             Record(addr + RemoteSuffix, dialing.conn.remote)]
        && r.Ok? && fresh(r.value) && r.value.conn == dialing.conn && r.value.logger == this && r.value.name == addr
    {
      match dialing
      case Refused(text) =>
        var b := Util.Alloc(text);
        assert b[..b.Length] == text;
        Append(addr + ConnSuffix, b, b.Length);
        return Err(Failure(text));
      case Connected(c) =>
        var none := new byte[0];
        assert none[..0] == [];
        Append(addr + ConnSuffix, none, 0);
        var local := Util.Alloc(c.local);
        assert local[..local.Length] == c.local;
        Append(addr + LocalSuffix, local, local.Length);
        var remote := Util.Alloc(c.remote);
        assert remote[..remote.Length] == c.remote;
        Append(addr + RemoteSuffix, remote, remote.Length);
        var lc := new LogConn(c, this, addr);
        return Ok(lc);
    }

    /** `Get` once the request has been sent: `response` is what the HTTP
        client returned. An error is returned as it is; otherwise the body
        is read through a 64 KiB buffer until it reports an error, every
        non-empty read is logged as an "http:body" record, and io.EOF counts
        as success. */
    method Get(response: Result<Io.Endpoint>) returns (err: Option<Error>)
      modifies this, if response.Ok? then {response.value} else {}
      ensures t == old(t)
      ensures response.Err? ==> err == Some(response.error) && data == old(data)
      ensures response.Ok? ==>
        var body := response.value; var s := Slurp(old(body.replies), BodyBuffer);
        data == old(data) + Tagged(BodyTag, s.chunks) && err == s.err && body.replies == s.rest
        && body.requests == old(body.requests) && body.out == old(body.out) && body.room == old(body.room)
    {
      if response.Err? {
        return Some(response.error);
      }
      err := ReadBody(response.value);
    }

    /** The read loop of `Get`. */
    method ReadBody(body: Io.Endpoint) returns (err: Option<Error>)
      modifies this, body
      ensures t == old(t)
      ensures var s := Slurp(old(body.replies), BodyBuffer);
        data == old(data) + Tagged(BodyTag, s.chunks) && err == s.err && body.replies == s.rest
        && body.requests == old(body.requests) && body.out == old(body.out) && body.room == old(body.room)
    {
      var b := new byte[BodyBuffer];
      ghost var done: seq<Bytes> := [];
      ghost var total := Slurp(body.replies, BodyBuffer);
      assert Recorded([], body.replies, BodyBuffer) == total by {
        assert [] + total.chunks == total.chunks;
      }
      assert Tagged(BodyTag, []) == [] && data + [] == data;
      while true
        invariant t == old(t)
        invariant data == old(data) + Tagged(BodyTag, done)
        invariant Recorded(done, body.replies, BodyBuffer) == total
        invariant body.requests == old(body.requests) && body.out == old(body.out) && body.room == old(body.room)
        decreases Io.Size(body.replies)
      {
        ghost var rs := body.replies;
        ghost var chunk;
        var e;
        e, chunk := ReadChunk(body, b);
        LogGrows(old(data), BodyTag, done, chunk);
        if e.Some? {
          ReadLast(done, rs, BodyBuffer);
          done := done + chunk;
          assert total.chunks == done && total.rest == body.replies;
          if e.value == EOF {
            return None;
          }
          return e;
        }
        Io.ReadShrinks(rs, BodyBuffer);
        ReadOn(done, rs, BodyBuffer);
        done := done + chunk;
      }
    }

    /** One pass of the read loop of `Get`: a read into `b` and, when it
        delivered bytes, a "body" record of them. */
    method ReadChunk(body: Io.Endpoint, b: array<byte>) returns (e: Option<Error>, ghost chunk: seq<Bytes>)
      modifies this, body, b
      ensures chunk == Chunk(old(body.replies), b.Length) && e == Io.Next(old(body.replies), b.Length).err
      ensures data == old(data) + Tagged(BodyTag, chunk) && t == old(t)
      ensures body.replies == Io.After(old(body.replies), b.Length)
      ensures body.requests == old(body.requests) && body.out == old(body.out) && body.room == old(body.room)
    {
      chunk := Chunk(body.replies, b.Length);
      var n;
      n, e := body.Read(b);
      if n > 0 {
        Append(BodyTag, b, n);
        TaggedOne(BodyTag, b[..n]);
      } else {
        assert Tagged(BodyTag, chunk) == [] && old(data) + [] == old(data);
      }
    }
  }

  /** `logConn`: a connection whose reads and writes are logged under its name. */
  class LogConn {
    const conn: Io.Endpoint
    const logger: Saver
    const name: Bytes

    constructor (conn: Io.Endpoint, logger: Saver, name: Bytes)
      ensures this.conn == conn && this.logger == logger && this.name == name
    {
      this.conn := conn;
      this.logger := logger;
      this.name := name;
    }

    /** `Read(b)`: reads from the connection and returns what it returned;
        the bytes read, when there are any, are logged under "<name>:read",
        whatever the error. */
    method Read(b: array<byte>) returns (n: nat, err: Option<Error>)
      modifies conn, b, logger
      ensures var d := Io.Next(old(conn.replies), b.Length);
        n == |d.bytes| && err == d.err && b[..n] == d.bytes && b[n..] == old(b[n..])
        && conn.replies == Io.After(old(conn.replies), b.Length)
        && logger.data == old(logger.data) + (if n > 0 then [Record(name + ReadSuffix, d.bytes)] else [])
      ensures logger.t == old(logger.t)
      ensures conn.requests == old(conn.requests) && conn.out == old(conn.out) && conn.room == old(conn.room)
    {
      n, err := conn.Read(b);
      if n > 0 {
        logger.Append(name + ReadSuffix, b, n);
      }
    }

    /** `Write(b)`: logs all of `b` under "<name>:write" before the write,
        then returns what the connection's write returned. */
    method Write(b: array<byte>) returns (n: nat, err: Option<Error>)
      modifies logger, conn
      ensures logger.data == old(logger.data) + [Record(name + WriteSuffix, b[..])] && logger.t == old(logger.t)
      ensures n == Min(b.Length, old(conn.room)) && conn.room == old(conn.room) - n
      ensures err == (if n < b.Length then Some(ShortWrite) else None)
      ensures conn.requests == old(conn.requests) + [b[..]] && conn.out == old(conn.out) + b[..n]
      ensures conn.replies == old(conn.replies)
    {
      assert b[..b.Length] == b[..];
      logger.Append(name + WriteSuffix, b, b.Length);
      n, err := conn.Write(b[..]);
    }
  }
}
