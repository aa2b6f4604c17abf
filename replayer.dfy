/** The replayer (loader.go, loaderconn.go): a Loader reads a record log back
    and answers every request for nondeterministic input by fetching the next
    record under the matching tag; a LoaderConn fabricates a connection's
    reads and writes from those records. */
module Replayer {
  import opened Types
  import Util
  import Uvarint
  import Codec
  import Queue

  /** `spawnAddr`: a fetched address record becomes the connection's address;
      a failed fetch leaves the address unknown (nil). The marshalled form of
      the address is kept as it is. */
  function SpawnAddr(res: Result<Bytes>): (a: Option<Bytes>)
    ensures a.None? <==> res.Err?
    ensures a.Some? ==> a.value == res.value
  {
    match res
    case Err(_) => None
    case Ok(b) => Some(b)
  }

  class Loader {
    var data: seq<Record>  // the prefetch queue
    var stream: Bytes      // what the buffered reader has not delivered yet
    var t: Bytes           // the session time, in its marshalled form

    function State(): Queue.State
      reads this
    {
      Queue.State(data, stream, t)
    }

    /** `NewLoader(r)`: an empty queue over the stream `r` delivers, at the
        zero time. Times are kept as opaque marshalled payloads, and the empty
        payload `[]` stands for the zero `time.Time` here (its real marshalled
        form is not empty). */
    constructor (stream: Bytes)
      ensures data == [] && this.stream == stream && t == []
    {
      data := [];
      this.stream := stream;
      t := [];
    }

    /** The Loader `Saver.Loader()` builds: the recorded log as its queue and
        the recorder's time, with nothing left to read. */
    constructor FromLog(data: seq<Record>, t: Bytes)
      ensures this.data == data && stream == [] && this.t == t
    {
      this.data := data;
      stream := [];
      this.t := t;
    }

    /** `loadRecord`: reads one record from the stream, field by field. */
    method LoadRecord() returns (r: Result<Record>)
      modifies this
      ensures Codec.ParseRecord(old(stream)) == Codec.Parsed(r, stream)
      ensures data == old(data) && t == old(t)
    {
      ghost var s := stream;
      var n := Uvarint.Decode(stream);
      stream := stream[n.used..];
      if n.err.Some? {
        return Err(ReadingLen(n.err.value));
      }
      assert Codec.ParseRecord(s) == Codec.ParseTag(stream, n.value);
      ghost var s1 := stream;
      var tag := Codec.ReadFull(stream, n.value);
      stream := stream[tag.used..];
      if tag.err.Some? {
        return Err(tag.err.value);
      }
      assert Codec.ParseTag(s1, n.value) == Codec.ParsePayload(stream, tag.bytes);
      var m := Uvarint.Decode(stream);
      stream := stream[m.used..];
      if m.err.Some? {
        return Err(m.err.value);
      }
      var payload := Codec.ReadFull(stream, m.value);
      stream := stream[payload.used..];
      if payload.err.Some? {
        return Err(payload.err.value);
      }
      return Ok(Record(tag.bytes, payload.bytes));
    }

    /** `fetch(tag)`: tops the queue up from the stream, then pops the
        side-channel records at its head and takes the first record carrying
        `tag`. The effect is that of Queue.Fetch, whose properties are proved
        in module Queue. */
    method Fetch(tag: Bytes) returns (r: Result<Bytes>)
      modifies this
      ensures var f := Queue.Fetch(old(State()), tag); r == f.result && State() == f.st
    {
      var err := Refill();
      if err.Some? {
        return Err(err.value);
      }
      r := Lookup(tag);
    }

    /** The first loop of `fetch`: loads records until Window are buffered
        or the stream ends cleanly, and stops at any other load error. */
    method Refill() returns (err: Option<Error>)
      modifies this
      ensures var R := Queue.Refill(|old(data)|, old(stream));
        data == old(data) + R.loaded && stream == R.stream && err == R.err && t == old(t)
    {
      ghost var d0 := data;
      ghost var R := Queue.Refill(|data|, stream);
      ghost var cur := R;  // what the rest of the refill does from here
      while |data| < Queue.Window
        invariant data + cur.loaded == d0 + R.loaded
        invariant cur.stream == R.stream && cur.err == R.err
        invariant t == old(t)
        invariant Queue.Refill(|data|, stream) == cur
        decreases Queue.Window - |data|
      {
        ghost var s := stream;
        var c := LoadRecord();
        Queue.RefillStep(|data|, s, cur, c, stream);
        if c.Err? {
          if IsEOF(c.error) {
            break;
          }
          assert data + [] == data;
          return Some(c.error);
        }
        Queue.Shift(data, cur.loaded);
        data := data + [c.value];
        cur := Queue.Refilled(cur.loaded[1..], cur.stream, cur.err);
      }
      assert cur.loaded == [] && data + [] == data;
      return None;
    }

    /** The second loop of `fetch`, with the scan index `n`. */
    method Lookup(tag: Bytes) returns (r: Result<Bytes>)
      modifies this
      ensures var L := Queue.Lookup(old(data), tag, old(t));
        r == L.result && data == L.data && t == L.t && stream == old(stream)
    {
      ghost var L := Queue.Lookup(data, tag, t);
      var n := 0;
      while true
        invariant n <= |data|
        invariant stream == old(stream)
        invariant n == 0 ==> Queue.Lookup(data, tag, t) == L
        invariant n > 0 ==> Queue.Take(data, tag, n, t) == L
        decreases |data|, |data| - n
      {
        if |data| <= n {
          return Err(OutOfData(tag));
        }
        var c := data[n];
        if n == 0 && c.tag == TimeTag {
          data := data[1..];
          t := c.payload;
          if tag == TimeTag {
            return Ok([]);
          }
          continue;
        }
        if n == 0 && c.tag == KeylogTag {
          data := data[1..];
          continue;
        }
        if c.tag == tag {
          data := data[..n] + data[n + 1..];
          return Ok(c.payload);
        }
        n := n + 1;
      }
    }

    /** `readRand`: the TLS randomness hook. A one-byte read is answered
        without touching the queue (a 1 and no error, the buffer as it was);
        any other read copies the next "rnd:read" payload into `b`, as much as
        fits, and returns the payload's full length. */
    method ReadRand(b: array<byte>) returns (n: nat, err: Option<Error>)
      modifies this, b
      ensures b.Length == 1 ==> n == 1 && err == None && State() == old(State()) && b[..] == old(b[..])
      ensures b.Length != 1 ==> var f := Queue.Fetch(old(State()), RandTag);
        State() == f.st
        && (f.result.Err? ==> n == 0 && err == Some(f.result.error) && b[..] == old(b[..]))
        && (f.result.Ok? ==>
              n == |f.result.value| && err == None
              && b[..Min(b.Length, n)] == f.result.value[..Min(b.Length, n)]
              && b[Min(b.Length, n)..] == old(b[Min(b.Length, n)..]))
    {
      if b.Length == 1 {
        return 1, None;
      }
      var res := Fetch(RandTag);
      if res.Err? {
        return 0, Some(res.error);
      }
      var copied := Util.Copy(b, res.value);
      return |res.value|, None;
    }

    /** `time`: the TLS clock hook. Fetches "time", ignoring the outcome, and
        returns the session time, which a "time" record at the head of the
        queue has just updated. */
    method Time() returns (now: Bytes)
      modifies this
      ensures var f := Queue.Fetch(old(State()), TimeTag); State() == f.st && now == f.st.t
    {
      var _ := Fetch(TimeTag);
      now := t;
    }

    /** `dialContext`: a replay carries plain connections only inside TLS, so
        a plain dial always fails. */
    method DialContext(addr: Bytes) returns (r: Result<LoaderConn>)
      ensures r == Err(NotTls)
    {
      r := Err(NotTls);
    }

    /** `dialTlsContext` up to the handshake: fetches the "<addr>:conn"
        record; a non-empty payload is the recorded dial error. Otherwise the
        connection is built from the "<addr>:local" and "<addr>:remote"
        records, fetched in that order. */
    method DialTls(addr: Bytes) returns (r: Result<LoaderConn>)
      modifies this
      ensures var f1 := Queue.Fetch(old(State()), addr + ConnSuffix);
        (f1.result.Err? ==> r == Err(f1.result.error) && State() == f1.st)
        && (f1.result.Ok? && f1.result.value != [] ==> r == Err(Failure(f1.result.value)) && State() == f1.st)
        && (f1.result == Ok([]) ==>
              var f2 := Queue.Fetch(f1.st, addr + LocalSuffix);
              var f3 := Queue.Fetch(f2.st, addr + RemoteSuffix);
              State() == f3.st && r.Ok? && fresh(r.value)
              && r.value.loader == this && r.value.name == addr
              && r.value.local == SpawnAddr(f2.result) && r.value.remote == SpawnAddr(f3.result))
    {
      var res := Fetch(addr + ConnSuffix);
      if res.Err? {
        return Err(res.error);
      }
      if |res.value| > 0 {
        return Err(Failure(res.value));
      }
      var local := Fetch(addr + LocalSuffix);
      var remote := Fetch(addr + RemoteSuffix);
      var c := new LoaderConn(this, addr, SpawnAddr(local), SpawnAddr(remote));
      return Ok(c);
    }
  }

  /** `loaderConn`: the connection a replayed TLS session runs over. */
  class LoaderConn {
    const loader: Loader
    const name: Bytes
    const local: Option<Bytes>
    const remote: Option<Bytes>

    constructor (loader: Loader, name: Bytes, local: Option<Bytes>, remote: Option<Bytes>)
      ensures this.loader == loader && this.name == name
      ensures this.local == local && this.remote == remote
    {
      this.loader := loader;
      this.name := name;
      this.local := local;
      this.remote := remote;
    }

    /** `Read(b)`: the next "<name>:read" payload, copied into `b` as far as it
        fits. The count returned is the payload's length, which exceeds
        `b.Length` when the copy was truncated. A failed fetch returns 0 and
        its error, with `b` untouched. */
    method Read(b: array<byte>) returns (n: nat, err: Option<Error>)
      modifies loader, b
      ensures var f := Queue.Fetch(old(loader.State()), name + ReadSuffix);
        loader.State() == f.st
        && (f.result.Err? ==> n == 0 && err == Some(f.result.error) && b[..] == old(b[..]))
        && (f.result.Ok? ==>
              n == |f.result.value| && err == None
              && b[..Min(b.Length, n)] == f.result.value[..Min(b.Length, n)]
              && b[Min(b.Length, n)..] == old(b[Min(b.Length, n)..]))
    {
      var res := loader.Fetch(name + ReadSuffix);
      if res.Err? {
        return 0, Some(res.error);
      }
      var copied := Util.Copy(b, res.value);
      return |res.value|, None;
    }

    /** `Write(b)`: consumes one "<name>:write" record and reports the whole
        of `b` written, whatever the fetch returned; the bytes are not
        compared with the recording. */
    method Write(b: array<byte>) returns (n: nat, err: Option<Error>)
      modifies loader
      ensures loader.State() == Queue.Fetch(old(loader.State()), name + WriteSuffix).st
      ensures n == b.Length && err == None
    {
      var _ := loader.Fetch(name + WriteSuffix);
      return b.Length, None;
    }

    /** `Close`: nothing to release. */
    method Close() returns (err: Option<Error>)
      ensures err == None
    {
      err := None;
    }

    /** `LocalAddr`: the address fixed when the connection was built. */
    function LocalAddr(): (a: Option<Bytes>)
      ensures a == local
    {
      local
    }

    /** `RemoteAddr`: the address fixed when the connection was built. */
    function RemoteAddr(): (a: Option<Bytes>)
      ensures a == remote
    {
      remote
    }

    /** `SetDeadline`: there is no real I/O to bound. */
    method SetDeadline(deadline: Bytes) returns (err: Option<Error>)
      ensures err == None
    {
      err := None;
    }

    /** `SetReadDeadline`: there is no real I/O to bound. */
    method SetReadDeadline(deadline: Bytes) returns (err: Option<Error>)
      ensures err == None
    {
      err := None;
    }

    /** `SetWriteDeadline`: there is no real I/O to bound. */
    method SetWriteDeadline(deadline: Bytes) returns (err: Option<Error>)
      ensures err == None
    {
      err := None;
    }
  }
}
