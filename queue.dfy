/** The replayer's record queue as values: what one `fetch` of loader.go does
    to the buffered records, the unread stream and the session time. The
    Loader class of module Replayer runs the same steps in place and is proved
    against these functions. */
module Queue {
  import opened Types
  import Codec

  /** fetch tops the queue up to this many records before each lookup. */
  const Window: nat := 10

  /** The part of a Loader that fetch reads and writes. */
  datatype State = State(data: seq<Record>, stream: Bytes, t: Bytes)

  /** The records a refill loaded, what is left of the stream, and the error that stopped it. */
  datatype Refilled = Refilled(loaded: seq<Record>, stream: Bytes, err: Option<Error>)

  /** The first loop of fetch, with `count` records already buffered: loads
      records from the stream while fewer than Window are buffered. A clean end
      of the stream (io.EOF, possibly wrapped) stops loading quietly; any other
      error is returned, and the records loaded before it stay buffered. */
  function Refill(count: nat, stream: Bytes): (r: Refilled)
    ensures count + |r.loaded| <= if count < Window then Window else count
    ensures |r.stream| <= |stream|
    ensures r.err.Some? ==> !IsEOF(r.err.value)
  {
    Fill(if count < Window then Window - count else 0, stream)
  }

  /** That loop with room for `room` more records: the loop test. */
  function Fill(room: nat, stream: Bytes): (r: Refilled)
    ensures |r.loaded| <= room
    ensures |r.stream| <= |stream|
    ensures r.err.Some? ==> !IsEOF(r.err.value)
    decreases room, 1
  {
    if room == 0 then Refilled([], stream, None) else Load(room, stream)
  }

  /** The body of that loop: loads one record, then stops or goes round again
      with the record buffered. */
  function Load(room: nat, stream: Bytes): (r: Refilled)
    requires room > 0
    ensures |r.loaded| <= room
    ensures |r.stream| <= |stream|
    ensures r.err.Some? ==> !IsEOF(r.err.value)
    decreases room, 0
  {
    var p := Codec.ParseRecord(stream);
    match p.result
    case Err(e) => Refilled([], p.rest, if IsEOF(e) then None else Some(e))
    case Ok(rec) =>
      var r := Fill(room - 1, p.rest);
      Refilled([rec] + r.loaded, r.stream, r.err)
  }

  /** One step of Refill, where `cur` is what the refill does from `count`
      records on and loading a record from `s` gave `r` and left `s'`: a
      failed load ends the refill, a loaded record heads what it loads and the
      refill goes on from `s'`. */
  lemma RefillStep(count: nat, s: Bytes, cur: Refilled, r: Result<Record>, s': Bytes)
    requires count < Window && Refill(count, s) == cur
    requires Codec.ParseRecord(s) == Codec.Parsed(r, s')
    ensures r.Err? ==> cur == Refilled([], s', if IsEOF(r.error) then None else Some(r.error))
    ensures r.Ok? ==>
      cur.loaded != [] && cur.loaded[0] == r.value
      && Refill(count + 1, s') == Refilled(cur.loaded[1..], cur.stream, cur.err)
  {
    assert cur == Load(Window - count, s);
    if r.Ok? {
      var r' := Refill(count + 1, s');
      assert cur == Refilled([r.value] + r'.loaded, r'.stream, r'.err);
      assert ([r.value] + r'.loaded)[1..] == r'.loaded;
    }
  }

  /** Moving the head of what is still to load onto the queue keeps the whole. */
  lemma Shift(data: seq<Record>, loaded: seq<Record>)
    requires loaded != []
    ensures (data + [loaded[0]]) + loaded[1..] == data + loaded
  {
    assert loaded == [loaded[0]] + loaded[1..];
  }

  /** The index of the first record at or after `n` carrying `tag`, or |data| if none does. */
  function Find(data: seq<Record>, tag: Bytes, n: nat): (j: nat)
    requires n <= |data|
    ensures n <= j <= |data|
    ensures forall k | n <= k < j :: data[k].tag != tag
    ensures j < |data| ==> data[j].tag == tag
    decreases |data| - n
  {
    if n == |data| || data[n].tag == tag then n else Find(data, tag, n + 1)
  }

  /** `data` without its j-th record. */
  function Remove(data: seq<Record>, j: nat): (r: seq<Record>)
    requires j < |data|
    ensures |r| == |data| - 1
    ensures forall k | 0 <= k < j :: r[k] == data[k]
    ensures forall k | j <= k < |r| :: r[k] == data[k + 1]
  {
    data[..j] + data[j + 1..]
  }

  datatype Looked = Looked(result: Result<Bytes>, data: seq<Record>, t: Bytes)

  /** The scan of fetch from position `n` on: the first record there carrying
      `tag` is removed and its payload returned; with none, the lookup fails
      and the queue stays as it is. */
  function Take(data: seq<Record>, tag: Bytes, n: nat, t: Bytes): (r: Looked)
    requires n <= |data|
    ensures r.t == t
    ensures r.result.Err? <==> forall k | n <= k < |data| :: data[k].tag != tag
    ensures r.result.Err? ==> r == Looked(Err(OutOfData(tag)), data, t)
    ensures r.result.Ok? ==> exists j | n <= j < |data| ::
      data[j].tag == tag && r.result.value == data[j].payload && r.data == Remove(data, j)
        && forall k | n <= k < j :: data[k].tag != tag
  {
    var j := Find(data, tag, n);
    if j == |data| then Looked(Err(OutOfData(tag)), data, t)
    else Looked(Ok(data[j].payload), Remove(data, j), t)
  }

  /** The second loop of fetch. While the head of the queue is a side-channel
      record it is popped: a "time" record sets the session time (and answers
      a lookup for "time" at once, with no payload), a "tls:keylog" record is
      dropped. Then the first record carrying `tag` is removed and its payload
      returned; with none, the lookup fails and the queue stays as it is. */
  function Lookup(data: seq<Record>, tag: Bytes, t: Bytes): (r: Looked)
    ensures |r.data| <= |data|
    ensures r.result.Ok? ==> |r.data| < |data|
    ensures r.result.Err? ==> r.result.error == OutOfData(tag)
    ensures r.result.Err? ==> forall k | 0 <= k < |r.data| :: r.data[k].tag != tag
    decreases |data|
  {
    if data != [] && data[0].tag == TimeTag then
      if tag == TimeTag then Looked(Ok([]), data[1..], data[0].payload)
      else Lookup(data[1..], tag, data[0].payload)
    else if data != [] && data[0].tag == KeylogTag then
      Lookup(data[1..], tag, t)
    else Take(data, tag, 0, t)
  }

  datatype Fetched = Fetched(result: Result<Bytes>, st: State)

  /** fetch(tag): refill, then look up. A load error is returned before any
      lookup; the records loaded until then stay buffered. */
  function Fetch(st: State, tag: Bytes): (f: Fetched)
    ensures f.result.Err? ==> !IsEOF(f.result.error)
    ensures |f.st.stream| <= |st.stream|
  {
    var r := Refill(|st.data|, st.stream);
    var data := st.data + r.loaded;
    if r.err.Some? then Fetched(Err(r.err.value), State(data, r.stream, st.t))
    else
      var l := Lookup(data, tag, st.t);
      Fetched(l.result, State(l.data, r.stream, l.t))
  }

  /** How many side-channel records a lookup for `tag` pops from the head of
      the queue: the leading run of them, or up to and including the first
      "time" record when the lookup is for "time". */
  function Drained(data: seq<Record>, tag: Bytes): (h: nat)
    ensures h <= |data|
    ensures forall k | 0 <= k < h :: SideChannel(data[k])
    decreases |data|
  {
    if data == [] then 0
    else if data[0].tag == TimeTag then (if tag == TimeTag then 1 else 1 + Drained(data[1..], tag))
    else if data[0].tag == KeylogTag then 1 + Drained(data[1..], tag)
    else 0
  }

  /** The session time after popping `recs`: the payload of the last "time" record among them, else `t`. */
  function LastTime(recs: seq<Record>, t: Bytes): Bytes
    decreases |recs|
  {
    if recs == [] then t
    else LastTime(recs[1..], if recs[0].tag == TimeTag then recs[0].payload else t)
  }

  /** A lookup pops the Drained prefix, keeping the last time it saw, and then
      either answers a "time" lookup from the popped "time" record or takes the
      first record carrying the tag from what is left. */
  lemma {:induction false} LookupDrainsThenTakes(data: seq<Record>, tag: Bytes, t: Bytes)
    ensures var h := Drained(data, tag);
      var r := Lookup(data, tag, t);
      if tag == TimeTag && h > 0 && data[h - 1].tag == TimeTag then
        r == Looked(Ok([]), data[h..], data[h - 1].payload)
      else
        r == Take(data[h..], tag, 0, LastTime(data[..h], t))
    decreases |data|
  {
    if data != [] && (data[0].tag == TimeTag || data[0].tag == KeylogTag) {
      if data[0].tag == TimeTag && tag == TimeTag {
        assert Drained(data, tag) == 1;
      } else {
        var t' := if data[0].tag == TimeTag then data[0].payload else t;
        var rest := data[1..];
        var h' := Drained(rest, tag);
        assert Lookup(data, tag, t) == Lookup(rest, tag, t');
        LookupDrainsThenTakes(rest, tag, t');
        DrainStep(data, tag, t, t', h');
      }
    } else {
      assert Drained(data, tag) == 0;
      assert data[0..] == data;
    }
  }

  /** Popping a side-channel head that does not answer the lookup: the rest
      of the drain is that of data[1..], from the time the head leaves. */
  lemma DrainStep(data: seq<Record>, tag: Bytes, t: Bytes, t': Bytes, h': nat)
    requires data != [] && (data[0].tag == TimeTag || data[0].tag == KeylogTag)
    requires !(data[0].tag == TimeTag && tag == TimeTag)
    requires t' == if data[0].tag == TimeTag then data[0].payload else t
    requires h' == Drained(data[1..], tag)
    ensures Drained(data, tag) == h' + 1
    ensures data[1..][h'..] == data[h' + 1..]
    ensures LastTime(data[..h' + 1], t) == LastTime(data[1..][..h'], t')
    ensures h' > 0 ==> data[1..][h' - 1] == data[h']
  {
    assert data[..h' + 1][1..] == data[1..][..h'];
  }

  /** A lookup never answers with another tag's payload: a success is either
      the "time" answer without payload or the payload of a buffered record
      carrying the tag. */
  lemma LookupIsolation(data: seq<Record>, tag: Bytes, t: Bytes)
    requires Lookup(data, tag, t).result.Ok?
    ensures var p := Lookup(data, tag, t).result.value;
      (tag == TimeTag && p == []) || Record(tag, p) in data
  {
    LookupDrainsThenTakes(data, tag, t);
    var h := Drained(data, tag);
    if !(tag == TimeTag && h > 0 && data[h - 1].tag == TimeTag) {
      var rest := data[h..];
      var j :| 0 <= j < |rest| && rest[j].tag == tag && Lookup(data, tag, t).result.value == rest[j].payload;
      assert rest[j] == data[h + j];
    }
  }

  /** A lookup for a tag that no buffered record carries fails, and then only
      the side-channel records at the head are gone. This holds for "time"
      too: with no "time" record buffered, the clock's lookup fails as well. */
  lemma LookupMissing(data: seq<Record>, tag: Bytes, t: Bytes)
    requires forall k | 0 <= k < |data| :: data[k].tag != tag
    ensures Lookup(data, tag, t) == Looked(Err(OutOfData(tag)), data[Drained(data, tag)..], LastTime(data[..Drained(data, tag)], t))
  {
    var h := Drained(data, tag);
    MissingFromSuffix(data, tag, h);
    LookupDrainsThenTakes(data, tag, t);
  }

  lemma MissingFromSuffix(data: seq<Record>, tag: Bytes, h: nat)
    requires h <= |data|
    requires forall k | 0 <= k < |data| :: data[k].tag != tag
    ensures forall k | 0 <= k < |data[h..]| :: data[h..][k].tag != tag
  {
  }

  /** Refill loads a window of what the whole stream decodes to: on a load
      error the stream does not decode, and otherwise the stream decodes to
      the records loaded followed by what the rest of the stream decodes to.
      A refill that stops short of the window has used up the stream. */
  lemma {:induction false} RefillDecodes(count: nat, stream: Bytes)
    ensures var r := Refill(count, stream);
      (r.err.Some? ==> Codec.DecodeLog(stream) == Err(r.err.value))
      && (r.err.None? ==> Codec.DecodeLog(stream) == Codec.Prepend(r.loaded, Codec.DecodeLog(r.stream)))
      && (r.err.None? && count + |r.loaded| < Window ==> r.stream == [])
    decreases Window - count
  {
    if count >= Window {
      PrependNothing(Codec.DecodeLog(stream));
    } else {
      var p := Codec.ParseRecord(stream);
      if p.result.Err? {
        RefillStops(count, stream);
      } else {
        var rec := p.result.value;
        var r' := Refill(count + 1, p.rest);
        assert Refill(count, stream) == Load(Window - count, stream) == Refilled([rec] + r'.loaded, r'.stream, r'.err);
        assert Codec.DecodeLog(stream) == Codec.Prepend([rec], Codec.DecodeLog(p.rest));
        RefillDecodes(count + 1, p.rest);
        Codec.PrependPrepend([rec], r'.loaded, Codec.DecodeLog(r'.stream));
      }
    }
  }

  /** The step of RefillDecodes where loading stops, quietly or on an error. */
  lemma RefillStops(count: nat, stream: Bytes)
    requires count < Window && Codec.ParseRecord(stream).result.Err?
    ensures var r := Refill(count, stream);
      (r.err.Some? ==> Codec.DecodeLog(stream) == Err(r.err.value))
      && (r.err.None? ==> r.loaded == [] && r.stream == [] && Codec.DecodeLog(stream) == Ok([]))
      && (r.err.None? ==> Codec.DecodeLog(stream) == Codec.Prepend(r.loaded, Codec.DecodeLog(r.stream)))
  {
    var p := Codec.ParseRecord(stream);
    assert Refill(count, stream) == Load(Window - count, stream);
    if IsEOF(p.result.error) {
      Codec.ParseEOFAtEnd(stream);
      Codec.DecodeEmpty();
      PrependNothing(Ok([]));
    }
  }

  lemma PrependNothing(d: Result<seq<Record>>)
    ensures Codec.Prepend([], d) == d
  {
    match d
    case Ok(more) => assert [] + more == more;
    case Err(_) =>
  }

  /** The lookahead is bounded: with a full window holding no side-channel
      record and no record for `tag`, fetch fails without reading on, even
      when a record for `tag` comes later in the stream. For "time", the
      clock's fetch fails and leaves the session time as it was. */
  lemma WindowLimit(st: State, tag: Bytes)
    requires |st.data| >= Window
    requires forall k | 0 <= k < |st.data| :: !SideChannel(st.data[k]) && st.data[k].tag != tag
    ensures Fetch(st, tag) == Fetched(Err(OutOfData(tag)), st)
  {
    LookupMissing(st.data, tag, st.t);
    assert st.data[0].tag != TimeTag;
    assert Drained(st.data, tag) == 0;
    assert st.data[0..] == st.data && st.data[..0] == [];
  }

  /** fetch never answers with another tag's payload, and a lookup that fails
      after a clean refill leaves no record for the tag buffered. */
  lemma FetchIsolation(st: State, tag: Bytes)
    ensures var f := Fetch(st, tag);
      var loaded := st.data + Refill(|st.data|, st.stream).loaded;
      (f.result.Ok? ==> (tag == TimeTag && f.result.value == []) || Record(tag, f.result.value) in loaded)
      && (Refill(|st.data|, st.stream).err.None? && f.result.Err? ==> forall k | 0 <= k < |f.st.data| :: f.st.data[k].tag != tag)
  {
    var data := st.data + Refill(|st.data|, st.stream).loaded;
    if Refill(|st.data|, st.stream).err.None? && Lookup(data, tag, st.t).result.Ok? {
      LookupIsolation(data, tag, st.t);
    }
  }

  /** With nothing left to read, a refill loads nothing and reports nothing:
      the queue of `Saver.Loader()` is never topped up. */
  lemma RefillNothing(count: nat)
    ensures Refill(count, []) == Refilled([], [], None)
  {
    if count < Window {
      assert Refill(count, []) == Load(Window - count, []);
      assert Codec.ParseRecord([]).result == Err(ReadingLen(EOF));
    }
  }

  /** A recorded record at the head of a fully loaded queue answers the next
      fetch for its tag, and only it leaves the queue. */
  lemma ReplayHead(r: Record, rest: seq<Record>, t: Bytes)
    requires !SideChannel(r)
    ensures Fetch(State([r] + rest, [], t), r.tag) == Fetched(Ok(r.payload), State(rest, [], t))
  {
    var data := [r] + rest;
    RefillNothing(|data|);
    assert data + [] == data;
    assert Lookup(data, r.tag, t) == Take(data, r.tag, 0, t);
    assert Find(data, r.tag, 0) == 0;
    assert Remove(data, 0) == rest;
  }

  /** A "time" record at the head of a fully loaded queue only sets the
      session time for a fetch of any other tag. */
  lemma TimeHeadReplay(now: Bytes, rest: seq<Record>, t: Bytes, tag: Bytes)
    requires tag != TimeTag
    ensures Fetch(State([Record(TimeTag, now)] + rest, [], t), tag) == Fetch(State(rest, [], now), tag)
  {
    var data := [Record(TimeTag, now)] + rest;
    RefillNothing(|data|);
    RefillNothing(|rest|);
    assert data + [] == data && rest + [] == rest;
    assert data[1..] == rest;
    assert Lookup(data, tag, t) == Lookup(rest, tag, now);
  }

  /** What a run of fetches returned, in order, and the state after the last. */
  datatype Replayed = Replayed(results: seq<Result<Bytes>>, st: State)

  /** Fetches of `tags`, one after the other. */
  function FetchEach(st: State, tags: seq<Bytes>): (r: Replayed)
    ensures |r.results| == |tags|
    decreases |tags|
  {
    if tags == [] then Replayed([], st)
    else
      var f := Fetch(st, tags[0]);
      var more := FetchEach(f.st, tags[1..]);
      Replayed([f.result] + more.results, more.st)
  }

  /** The tags of a log, in order. */
  function Tags(log: seq<Record>): (tags: seq<Bytes>)
    ensures |tags| == |log|
  {
    if log == [] then [] else [log[0].tag] + Tags(log[1..])
  }

  /** The successful fetch results that return a log's payloads, in order. */
  function Payloads(log: seq<Record>): (oks: seq<Result<Bytes>>)
    ensures |oks| == |log|
  {
    if log == [] then [] else [Ok(log[0].payload)] + Payloads(log[1..])
  }

  /** Replaying a recording: fetching the tags of a fully loaded log with no
      side-channel records, in the order they were recorded, returns their
      payloads in that order and consumes exactly those records. */
  lemma {:induction false} ReplayInOrder(log: seq<Record>, rest: seq<Record>, t: Bytes)
    requires forall k | 0 <= k < |log| :: !SideChannel(log[k])
    ensures FetchEach(State(log + rest, [], t), Tags(log)) == Replayed(Payloads(log), State(rest, [], t))
    decreases |log|
  {
    if log != [] {
      assert log + rest == [log[0]] + (log[1..] + rest);
      ReplayHead(log[0], log[1..] + rest, t);
      ReplayInOrder(log[1..], rest, t);
      assert Tags(log)[1..] == Tags(log[1..]);
    }
  }
}
