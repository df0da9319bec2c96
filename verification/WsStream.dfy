/** The byte stream pkg/stomp/wsconn/wsconn.go makes of WebSocket messages: data frames are those
    of RFC 6455, section 5.6, and everything else is skipped. */
module WsStream {
  type Byte = x: int | 0 <= x < 256

  // What the transport delivers, in order; after the last message every further read fails.
  datatype Message = Data(payload: seq<Byte>) | NonData

  datatype Outcome = Bytes(n: nat) | EndOfFile | TransportError

  /** All the bytes a sequence of messages carries. */
  function Payloads(ms: seq<Message>): seq<Byte> {
    if ms == [] then []
    else (if ms[0].Data? then ms[0].payload else []) + Payloads(ms[1..])
  }

  /** What is left after skipping the leading non-data messages. */
  function SkipNonData(ms: seq<Message>): (r: seq<Message>)
    ensures r != [] ==> r[0].Data?
  {
    if ms == [] || ms[0].Data? then ms else SkipNonData(ms[1..])
  }

  /** It starts at the first data message. */
  lemma {:induction false} SkipFindsFirstData(ms: seq<Message>)
    ensures var r := SkipNonData(ms);
            && |r| <= |ms| && r == ms[|ms| - |r|..]
            && forall i | 0 <= i < |ms| - |r| :: ms[i].NonData?
  {
    if ms != [] && ms[0].NonData? {
      SkipFindsFirstData(ms[1..]);
    }
  }

  lemma {:induction false} SkippingLosesNothing(ms: seq<Message>)
    ensures Payloads(SkipNonData(ms)) == Payloads(ms)
  {
    if ms != [] && ms[0].NonData? {
      SkippingLosesNothing(ms[1..]);
    }
  }

  /** The connection seen by its reader: buffered bytes and the messages still to come. */
  datatype Stream = Stream(pending: seq<Byte>, incoming: seq<Message>)

  /** bytes.Buffer.Read into a buffer of the given size. */
  function TakePending(st: Stream, size: nat): (Stream, Outcome, seq<Byte>) {
    if st.pending == [] then (st, if size == 0 then Bytes(0) else EndOfFile, [])
    else
      var n := if size < |st.pending| then size else |st.pending|;
      (st.(pending := st.pending[n..]), Bytes(n), st.pending[..n])
  }

  /** WSConn.Read: fetch one data message when nothing is buffered, then hand out bytes. */
  function ReadStep(st: Stream, size: nat): (Stream, Outcome, seq<Byte>) {
    if st.pending != [] then TakePending(st, size)
    else
      var rest := SkipNonData(st.incoming);
      if rest == [] then (Stream([], []), TransportError, [])
      else TakePending(Stream(rest[0].payload, rest[1..]), size)
  }

  /** Everything not yet handed out. */
  function Undelivered(st: Stream): seq<Byte> {
    st.pending + Payloads(st.incoming)
  }

  predicate NoEmptyData(ms: seq<Message>) {
    forall m | m in ms :: m.Data? ==> m.payload != []
  }

  lemma TakeIsFaithful(st: Stream, size: nat)
    ensures var (st', o, bs) := TakePending(st, size);
            && bs + st'.pending == st.pending && st'.incoming == st.incoming
            && (o.Bytes? ==> o.n == |bs| <= size) && (o != Bytes(|bs|) ==> o == EndOfFile && bs == [])
            && (o.Bytes? && size > 0 ==> |bs| > 0)
            && (o == EndOfFile <==> size > 0 && st.pending == [])
  {
  }

  /** The stream a read hands bytes out of: one data message further if nothing was buffered. */
  function Fetch(st: Stream): Stream {
    if st.pending != [] then st
    else
      var rest := SkipNonData(st.incoming);
      if rest == [] then Stream([], []) else Stream(rest[0].payload, rest[1..])
  }

  lemma FetchLosesNothing(st: Stream)
    ensures Undelivered(Fetch(st)) == Undelivered(st)
  {
    SkippingLosesNothing(st.incoming);
  }

  /** One read hands out a prefix of what is undelivered and keeps the rest; it fails only when
      nothing is left; it makes progress into any non-empty buffer; and it signals end of file
      exactly when it meets an empty data message with room in the caller's buffer. */
  lemma ReadIsFaithful(st: Stream, size: nat)
    ensures var (st', o, bs) := ReadStep(st, size);
            && bs + Undelivered(st') == Undelivered(st)
            && (o.Bytes? ==> o.n == |bs| <= size) && (!o.Bytes? ==> bs == [])
            && (o == TransportError ==> Undelivered(st) == [] && st' == Stream([], []))
            && (o.Bytes? && size > 0 ==> |bs| > 0)
            && (o == EndOfFile <==>
                  size > 0 && st.pending == [] && SkipNonData(st.incoming) != [] && Fetch(st).pending == [])
  {
    FetchLosesNothing(st);
    TakeIsFaithful(Fetch(st), size);
    var (st', o, bs) := ReadStep(st, size);
    if o != TransportError {
      assert bs + (st'.pending + Payloads(st'.incoming)) == (bs + st'.pending) + Payloads(st'.incoming);
    }
  }

  lemma ReadKeepsNonEmpty(st: Stream, size: nat)
    requires NoEmptyData(st.incoming)
    ensures NoEmptyData(ReadStep(st, size).0.incoming) && (size > 0 ==> ReadStep(st, size).1 != EndOfFile)
  {
    var r := SkipNonData(st.incoming);
    SkipFindsFirstData(st.incoming);
    assert forall m | m in r :: m in st.incoming;
    ReadIsFaithful(st, size);
  }

  /** The stream after one read per entry of sizes, and the bytes those reads returned. */
  function ReadAll(st: Stream, sizes: seq<nat>): (Stream, seq<Byte>)
    decreases |sizes|
  {
    if sizes == [] then (st, [])
    else
      var (st1, _, bs) := ReadStep(st, sizes[0]);
      var (st2, more) := ReadAll(st1, sizes[1..]);
      (st2, bs + more)
  }

  /** Stream refinement, for every sequence of messages and of buffer sizes: the bytes returned so
      far followed by those still undelivered are the concatenation of all data payloads. */
  lemma {:induction false} ReadsConcatenate(st: Stream, sizes: seq<nat>)
    ensures ReadAll(st, sizes).1 + Undelivered(ReadAll(st, sizes).0) == Undelivered(st)
    decreases |sizes|
  {
    if sizes == [] {
      assert [] + Undelivered(st) == Undelivered(st);
    } else {
      var (st1, _, bs) := ReadStep(st, sizes[0]);
      var (st2, more) := ReadAll(st1, sizes[1..]);
      var u1, u2 := Undelivered(st1), Undelivered(st2);
      assert bs + u1 == Undelivered(st) by {
        ReadIsFaithful(st, sizes[0]);
      }
      ReadsConcatenate(st1, sizes[1..]);
      assert bs + more + u2 == bs + (more + u2);
    }
  }

  /** Nothing is withheld: without empty data messages, as many reads into non-empty buffers as
      there are bytes return every byte. */
  lemma {:induction false} ReadsDeliverEverything(st: Stream, sizes: seq<nat>)
    requires NoEmptyData(st.incoming) && (forall i | 0 <= i < |sizes| :: sizes[i] > 0) && |sizes| >= |Undelivered(st)|
    ensures ReadAll(st, sizes).1 == Undelivered(st)
    decreases |sizes|
  {
    if sizes != [] {
      var (st1, o, bs) := ReadStep(st, sizes[0]);
      ReadIsFaithful(st, sizes[0]);
      ReadKeepsNonEmpty(st, sizes[0]);
      assert |Undelivered(st1)| + |bs| == |Undelivered(st)|;
      ReadsDeliverEverything(st1, sizes[1..]);
    }
  }

  /** A data message of length zero ends the stream for the reader although data follows. */
  lemma EmptyMessageLooksLikeEof(b: Byte)
    ensures ReadStep(Stream([], [Data([]), Data([b])]), 1) == (Stream([], [Data([b])]), EndOfFile, [])
  {
    var ms := [Data([]), Data([b])];
    assert ms[1..] == [Data([b])];
  }

  class WSConn {
    var pending: seq<Byte>
    var incoming: seq<Message>   // what ReadMessage will return, in order

    ghost function AbsStream(): Stream
      reads this
    {
      Stream(pending, incoming)
    }

    constructor (ms: seq<Message>)
      ensures AbsStream() == Stream([], ms)
    {
      pending, incoming := [], ms;
    }

    /** The loop of Read: ReadMessage until a data message is buffered or the transport fails. */
    method Fill() returns (ok: bool)
      modifies this
      ensures AbsStream() == Fetch(old(AbsStream()))
      ensures !ok <==> old(pending) == [] && SkipNonData(old(incoming)) == []
    {
      ok := true;
      while |pending| == 0
        invariant pending == old(pending) && SkipNonData(incoming) == SkipNonData(old(incoming))
        invariant old(pending) != [] ==> incoming == old(incoming)
        decreases |incoming|
      {
        if incoming == [] {
          return false;
        }
        var m := incoming[0];
        incoming := incoming[1..];
        if m.Data? {
          assert SkipNonData(old(incoming)) == [m] + incoming;
          pending := m.payload;
          break;
        }
      }
    }

    /** bytes.Buffer.Read: fills a prefix of the caller's buffer and leaves the rest of it alone. */
    method Take(b: array<Byte>) returns (o: Outcome)
      modifies this, b
      ensures (AbsStream(), o) == (TakePending(old(AbsStream()), b.Length).0, TakePending(old(AbsStream()), b.Length).1)
      ensures Holds(b[..], TakePending(old(AbsStream()), b.Length).2, old(b[..]))
    {
      if |pending| == 0 {
        return if b.Length == 0 then Bytes(0) else EndOfFile;
      }
      var n := if b.Length < |pending| then b.Length else |pending|;
      for i := 0 to n
        invariant AbsStream() == old(AbsStream())
        invariant forall k | 0 <= k < i :: b[k] == pending[k]
        invariant forall k | i <= k < b.Length :: b[k] == old(b[k])
      {
        b[i] := pending[i];
      }
      pending := pending[n..];
      return Bytes(n);
    }

    method Read(b: array<Byte>) returns (o: Outcome)
      modifies this, b
      ensures (AbsStream(), o) == (ReadStep(old(AbsStream()), b.Length).0, ReadStep(old(AbsStream()), b.Length).1)
      ensures Holds(b[..], ReadStep(old(AbsStream()), b.Length).2, old(b[..]))
    {
      var ok := Fill();
      if !ok {
        return TransportError;
      }
      o := Take(b);
    }
  }

  /** The buffer now starts with bs and is otherwise what it was. */
  predicate Holds(now: seq<Byte>, bs: seq<Byte>, was: seq<Byte>) {
    |bs| <= |now| == |was| && now[..|bs|] == bs && now[|bs|..] == was[|bs|..]
  }
}
