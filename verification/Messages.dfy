/** Coalesced RPC messages: the byte format of requests and responses, and the loop that
    answers one coalesced request with one coalesced response. */
module Messages {

  type byte = n: nat | n < 256 witness 0

  const HEADER_SIZE: nat := 4
  const MAGIC: nat := 11

  /** One request or response inside a coalesced message. */
  datatype Entry = Entry(typ: byte, seqnum: byte, payload: seq<byte>)

  /** What a request handler returns. */
  datatype Result = Result(typ: byte, payload: seq<byte>)

  /** The size field of the header has 12 bits. */
  predicate Sized(payload: seq<byte>) {
    |payload| < 4096
  }

  predicate AllSized(es: seq<Entry>) {
    forall i :: 0 <= i < |es| ==> Sized(es[i].payload)
  }

  /** The header: type, sequence number, then the magic number and the size in 4 and 12 bits
      of a little-endian 16-bit word. */
  function Header(typ: byte, seqnum: byte, size: nat): (h: seq<byte>)
    requires size < 4096
    ensures |h| == HEADER_SIZE
  {
    [typ, seqnum, MAGIC + 16 * (size % 16), size / 16]
  }

  function SizeField(b2: byte, b3: byte): (size: nat)
    ensures size < 4096
  {
    b2 / 16 + 16 * b3
  }

  /** The message that start_new_req and freeze build up, one entry after the other. */
  function Encode(es: seq<Entry>): seq<byte>
    requires AllSized(es)
  {
    if es == [] then []
    else
      var e := es[|es| - 1];
      Encode(es[..|es| - 1]) + Header(e.typ, e.seqnum, |e.payload|) + e.payload
  }

  /** The entry at an offset, if it lies inside the buffer. */
  predicate Readable(buf: seq<byte>, off: nat) {
    off + HEADER_SIZE <= |buf| && off + HEADER_SIZE + SizeField(buf[off + 2], buf[off + 3]) <= |buf|
  }

  function EntryAt(buf: seq<byte>, off: nat): Entry
    requires Readable(buf, off)
  {
    var size := SizeField(buf[off + 2], buf[off + 3]);
    Entry(buf[off], buf[off + 1], buf[off + HEADER_SIZE..off + HEADER_SIZE + size])
  }

  lemma EncodeNext(es: seq<Entry>, k: nat)
    requires AllSized(es) && k < |es|
    ensures Encode(es[..k + 1]) == Encode(es[..k]) + Header(es[k].typ, es[k].seqnum, |es[k].payload|) + es[k].payload
  {
    assert es[..k + 1][..k] == es[..k];
  }

  lemma {:induction false} Offsets(es: seq<Entry>, k: nat)
    requires AllSized(es) && k <= |es|
    ensures Encode(es[..k]) <= Encode(es)
    decreases |es| - k
  {
    if k == |es| {
      assert es[..k] == es;
    } else {
      Offsets(es, k + 1);
      EncodeNext(es, k);
    }
  }

  /** Walking a message by its headers finds every entry where it was put. */
  lemma EntryFound(es: seq<Entry>, k: nat)
    requires AllSized(es) && k < |es|
    ensures var off := |Encode(es[..k])|;
            && Readable(Encode(es), off)
            && EntryAt(Encode(es), off) == es[k]
            && Encode(es)[off..off + HEADER_SIZE] == Header(es[k].typ, es[k].seqnum, |es[k].payload|)
            && |Encode(es[..k + 1])| == off + HEADER_SIZE + |es[k].payload|
  {
    var off, e, buf := |Encode(es[..k])|, es[k], Encode(es);
    var upTo := Encode(es[..k]) + Header(e.typ, e.seqnum, |e.payload|) + e.payload;
    EncodeNext(es, k);
    Offsets(es, k + 1);
    hide Encode;
    assert buf[..|upTo|] == upTo;
    assert SizeField(buf[off + 2], buf[off + 3]) == |e.payload|;
    assert buf[off + HEADER_SIZE..off + HEADER_SIZE + |e.payload|] == upTo[off + HEADER_SIZE..];
  }

  /** The response entries for request entries: each keeps its sequence number. */
  function Respond(es: seq<Entry>, results: seq<Result>): (rs: seq<Entry>)
    requires |es| == |results|
    ensures |rs| == |es|
  {
    seq(|es|, i requires 0 <= i < |es| => Entry(results[i].typ, es[i].seqnum, results[i].payload))
  }

  /** A header with its type and its size field overwritten. */
  function WithReply(h: seq<byte>, typ: byte, size: nat): (r: seq<byte>)
    requires |h| == HEADER_SIZE && size < 4096
    ensures |r| == HEADER_SIZE
  {
    [typ, h[1], h[2] % 16 + 16 * (size % 16), size / 16]
  }

  lemma ReplyHeader(typ: byte, seqnum: byte, size: nat, typ': byte, size': nat)
    requires size < 4096 && size' < 4096
    ensures WithReply(Header(typ, seqnum, size), typ', size') == Header(typ', seqnum, size')
    ensures SizeField(Header(typ, seqnum, size)[2], Header(typ, seqnum, size)[3]) == size
  {
  }

  lemma EmptyMessage()
    ensures Encode([]) == []
  {
  }

  /** Reads the n entries of a message, as the receiver of a response does. */
  method Parse(buf: seq<byte>, n: nat, ghost sent: seq<Entry>) returns (es: seq<Entry>)
    requires AllSized(sent) && buf == Encode(sent) && n == |sent|
    ensures es == sent
  {
    hide Encode, Header;
    assert sent[..0] == [] && Encode([]) == [] by { EmptyMessage(); }
    es := [];
    var off := 0;
    for i := 0 to n
      invariant es == sent[..i] && off == |Encode(sent[..i])|
    {
      EntryFound(sent, i);
      var size := SizeField(buf[off + 2], buf[off + 3]);
      es := es + [Entry(buf[off], buf[off + 1], buf[off + HEADER_SIZE..off + HEADER_SIZE + size])];
      off := off + HEADER_SIZE + size;
    }
  }

  /** The request branch of poll_comps: every request header is copied to the response, the
      handler fills in the type and the payload, and the size is overwritten. `results` are
      the handler's answers, in the order of its calls. */
  method Serve(buf: seq<byte>, n: nat, results: seq<Result>, ghost sent: seq<Entry>)
    returns (resp: seq<byte>, calls: seq<Entry>)
    requires AllSized(sent) && buf == Encode(sent) && n == |sent| == |results|
    requires forall i :: 0 <= i < n ==> Sized(results[i].payload)
    ensures calls == sent
    ensures resp == Encode(Respond(sent, results))
  {
    hide Encode, Header;
    assert sent[..0] == [] && Encode([]) == [] by { EmptyMessage(); }
    resp, calls := [], [];
    var off := 0;
    ghost var out := Respond(sent, results);
    for i := 0 to n
      invariant calls == sent[..i] && off == |Encode(sent[..i])|
      invariant resp == Encode(out[..i])
    {
      EntryFound(sent, i);
      EncodeNext(out, i);
      ReplyHeader(sent[i].typ, sent[i].seqnum, |sent[i].payload|, results[i].typ, |results[i].payload|);
      var header := buf[off..off + HEADER_SIZE];
      var reqLen := SizeField(header[2], header[3]);
      off := off + HEADER_SIZE;
      calls := calls + [Entry(header[0], header[1], buf[off..off + reqLen])];
      var r := results[i];
      header := WithReply(header, r.typ, |r.payload|);
      resp := resp + header + r.payload;
      off := off + reqLen;
    }
    assert out[..n] == out;
  }
}
